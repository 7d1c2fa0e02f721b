/** A prime between n and 2n for every n up to 2626486273: a chain of primes, each less than twice
    the one before. The numbers listed with a prime are the successive squares that Proth's
    criterion asks for, with the multiples of the prime that are taken off. */
module Bertrand {
  import opened Primes

  // ---------------------------------------------------------------------------------------
  // Trial division

  /** A remainder r is left on division by d. */
  lemma NotMultiple(d: int, q: int, r: int, n: int)
    requires n == d * q + r && 0 < r < d
    ensures !Divides(d, n)
  {
    if Divides(d, n) {
      var k :| Times(d, k) == n;
      assert Times(d, k - q) == r by { assert Times(d, k) - Times(d, q) == Times(d, k - q); }
      if k - q <= 0 { TimesSign(d, k - q); } else { TimesGrows(d, k - q); }
    }
  }

  ghost predicate NoOddDivisor(N: nat, k: nat)
  {
    forall j :: 1 <= j <= k ==> !Divides(2 * j + 1, N)
  }

  lemma TrialDivision(N: nat, k: nat)
    requires N >= 3 && N % 2 == 1 && NoOddDivisor(N, k) && N < Times(2 * k + 3, 2 * k + 3)
    ensures Prime(N)
  {
    forall d | 2 <= d < N ensures !Divides(d, N) {
      if Divides(d, N) {
        var e :| Times(d, e) == N;
        if e <= 0 { TimesSign(d, e); }
        OddFactors(d, e, N);
        OneFactorIsSmall(d, e, N, k);
      }
    }
  }

  lemma OneFactorIsSmall(d: int, e: int, N: nat, k: nat)
    requires Times(d, e) == N && d >= 3 && e >= 3 && d % 2 == 1 && e % 2 == 1 && N < Times(2 * k + 3, 2 * k + 3)
    ensures !NoOddDivisor(N, k)
  {
    var i, j := (d - 1) / 2, (e - 1) / 2;
    assert Divides(2 * i + 1, N) && Divides(2 * j + 1, N) by { DividesTimes(e, d); }
    if i > k && j > k { TimesMonotone(2 * k + 3, d, 2 * k + 3, e); }
  }

  lemma Even(d: int, e: int)
    requires d % 2 == 0
    ensures Times(d, e) % 2 == 0 && Times(e, d) % 2 == 0
  {
    assert Times(d, e) == 2 * Times(d / 2, e) == Times(e, d);
  }

  lemma OddFactors(d: int, e: int, N: nat)
    requires Times(d, e) == N && N % 2 == 1 && 2 <= d < N && e >= 1
    ensures d % 2 == 1 && e % 2 == 1 && e >= 3 && d >= 3
  {
    if d % 2 == 0 { Even(d, e); }
    if e % 2 == 0 { Even(e, d); }
    assert e == 1 ==> Times(d, e) == d;
  }

  // ---------------------------------------------------------------------------------------
  // The chain

  lemma SmallPrimes()
    ensures Prime(5) && Prime(7) && Prime(13) && Prime(23) && Prime(47) && Prime(89)
  {
    TrialDivision(5, 0);
    TrialDivision(7, 0);
    NotMultiple(3, 4, 1, 13); TrialDivision(13, 1);
    NotMultiple(3, 7, 2, 23); TrialDivision(23, 1);
    NotMultiple(3, 15, 2, 47); NotMultiple(5, 9, 2, 47); TrialDivision(47, 2);
    NotMultiple(3, 29, 2, 89); NotMultiple(5, 17, 4, 89); NotMultiple(7, 12, 5, 89); NotMultiple(9, 9, 8, 89);
    TrialDivision(89, 4);
  }

  lemma PowersOfTwo()
    ensures TwoToThe(8) == 0x100 && TwoToThe(10) == 0x400 && TwoToThe(12) == 0x1000 && TwoToThe(14) == 0x4000
    ensures TwoToThe(16) == 0x1_0000 && TwoToThe(18) == 0x4_0000
    ensures TwoToThe(20) == 0x10_0000 && TwoToThe(22) == 0x40_0000
    ensures TwoToThe(24) == 0x100_0000 && TwoToThe(26) == 0x400_0000 && TwoToThe(28) == 0x1000_0000
    ensures TwoToThe(30) == 0x4000_0000 && TwoToThe(32) == 0x1_0000_0000
  {
    assert TwoToThe(4) == 16 && TwoToThe(6) == 64;
  }

  lemma Prime113()
    ensures Prime(113)
  {
    hide MeetsMinusOne;
    Start(113); Next(113, 98, 84, 0); Next(113, 18, 2, 1); Next(113, 40, 14, 2);
    PowersOfTwo();
    Proth(113, 40, 4);
  }

  lemma Prime193()
    ensures Prime(193)
  {
    hide MeetsMinusOne;
    Start(193); Next(193, 112, 64, 0); Next(193, 43, 9, 1); Next(193, 64, 21, 2);
    PowersOfTwo();
    Proth(193, 64, 4);
  }

  lemma Prime353()
    ensures Prime(353)
  {
    hide MeetsMinusOne;
    Start(353); Next(353, 311, 273, 0); Next(353, 283, 226, 1); Next(353, 304, 261, 2); Next(353, 294, 244, 3);
    PowersOfTwo();
    Proth(353, 294, 5);
  }

  lemma Prime673()
    ensures Prime(673)
  {
    hide MeetsMinusOne;
    Start(673); Next(673, 58, 4, 0); Next(673, 609, 551, 1); Next(673, 464, 319, 2); Next(673, 118, 20, 3);
    PowersOfTwo();
    Proth(673, 118, 5);
  }

  lemma Prime1217()
    ensures Prime(1217)
  {
    hide MeetsMinusOne;
    Start(1217); Next(1217, 78, 4, 0); Next(1217, 387, 123, 1); Next(1217, 737, 446, 2); Next(1217, 540, 239, 3);
    Next(1217, 910, 680, 4);
    PowersOfTwo();
    Proth(1217, 910, 6);
  }

  lemma Prime2113()
    ensures Prime(2113)
  {
    hide MeetsMinusOne;
    Start(2113); Next(2113, 2048, 1984, 0); Next(2113, 1278, 772, 1); Next(2113, 1099, 571, 2);
    Next(2113, 2005, 1902, 3); Next(2113, 1036, 507, 4);
    PowersOfTwo();
    Proth(2113, 1036, 6);
  }

  lemma Prime3457()
    ensures Prime(3457)
  {
    hide MeetsMinusOne;
    Start(3457); Next(3457, 2749, 2185, 0); Next(3457, 1716, 851, 1); Next(3457, 1241, 445, 2);
    Next(3457, 1267, 464, 3); Next(3457, 1130, 369, 4);
    PowersOfTwo();
    Proth(3457, 1130, 6);
  }

  lemma Prime6529()
    ensures Prime(6529)
  {
    hide MeetsMinusOne;
    Start(6529); Next(6529, 4218, 2724, 0); Next(6529, 5434, 4522, 1); Next(6529, 3685, 2079, 2);
    Next(6529, 2742, 1151, 3); Next(6529, 1471, 331, 4); Next(6529, 2338, 837, 5);
    PowersOfTwo();
    Proth(6529, 2338, 7);
  }

  lemma Prime12289()
    ensures Prime(12289)
  {
    hide MeetsMinusOne;
    Start(12289); Next(12289, 1479, 177, 0); Next(12289, 8246, 5533, 1); Next(12289, 4134, 1390, 2);
    Next(12289, 5860, 2794, 3); Next(12289, 7311, 4349, 4); Next(12289, 12149, 12010, 5);
    PowersOfTwo();
    Proth(12289, 12149, 7);
  }

  lemma Prime23297()
    ensures Prime(23297)
  {
    hide MeetsMinusOne;
    Start(23297); Next(23297, 15969, 10945, 0); Next(23297, 22232, 21215, 1); Next(23297, 11481, 5657, 2);
    Next(23297, 11447, 5624, 3); Next(23297, 2741, 322, 4); Next(23297, 11827, 6004, 5); Next(23297, 1378, 81, 6);
    PowersOfTwo();
    Proth(23297, 1378, 8);
  }

  lemma Prime46337()
    ensures Prime(46337)
  {
    hide MeetsMinusOne;
    Start(46337); Next(46337, 43736, 41280, 0); Next(46337, 39977, 34489, 1); Next(46337, 40622, 35611, 2);
    Next(46337, 37868, 30946, 3); Next(46337, 8901, 1709, 4); Next(46337, 23427, 11844, 5);
    Next(46337, 28151, 17102, 6);
    PowersOfTwo();
    Proth(46337, 28151, 8);
  }

  lemma Prime87553()
    ensures Prime(87553)
  {
    hide MeetsMinusOne;
    Start(87553); Next(87553, 86333, 85129, 0); Next(87553, 24609, 6916, 1); Next(87553, 27029, 8344, 2);
    Next(87553, 16001, 2924, 3); Next(87553, 84100, 80783, 4); Next(87553, 87263, 86973, 5);
    Next(87553, 12081, 1666, 6); Next(87553, 83133, 78936, 7);
    PowersOfTwo();
    Proth(87553, 83133, 9);
  }

  lemma Prime170497()
    ensures Prime(170497)
  {
    hide MeetsMinusOne;
    Start(170497); Next(170497, 149601, 131265, 0); Next(170497, 5476, 175, 1); Next(170497, 170423, 170349, 2);
    Next(170497, 3552, 73, 3); Next(170497, 105887, 65761, 4); Next(170497, 126112, 93281, 5);
    Next(170497, 46821, 12857, 6); Next(170497, 26181, 4020, 7);
    PowersOfTwo();
    Proth(170497, 26181, 9);
  }

  lemma Prime331777()
    ensures Prime(331777)
  {
    hide MeetsMinusOne;
    Start(331777); Next(331777, 576, 0, 0); Next(331777, 331753, 331729, 1); Next(331777, 80823, 19688, 2);
    Next(331777, 161521, 78634, 3); Next(331777, 24298, 1779, 4); Next(331777, 227723, 156303, 5);
    Next(331777, 117027, 41278, 6); Next(331777, 155463, 72846, 7); Next(331777, 320527, 309658, 8);
    PowersOfTwo();
    Proth(331777, 320527, 10);
  }

  lemma Prime658433()
    ensures Prime(658433)
  {
    hide MeetsMinusOne;
    Start(658433); Next(658433, 363674, 200868, 0); Next(658433, 641753, 625495, 1); Next(658433, 57652, 5047, 2);
    Next(658433, 499878, 379504, 3); Next(658433, 286827, 124947, 4); Next(658433, 3083, 14, 5);
    Next(658433, 8926, 121, 6); Next(658433, 489019, 363195, 7); Next(658433, 408364, 253269, 8);
    PowersOfTwo();
    Proth(658433, 408364, 10);
  }

  lemma Prime1312769()
    ensures Prime(1312769)
  {
    hide MeetsMinusOne;
    Start(1312769); Next(1312769, 1310207, 1307649, 0); Next(1312769, 677519, 349666, 1);
    Next(1312769, 1298759, 1284898, 2); Next(1312769, 263403, 52850, 3); Next(1312769, 1040335, 824438, 4);
    Next(1312769, 1036905, 819010, 5); Next(1312769, 1215004, 1124519, 6); Next(1312769, 505443, 194605, 7);
    Next(1312769, 1146202, 1000769, 8); Next(1312769, 9157, 63, 9);
    PowersOfTwo();
    Proth(1312769, 9157, 11);
  }

  lemma Prime2598913()
    ensures Prime(2598913)
  {
    hide MeetsMinusOne;
    Start(2598913); Next(2598913, 1168654, 525508, 0); Next(2598913, 1702713, 1115555, 1);
    Next(2598913, 848082, 276747, 2); Next(2598913, 1011503, 393679, 3); Next(2598913, 696617, 186722, 4);
    Next(2598913, 112378, 4859, 5); Next(2598913, 837670, 269994, 6); Next(2598913, 1970504, 1494042, 7);
    Next(2598913, 424111, 69209, 8); Next(2598913, 2341857, 2110226, 9);
    PowersOfTwo();
    Proth(2598913, 2341857, 11);
  }

  lemma Prime5189633()
    ensures Prime(5189633)
  {
    hide MeetsMinusOne;
    Start(5189633); Next(5189633, 2970397, 1700169, 0); Next(5189633, 916989, 162028, 1);
    Next(5189633, 3928691, 2974124, 2); Next(5189633, 4455432, 3825101, 3); Next(5189633, 4411261, 3749633, 4);
    Next(5189633, 4339279, 3628260, 5); Next(5189633, 4588679, 4057314, 6); Next(5189633, 1161162, 259805, 7);
    Next(5189633, 40382, 314, 8); Next(5189633, 2046371, 806923, 9); Next(5189633, 730799, 102910, 10);
    PowersOfTwo();
    Proth(5189633, 730799, 12);
  }

  lemma Prime10362881()
    ensures Prime(10362881)
  {
    hide MeetsMinusOne;
    Start(10362881); Next(10362881, 7140847, 4920609, 0); Next(10362881, 9689636, 9060129, 1);
    Next(10362881, 6436391, 3997645, 2); Next(10362881, 4788074, 2212285, 3); Next(10362881, 9474634, 8662522, 4);
    Next(10362881, 7992877, 6164895, 5); Next(10362881, 3884785, 1456308, 6); Next(10362881, 660045, 42040, 7);
    Next(10362881, 2354697, 535044, 8); Next(10362881, 3791533, 1387232, 9); Next(10362881, 5707449, 3143428, 10);
    PowersOfTwo();
    Proth(10362881, 5707449, 12);
  }

  lemma Prime20717569()
    ensures Prime(20717569)
  {
    hide MeetsMinusOne;
    Start(20717569); Next(20717569, 19124405, 17653753, 0); Next(20717569, 18898091, 17238404, 1);
    Next(20717569, 4242785, 868886, 2); Next(20717569, 6887099, 2289464, 3); Next(20717569, 4216097, 857990, 4);
    Next(20717569, 1426980, 98287, 5); Next(20717569, 10463603, 5284741, 6); Next(20717569, 10185119, 5007182, 7);
    Next(20717569, 13182388, 8387825, 8); Next(20717569, 12859458, 7981904, 9);
    Next(20717569, 15040708, 10919374, 10); Next(20717569, 5404540, 1409868, 11);
    PowersOfTwo();
    Proth(20717569, 5404540, 13);
  }

  lemma Prime41132033()
    ensures Prime(41132033)
  {
    hide MeetsMinusOne;
    Start(41132033); Next(41132033, 38909228, 36806544, 0); Next(41132033, 40036539, 38970221, 1);
    Next(41132033, 35488415, 30619142, 2); Next(41132033, 37868249, 34863442, 3);
    Next(41132033, 7734432, 1454375, 4); Next(41132033, 40239571, 39366473, 5); Next(41132033, 12748289, 3951150, 6);
    Next(41132033, 22970081, 12827584, 7); Next(41132033, 27178622, 17958691, 8);
    Next(41132033, 40178616, 39247298, 9); Next(41132033, 15019774, 5484620, 10);
    Next(41132033, 23616129, 13559299, 11);
    PowersOfTwo();
    Proth(41132033, 23616129, 13);
  }

  lemma Prime82149377()
    ensures Prime(82149377)
  {
    hide MeetsMinusOne;
    Start(82149377); Next(82149377, 71918366, 62961540, 0); Next(82149377, 67929369, 56170835, 1);
    Next(82149377, 27429088, 9158375, 2); Next(82149377, 32873358, 13154788, 3);
    Next(82149377, 71315559, 61910499, 4); Next(82149377, 47122528, 27030425, 5);
    Next(82149377, 47315396, 27252144, 6); Next(82149377, 38289796, 17846860, 7);
    Next(82149377, 30599114, 11397600, 8); Next(82149377, 21825510, 5798618, 9); Next(82149377, 7736636, 728618, 10);
    Next(82149377, 14044839, 2401205, 11); Next(82149377, 36039686, 15810941, 12);
    PowersOfTwo();
    Proth(82149377, 36039686, 14);
  }

  lemma Prime164282369()
    ensures Prime(164282369)
  {
    hide MeetsMinusOne;
    Start(164282369); Next(164282369, 30320968, 5596224, 0); Next(164282369, 92741681, 52355097, 1);
    Next(164282369, 101721641, 62984800, 2); Next(164282369, 94361708, 54200167, 3);
    Next(164282369, 145174622, 128289304, 4); Next(164282369, 65627423, 26216803, 5);
    Next(164282369, 30676183, 5728114, 6); Next(164282369, 3664981, 81762, 7);
    Next(164282369, 135315694, 111456495, 8); Next(164282369, 41451868, 10459170, 9);
    Next(164282369, 71282541, 30929677, 10); Next(164282369, 38239760, 8901011, 11);
    Next(164282369, 141623696, 122090224, 12);
    PowersOfTwo();
    Proth(164282369, 141623696, 14);
  }

  lemma Prime328531969()
    ensures Prime(328531969)
  {
    hide MeetsMinusOne;
    Start(328531969); Next(328531969, 138373226, 58280932, 0); Next(328531969, 46043292, 6452902, 1);
    Next(328531969, 189081232, 108822628, 2); Next(328531969, 130925683, 52176153, 3);
    Next(328531969, 97707770, 29058993, 4); Next(328531969, 115773948, 40798486, 5);
    Next(328531969, 164460022, 82327144, 6); Next(328531969, 160478123, 78388803, 7);
    Next(328531969, 102944223, 32257174, 8); Next(328531969, 241923940, 178147633, 9);
    Next(328531969, 179585808, 98167196, 10); Next(328531969, 215746888, 141680944, 11);
    Next(328531969, 211182659, 135749697, 12); Next(328531969, 264281874, 212596993, 13);
    PowersOfTwo();
    Proth(328531969, 264281874, 15);
  }

  lemma Prime657063937()
    ensures Prime(657063937)
  {
    hide MeetsMinusOne;
    Start(657063937); Next(657063937, 20712339, 652905, 0); Next(657063937, 427211828, 277765885, 1);
    Next(657063937, 100395446, 15339824, 2); Next(657063937, 452342704, 311406410, 3);
    Next(657063937, 243205235, 90019833, 4); Next(657063937, 511010783, 397422542, 5);
    Next(657063937, 64555364, 6342449, 6); Next(657063937, 214486504, 70015196, 7);
    Next(657063937, 491778442, 368070780, 8); Next(657063937, 254399136, 98497142, 9);
    Next(657063937, 616150740, 577785072, 10); Next(657063937, 297581837, 134773717, 11);
    Next(657063937, 118193541, 21260812, 12); Next(657063937, 394392801, 236728380, 13);
    PowersOfTwo();
    Proth(657063937, 394392801, 15);
  }

  lemma Prime1314127873()
    ensures Prime(1314127873)
  {
    hide MeetsMinusOne;
    Start(1314127873); Next(1314127873, 710755123, 384416809, 0); Next(1314127873, 360720046, 99015441, 1);
    Next(1314127873, 570665842, 247814166, 2); Next(1314127873, 410753065, 128387871, 3);
    Next(1314127873, 1099254717, 919515488, 4); Next(1314127873, 797273774, 483701383, 5);
    Next(1314127873, 897171780, 612510562, 6); Next(1314127873, 575211448, 251777788, 7);
    Next(1314127873, 38561443, 1131537, 8); Next(1314127873, 1174175512, 1049127837, 9);
    Next(1314127873, 967223493, 711895169, 10); Next(1314127873, 323869209, 79818156, 11);
    Next(1314127873, 1227200091, 1146022464, 12); Next(1314127873, 253013757, 48713646, 13);
    Next(1314127873, 1062651848, 859299139, 14);
    PowersOfTwo();
    Proth(1314127873, 1062651848, 16);
  }

  lemma Prime2626486273()
    ensures Prime(2626486273)
  {
    hide MeetsMinusOne;
    Start(2626486273); Next(2626486273, 187287769, 13354993, 0); Next(2626486273, 24478432, 228135, 1);
    Next(2626486273, 1115857810, 474070116, 2); Next(2626486273, 270987238, 27959058, 3);
    Next(2626486273, 1437765883, 787047987, 4); Next(2626486273, 990149136, 373272581, 5);
    Next(2626486273, 618373759, 145588465, 6); Next(2626486273, 407124151, 63107154, 7);
    Next(2626486273, 1944226027, 1439190786, 8); Next(2626486273, 2597589020, 2569009701, 9);
    Next(2626486273, 1018996366, 395339432, 10); Next(2626486273, 1247618416, 592636530, 11);
    Next(2626486273, 1833800612, 1280351136, 12); Next(2626486273, 2463169401, 2310007693, 13);
    Next(2626486273, 454674194, 78709195, 14);
    PowersOfTwo();
    Proth(2626486273, 454674194, 16);
  }

  lemma BetweenSmall(n: nat) returns (p: nat)
    requires 4 <= n <= 87553
    ensures Prime(p) && n <= p <= 2 * n
  {
    SmallPrimes();
    if n <= 5 {
      p := 5;
    } else if n <= 7 {
      p := 7;
    } else if n <= 13 {
      p := 13;
    } else if n <= 23 {
      p := 23;
    } else if n <= 47 {
      p := 47;
    } else if n <= 89 {
      p := 89;
    } else if n <= 113 {
      p := 113;
      Prime113();
    } else if n <= 193 {
      p := 193;
      Prime193();
    } else if n <= 353 {
      p := 353;
      Prime353();
    } else if n <= 673 {
      p := 673;
      Prime673();
    } else if n <= 1217 {
      p := 1217;
      Prime1217();
    } else if n <= 2113 {
      p := 2113;
      Prime2113();
    } else if n <= 3457 {
      p := 3457;
      Prime3457();
    } else if n <= 6529 {
      p := 6529;
      Prime6529();
    } else if n <= 12289 {
      p := 12289;
      Prime12289();
    } else if n <= 23297 {
      p := 23297;
      Prime23297();
    } else if n <= 46337 {
      p := 46337;
      Prime46337();
    } else {
      p := 87553;
      Prime87553();
    }
  }

  lemma BetweenLarge(n: nat) returns (p: nat)
    requires 87554 <= n <= 2626486273
    ensures Prime(p) && n <= p <= 2 * n
  {
    if n <= 170497 {
      p := 170497;
      Prime170497();
    } else if n <= 331777 {
      p := 331777;
      Prime331777();
    } else if n <= 658433 {
      p := 658433;
      Prime658433();
    } else if n <= 1312769 {
      p := 1312769;
      Prime1312769();
    } else if n <= 2598913 {
      p := 2598913;
      Prime2598913();
    } else if n <= 5189633 {
      p := 5189633;
      Prime5189633();
    } else if n <= 10362881 {
      p := 10362881;
      Prime10362881();
    } else if n <= 20717569 {
      p := 20717569;
      Prime20717569();
    } else if n <= 41132033 {
      p := 41132033;
      Prime41132033();
    } else if n <= 82149377 {
      p := 82149377;
      Prime82149377();
    } else if n <= 164282369 {
      p := 164282369;
      Prime164282369();
    } else if n <= 328531969 {
      p := 328531969;
      Prime328531969();
    } else if n <= 657063937 {
      p := 657063937;
      Prime657063937();
    } else if n <= 1314127873 {
      p := 1314127873;
      Prime1314127873();
    } else {
      p := 2626486273;
      Prime2626486273();
    }
  }

  /** Bertrand's postulate, as far as the sieve can use it. */
  lemma PrimeBetween(n: nat) returns (p: nat)
    requires 4 <= n <= 2626486273
    ensures Prime(p) && n <= p <= 2 * n
  {
    if n <= 87553 { p := BetweenSmall(n); } else { p := BetweenLarge(n); }
  }

  lemma Lower65521(j: int)
    requires 1 <= j <= 64
    ensures !Divides(2 * j + 1, 65521)
  {
    var N := 65521;
    NotMultiple(3, 21840, 1, N); NotMultiple(5, 13104, 1, N); NotMultiple(7, 9360, 1, N); NotMultiple(9, 7280, 1, N);
    NotMultiple(11, 5956, 5, N); NotMultiple(13, 5040, 1, N); NotMultiple(15, 4368, 1, N);
    NotMultiple(17, 3854, 3, N); NotMultiple(19, 3448, 9, N); NotMultiple(21, 3120, 1, N);
    NotMultiple(23, 2848, 17, N); NotMultiple(25, 2620, 21, N); NotMultiple(27, 2426, 19, N);
    NotMultiple(29, 2259, 10, N); NotMultiple(31, 2113, 18, N); NotMultiple(33, 1985, 16, N);
    NotMultiple(35, 1872, 1, N); NotMultiple(37, 1770, 31, N); NotMultiple(39, 1680, 1, N);
    NotMultiple(41, 1598, 3, N); NotMultiple(43, 1523, 32, N); NotMultiple(45, 1456, 1, N);
    NotMultiple(47, 1394, 3, N); NotMultiple(49, 1337, 8, N); NotMultiple(51, 1284, 37, N);
    NotMultiple(53, 1236, 13, N); NotMultiple(55, 1191, 16, N); NotMultiple(57, 1149, 28, N);
    NotMultiple(59, 1110, 31, N); NotMultiple(61, 1074, 7, N); NotMultiple(63, 1040, 1, N);
    NotMultiple(65, 1008, 1, N); NotMultiple(67, 977, 62, N); NotMultiple(69, 949, 40, N);
    NotMultiple(71, 922, 59, N); NotMultiple(73, 897, 40, N); NotMultiple(75, 873, 46, N);
    NotMultiple(77, 850, 71, N); NotMultiple(79, 829, 30, N); NotMultiple(81, 808, 73, N);
    NotMultiple(83, 789, 34, N); NotMultiple(85, 770, 71, N); NotMultiple(87, 753, 10, N);
    NotMultiple(89, 736, 17, N); NotMultiple(91, 720, 1, N); NotMultiple(93, 704, 49, N);
    NotMultiple(95, 689, 66, N); NotMultiple(97, 675, 46, N); NotMultiple(99, 661, 82, N);
    NotMultiple(101, 648, 73, N); NotMultiple(103, 636, 13, N); NotMultiple(105, 624, 1, N);
    NotMultiple(107, 612, 37, N); NotMultiple(109, 601, 12, N); NotMultiple(111, 590, 31, N);
    NotMultiple(113, 579, 94, N); NotMultiple(115, 569, 86, N); NotMultiple(117, 560, 1, N);
    NotMultiple(119, 550, 71, N); NotMultiple(121, 541, 60, N); NotMultiple(123, 532, 85, N);
    NotMultiple(125, 524, 21, N); NotMultiple(127, 515, 116, N); NotMultiple(129, 507, 118, N);
  }

  lemma Upper65521(j: int)
    requires 65 <= j <= 127
    ensures !Divides(2 * j + 1, 65521)
  {
    var N := 65521;
    NotMultiple(131, 500, 21, N); NotMultiple(133, 492, 85, N); NotMultiple(135, 485, 46, N);
    NotMultiple(137, 478, 35, N); NotMultiple(139, 471, 52, N); NotMultiple(141, 464, 97, N);
    NotMultiple(143, 458, 27, N); NotMultiple(145, 451, 126, N); NotMultiple(147, 445, 106, N);
    NotMultiple(149, 439, 110, N); NotMultiple(151, 433, 138, N); NotMultiple(153, 428, 37, N);
    NotMultiple(155, 422, 111, N); NotMultiple(157, 417, 52, N); NotMultiple(159, 412, 13, N);
    NotMultiple(161, 406, 155, N); NotMultiple(163, 401, 158, N); NotMultiple(165, 397, 16, N);
    NotMultiple(167, 392, 57, N); NotMultiple(169, 387, 118, N); NotMultiple(171, 383, 28, N);
    NotMultiple(173, 378, 127, N); NotMultiple(175, 374, 71, N); NotMultiple(177, 370, 31, N);
    NotMultiple(179, 366, 7, N); NotMultiple(181, 361, 180, N); NotMultiple(183, 358, 7, N);
    NotMultiple(185, 354, 31, N); NotMultiple(187, 350, 71, N); NotMultiple(189, 346, 127, N);
    NotMultiple(191, 343, 8, N); NotMultiple(193, 339, 94, N); NotMultiple(195, 336, 1, N);
    NotMultiple(197, 332, 117, N); NotMultiple(199, 329, 50, N); NotMultiple(201, 325, 196, N);
    NotMultiple(203, 322, 155, N); NotMultiple(205, 319, 126, N); NotMultiple(207, 316, 109, N);
    NotMultiple(209, 313, 104, N); NotMultiple(211, 310, 111, N); NotMultiple(213, 307, 130, N);
    NotMultiple(215, 304, 161, N); NotMultiple(217, 301, 204, N); NotMultiple(219, 299, 40, N);
    NotMultiple(221, 296, 105, N); NotMultiple(223, 293, 182, N); NotMultiple(225, 291, 46, N);
    NotMultiple(227, 288, 145, N); NotMultiple(229, 286, 27, N); NotMultiple(231, 283, 148, N);
    NotMultiple(233, 281, 48, N); NotMultiple(235, 278, 191, N); NotMultiple(237, 276, 109, N);
    NotMultiple(239, 274, 35, N); NotMultiple(241, 271, 210, N); NotMultiple(243, 269, 154, N);
    NotMultiple(245, 267, 106, N); NotMultiple(247, 265, 66, N); NotMultiple(249, 263, 34, N);
    NotMultiple(251, 261, 10, N); NotMultiple(253, 258, 247, N); NotMultiple(255, 256, 241, N);
  }

  lemma Lower91583(j: int)
    requires 1 <= j <= 76
    ensures !Divides(2 * j + 1, 91583)
  {
    var N := 91583;
    NotMultiple(3, 30527, 2, N); NotMultiple(5, 18316, 3, N); NotMultiple(7, 13083, 2, N);
    NotMultiple(9, 10175, 8, N); NotMultiple(11, 8325, 8, N); NotMultiple(13, 7044, 11, N);
    NotMultiple(15, 6105, 8, N); NotMultiple(17, 5387, 4, N); NotMultiple(19, 4820, 3, N);
    NotMultiple(21, 4361, 2, N); NotMultiple(23, 3981, 20, N); NotMultiple(25, 3663, 8, N);
    NotMultiple(27, 3391, 26, N); NotMultiple(29, 3158, 1, N); NotMultiple(31, 2954, 9, N);
    NotMultiple(33, 2775, 8, N); NotMultiple(35, 2616, 23, N); NotMultiple(37, 2475, 8, N);
    NotMultiple(39, 2348, 11, N); NotMultiple(41, 2233, 30, N); NotMultiple(43, 2129, 36, N);
    NotMultiple(45, 2035, 8, N); NotMultiple(47, 1948, 27, N); NotMultiple(49, 1869, 2, N);
    NotMultiple(51, 1795, 38, N); NotMultiple(53, 1727, 52, N); NotMultiple(55, 1665, 8, N);
    NotMultiple(57, 1606, 41, N); NotMultiple(59, 1552, 15, N); NotMultiple(61, 1501, 22, N);
    NotMultiple(63, 1453, 44, N); NotMultiple(65, 1408, 63, N); NotMultiple(67, 1366, 61, N);
    NotMultiple(69, 1327, 20, N); NotMultiple(71, 1289, 64, N); NotMultiple(73, 1254, 41, N);
    NotMultiple(75, 1221, 8, N); NotMultiple(77, 1189, 30, N); NotMultiple(79, 1159, 22, N);
    NotMultiple(81, 1130, 53, N); NotMultiple(83, 1103, 34, N); NotMultiple(85, 1077, 38, N);
    NotMultiple(87, 1052, 59, N); NotMultiple(89, 1029, 2, N); NotMultiple(91, 1006, 37, N);
    NotMultiple(93, 984, 71, N); NotMultiple(95, 964, 3, N); NotMultiple(97, 944, 15, N); NotMultiple(99, 925, 8, N);
    NotMultiple(101, 906, 77, N); NotMultiple(103, 889, 16, N); NotMultiple(105, 872, 23, N);
    NotMultiple(107, 855, 98, N); NotMultiple(109, 840, 23, N); NotMultiple(111, 825, 8, N);
    NotMultiple(113, 810, 53, N); NotMultiple(115, 796, 43, N); NotMultiple(117, 782, 89, N);
    NotMultiple(119, 769, 72, N); NotMultiple(121, 756, 107, N); NotMultiple(123, 744, 71, N);
    NotMultiple(125, 732, 83, N); NotMultiple(127, 721, 16, N); NotMultiple(129, 709, 122, N);
    NotMultiple(131, 699, 14, N); NotMultiple(133, 688, 79, N); NotMultiple(135, 678, 53, N);
    NotMultiple(137, 668, 67, N); NotMultiple(139, 658, 121, N); NotMultiple(141, 649, 74, N);
    NotMultiple(143, 640, 63, N); NotMultiple(145, 631, 88, N); NotMultiple(147, 623, 2, N);
    NotMultiple(149, 614, 97, N); NotMultiple(151, 606, 77, N); NotMultiple(153, 598, 89, N);
  }

  lemma Upper91583(j: int)
    requires 77 <= j <= 151
    ensures !Divides(2 * j + 1, 91583)
  {
    var N := 91583;
    NotMultiple(155, 590, 133, N); NotMultiple(157, 583, 52, N); NotMultiple(159, 575, 158, N);
    NotMultiple(161, 568, 135, N); NotMultiple(163, 561, 140, N); NotMultiple(165, 555, 8, N);
    NotMultiple(167, 548, 67, N); NotMultiple(169, 541, 154, N); NotMultiple(171, 535, 98, N);
    NotMultiple(173, 529, 66, N); NotMultiple(175, 523, 58, N); NotMultiple(177, 517, 74, N);
    NotMultiple(179, 511, 114, N); NotMultiple(181, 505, 178, N); NotMultiple(183, 500, 83, N);
    NotMultiple(185, 495, 8, N); NotMultiple(187, 489, 140, N); NotMultiple(189, 484, 107, N);
    NotMultiple(191, 479, 94, N); NotMultiple(193, 474, 101, N); NotMultiple(195, 469, 128, N);
    NotMultiple(197, 464, 175, N); NotMultiple(199, 460, 43, N); NotMultiple(201, 455, 128, N);
    NotMultiple(203, 451, 30, N); NotMultiple(205, 446, 153, N); NotMultiple(207, 442, 89, N);
    NotMultiple(209, 438, 41, N); NotMultiple(211, 434, 9, N); NotMultiple(213, 429, 206, N);
    NotMultiple(215, 425, 208, N); NotMultiple(217, 422, 9, N); NotMultiple(219, 418, 41, N);
    NotMultiple(221, 414, 89, N); NotMultiple(223, 410, 153, N); NotMultiple(225, 407, 8, N);
    NotMultiple(227, 403, 102, N); NotMultiple(229, 399, 212, N); NotMultiple(231, 396, 107, N);
    NotMultiple(233, 393, 14, N); NotMultiple(235, 389, 168, N); NotMultiple(237, 386, 101, N);
    NotMultiple(239, 383, 46, N); NotMultiple(241, 380, 3, N); NotMultiple(243, 376, 215, N);
    NotMultiple(245, 373, 198, N); NotMultiple(247, 370, 193, N); NotMultiple(249, 367, 200, N);
    NotMultiple(251, 364, 219, N); NotMultiple(253, 361, 250, N); NotMultiple(255, 359, 38, N);
    NotMultiple(257, 356, 91, N); NotMultiple(259, 353, 156, N); NotMultiple(261, 350, 233, N);
    NotMultiple(263, 348, 59, N); NotMultiple(265, 345, 158, N); NotMultiple(267, 343, 2, N);
    NotMultiple(269, 340, 123, N); NotMultiple(271, 337, 256, N); NotMultiple(273, 335, 128, N);
    NotMultiple(275, 333, 8, N); NotMultiple(277, 330, 173, N); NotMultiple(279, 328, 71, N);
    NotMultiple(281, 325, 258, N); NotMultiple(283, 323, 174, N); NotMultiple(285, 321, 98, N);
    NotMultiple(287, 319, 30, N); NotMultiple(289, 316, 259, N); NotMultiple(291, 314, 209, N);
    NotMultiple(293, 312, 167, N); NotMultiple(295, 310, 133, N); NotMultiple(297, 308, 107, N);
    NotMultiple(299, 306, 89, N); NotMultiple(301, 304, 79, N); NotMultiple(303, 302, 77, N);
  }

  lemma Lower92681(j: int)
    requires 1 <= j <= 76
    ensures !Divides(2 * j + 1, 92681)
  {
    var N := 92681;
    NotMultiple(3, 30893, 2, N); NotMultiple(5, 18536, 1, N); NotMultiple(7, 13240, 1, N);
    NotMultiple(9, 10297, 8, N); NotMultiple(11, 8425, 6, N); NotMultiple(13, 7129, 4, N);
    NotMultiple(15, 6178, 11, N); NotMultiple(17, 5451, 14, N); NotMultiple(19, 4877, 18, N);
    NotMultiple(21, 4413, 8, N); NotMultiple(23, 4029, 14, N); NotMultiple(25, 3707, 6, N);
    NotMultiple(27, 3432, 17, N); NotMultiple(29, 3195, 26, N); NotMultiple(31, 2989, 22, N);
    NotMultiple(33, 2808, 17, N); NotMultiple(35, 2648, 1, N); NotMultiple(37, 2504, 33, N);
    NotMultiple(39, 2376, 17, N); NotMultiple(41, 2260, 21, N); NotMultiple(43, 2155, 16, N);
    NotMultiple(45, 2059, 26, N); NotMultiple(47, 1971, 44, N); NotMultiple(49, 1891, 22, N);
    NotMultiple(51, 1817, 14, N); NotMultiple(53, 1748, 37, N); NotMultiple(55, 1685, 6, N);
    NotMultiple(57, 1625, 56, N); NotMultiple(59, 1570, 51, N); NotMultiple(61, 1519, 22, N);
    NotMultiple(63, 1471, 8, N); NotMultiple(65, 1425, 56, N); NotMultiple(67, 1383, 20, N);
    NotMultiple(69, 1343, 14, N); NotMultiple(71, 1305, 26, N); NotMultiple(73, 1269, 44, N);
    NotMultiple(75, 1235, 56, N); NotMultiple(77, 1203, 50, N); NotMultiple(79, 1173, 14, N);
    NotMultiple(81, 1144, 17, N); NotMultiple(83, 1116, 53, N); NotMultiple(85, 1090, 31, N);
    NotMultiple(87, 1065, 26, N); NotMultiple(89, 1041, 32, N); NotMultiple(91, 1018, 43, N);
    NotMultiple(93, 996, 53, N); NotMultiple(95, 975, 56, N); NotMultiple(97, 955, 46, N);
    NotMultiple(99, 936, 17, N); NotMultiple(101, 917, 64, N); NotMultiple(103, 899, 84, N);
    NotMultiple(105, 882, 71, N); NotMultiple(107, 866, 19, N); NotMultiple(109, 850, 31, N);
    NotMultiple(111, 834, 107, N); NotMultiple(113, 820, 21, N); NotMultiple(115, 805, 106, N);
    NotMultiple(117, 792, 17, N); NotMultiple(119, 778, 99, N); NotMultiple(121, 765, 116, N);
    NotMultiple(123, 753, 62, N); NotMultiple(125, 741, 56, N); NotMultiple(127, 729, 98, N);
    NotMultiple(129, 718, 59, N); NotMultiple(131, 707, 64, N); NotMultiple(133, 696, 113, N);
    NotMultiple(135, 686, 71, N); NotMultiple(137, 676, 69, N); NotMultiple(139, 666, 107, N);
    NotMultiple(141, 657, 44, N); NotMultiple(143, 648, 17, N); NotMultiple(145, 639, 26, N);
    NotMultiple(147, 630, 71, N); NotMultiple(149, 622, 3, N); NotMultiple(151, 613, 118, N);
    NotMultiple(153, 605, 116, N);
  }

  lemma Upper92681(j: int)
    requires 77 <= j <= 151
    ensures !Divides(2 * j + 1, 92681)
  {
    var N := 92681;
    NotMultiple(155, 597, 146, N); NotMultiple(157, 590, 51, N); NotMultiple(159, 582, 143, N);
    NotMultiple(161, 575, 106, N); NotMultiple(163, 568, 97, N); NotMultiple(165, 561, 116, N);
    NotMultiple(167, 554, 163, N); NotMultiple(169, 548, 69, N); NotMultiple(171, 541, 170, N);
    NotMultiple(173, 535, 126, N); NotMultiple(175, 529, 106, N); NotMultiple(177, 523, 110, N);
    NotMultiple(179, 517, 138, N); NotMultiple(181, 512, 9, N); NotMultiple(183, 506, 83, N);
    NotMultiple(185, 500, 181, N); NotMultiple(187, 495, 116, N); NotMultiple(189, 490, 71, N);
    NotMultiple(191, 485, 46, N); NotMultiple(193, 480, 41, N); NotMultiple(195, 475, 56, N);
    NotMultiple(197, 470, 91, N); NotMultiple(199, 465, 146, N); NotMultiple(201, 461, 20, N);
    NotMultiple(203, 456, 113, N); NotMultiple(205, 452, 21, N); NotMultiple(207, 447, 152, N);
    NotMultiple(209, 443, 94, N); NotMultiple(211, 439, 52, N); NotMultiple(213, 435, 26, N);
    NotMultiple(215, 431, 16, N); NotMultiple(217, 427, 22, N); NotMultiple(219, 423, 44, N);
    NotMultiple(221, 419, 82, N); NotMultiple(223, 415, 136, N); NotMultiple(225, 411, 206, N);
    NotMultiple(227, 408, 65, N); NotMultiple(229, 404, 165, N); NotMultiple(231, 401, 50, N);
    NotMultiple(233, 397, 180, N); NotMultiple(235, 394, 91, N); NotMultiple(237, 391, 14, N);
    NotMultiple(239, 387, 188, N); NotMultiple(241, 384, 137, N); NotMultiple(243, 381, 98, N);
    NotMultiple(245, 378, 71, N); NotMultiple(247, 375, 56, N); NotMultiple(249, 372, 53, N);
    NotMultiple(251, 369, 62, N); NotMultiple(253, 366, 83, N); NotMultiple(255, 363, 116, N);
    NotMultiple(257, 360, 161, N); NotMultiple(259, 357, 218, N); NotMultiple(261, 355, 26, N);
    NotMultiple(263, 352, 105, N); NotMultiple(265, 349, 196, N); NotMultiple(267, 347, 32, N);
    NotMultiple(269, 344, 145, N); NotMultiple(271, 341, 270, N); NotMultiple(273, 339, 134, N);
    NotMultiple(275, 337, 6, N); NotMultiple(277, 334, 163, N); NotMultiple(279, 332, 53, N);
    NotMultiple(281, 329, 232, N); NotMultiple(283, 327, 140, N); NotMultiple(285, 325, 56, N);
    NotMultiple(287, 322, 267, N); NotMultiple(289, 320, 201, N); NotMultiple(291, 318, 143, N);
    NotMultiple(293, 316, 93, N); NotMultiple(295, 314, 51, N); NotMultiple(297, 312, 17, N);
    NotMultiple(299, 309, 290, N); NotMultiple(301, 307, 274, N); NotMultiple(303, 305, 266, N);
  }

  /** The largest prime whose square is below 2^32. */
  lemma Prime65521()
    ensures Prime(65521)
  {
    forall j | 1 <= j <= 127 ensures !Divides(2 * j + 1, 65521) {
      if j <= 64 { Lower65521(j); } else { Upper65521(j); }
    }
    TrialDivision(65521, 127);
  }

  /** The first prime with an odd multiple from which the next one wraps, in the sieve. */
  lemma Prime91583()
    ensures Prime(91583)
  {
    forall j | 1 <= j <= 151 ensures !Divides(2 * j + 1, 91583) {
      if j <= 76 { Lower91583(j); } else { Upper91583(j); }
    }
    TrialDivision(91583, 151);
  }

  /** A prime whose square lies just below twice 2^32. */
  lemma Prime92681()
    ensures Prime(92681)
  {
    forall j | 1 <= j <= 151 ensures !Divides(2 * j + 1, 92681) {
      if j <= 76 { Lower92681(j); } else { Upper92681(j); }
    }
    TrialDivision(92681, 151);
  }
}

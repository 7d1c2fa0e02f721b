/** For each odd number from 91257 to 92681 its largest odd multiple below 2^32, or a divisor. */
module LastMultiples {
  import opened Primes

  /** The first odd multiple, of a prime that the sieve reaches, from which the next one wraps: 46895 * 91583. */
  const FIRST_TO_WRAP := 4294784785

  /** An odd multiple of i lies behind all those that the sieve marks. */
  ghost predicate HasLast(i: nat)
  {
    exists k :: k % 2 == 1 && FIRST_TO_WRAP <= Times(i, k) < 0x1_0000_0000
  }

  lemma Last(i: nat, k: nat)
    requires k % 2 == 1 && FIRST_TO_WRAP <= i * k < 0x1_0000_0000
    ensures HasLast(i)
  {
    assert Times(i, k) == i * k;
  }

  lemma Factor(i: nat, d: nat, e: nat)
    requires 3 <= d < i && d % 2 == 1 && i == d * e
    ensures HasDivisorBelow(i, i)
  {
    assert Times(d, e) == i && Divides(d, i);
  }

  lemma From91257(i: nat)
    requires 91257 <= i <= 91429 && i % 2 == 1
    ensures HasLast(i) || HasDivisorBelow(i, i)
  {
    if i <= 91259 { Last(i, 47063); } else if i <= 91263 { Last(i, 47061); } else
    if i <= 91267 { Last(i, 47059); } else if i <= 91271 { Last(i, 47057); } else
    if i <= 91275 { Last(i, 47055); } else if i <= 91279 { Last(i, 47053); } else
    if i <= 91283 { Last(i, 47051); } else if i <= 91287 { Last(i, 47049); } else
    if i <= 91289 { Last(i, 47047); } else if i <= 91293 { Last(i, 47045); } else
    if i <= 91297 { Last(i, 47043); } else if i <= 91301 { Last(i, 47041); } else
    if i <= 91305 { Last(i, 47039); } else if i <= 91309 { Last(i, 47037); } else
    if i <= 91313 { Last(i, 47035); } else if i <= 91317 { Last(i, 47033); } else
    if i <= 91321 { Last(i, 47031); } else if i <= 91325 { Last(i, 47029); } else
    if i <= 91329 { Last(i, 47027); } else if i <= 91333 { Last(i, 47025); } else
    if i <= 91337 { Last(i, 47023); } else if i <= 91341 { Last(i, 47021); } else
    if i <= 91345 { Last(i, 47019); } else if i <= 91349 { Last(i, 47017); } else
    if i <= 91353 { Last(i, 47015); } else if i <= 91357 { Last(i, 47013); } else
    if i <= 91359 { Last(i, 47011); } else if i <= 91363 { Last(i, 47009); } else
    if i <= 91367 { Last(i, 47007); } else if i <= 91371 { Last(i, 47005); } else
    if i <= 91375 { Last(i, 47003); } else if i <= 91379 { Last(i, 47001); } else
    if i <= 91383 { Last(i, 46999); } else if i <= 91387 { Last(i, 46997); } else
    if i <= 91391 { Last(i, 46995); } else if i <= 91395 { Last(i, 46993); } else
    if i <= 91399 { Last(i, 46991); } else if i <= 91403 { Last(i, 46989); } else
    if i <= 91407 { Last(i, 46987); } else if i <= 91411 { Last(i, 46985); } else
    if i <= 91415 { Last(i, 46983); } else if i <= 91419 { Last(i, 46981); } else
    if i <= 91423 { Last(i, 46979); } else if i <= 91427 { Last(i, 46977); } else { Last(i, 46975); }
  }

  lemma From91431(i: nat)
    requires 91431 <= i <= 91605 && i % 2 == 1
    ensures HasLast(i) || HasDivisorBelow(i, i)
  {
    if i <= 91433 { Last(i, 46973); } else if i <= 91437 { Last(i, 46971); } else
    if i <= 91441 { Last(i, 46969); } else if i <= 91445 { Last(i, 46967); } else
    if i <= 91449 { Last(i, 46965); } else if i <= 91453 { Last(i, 46963); } else
    if i <= 91457 { Last(i, 46961); } else if i <= 91461 { Last(i, 46959); } else
    if i <= 91465 { Last(i, 46957); } else if i <= 91469 { Last(i, 46955); } else
    if i <= 91473 { Last(i, 46953); } else if i <= 91477 { Last(i, 46951); } else
    if i <= 91481 { Last(i, 46949); } else if i <= 91485 { Last(i, 46947); } else
    if i <= 91489 { Last(i, 46945); } else if i <= 91493 { Last(i, 46943); } else
    if i <= 91497 { Last(i, 46941); } else if i <= 91501 { Last(i, 46939); } else
    if i <= 91503 { Last(i, 46937); } else if i <= 91507 { Last(i, 46935); } else
    if i <= 91511 { Last(i, 46933); } else if i <= 91515 { Last(i, 46931); } else
    if i <= 91519 { Last(i, 46929); } else if i <= 91523 { Last(i, 46927); } else
    if i <= 91527 { Last(i, 46925); } else if i <= 91531 { Last(i, 46923); } else
    if i <= 91535 { Last(i, 46921); } else if i <= 91539 { Last(i, 46919); } else
    if i <= 91543 { Last(i, 46917); } else if i <= 91547 { Last(i, 46915); } else
    if i <= 91551 { Last(i, 46913); } else if i <= 91555 { Last(i, 46911); } else
    if i <= 91559 { Last(i, 46909); } else if i <= 91563 { Last(i, 46907); } else
    if i <= 91567 { Last(i, 46905); } else if i <= 91571 { Last(i, 46903); } else
    if i <= 91575 { Last(i, 46901); } else if i <= 91579 { Last(i, 46899); } else
    if i <= 91581 { Last(i, 46897); } else if i <= 91585 { Last(i, 46895); } else
    if i <= 91589 { Last(i, 46893); } else if i <= 91593 { Last(i, 46891); } else
    if i <= 91597 { Last(i, 46889); } else if i <= 91601 { Last(i, 46887); } else { Last(i, 46885); }
  }

  lemma From91607(i: nat)
    requires 91607 <= i <= 91777 && i % 2 == 1
    ensures HasLast(i) || HasDivisorBelow(i, i)
  {
    if i <= 91609 { Last(i, 46883); } else if i <= 91613 { Last(i, 46881); } else
    if i <= 91617 { Last(i, 46879); } else if i <= 91621 { Last(i, 46877); } else
    if i <= 91625 { Last(i, 46875); } else if i <= 91629 { Last(i, 46873); } else
    if i <= 91633 { Last(i, 46871); } else if i <= 91637 { Last(i, 46869); } else
    if i <= 91641 { Last(i, 46867); } else if i <= 91645 { Last(i, 46865); } else
    if i <= 91649 { Last(i, 46863); } else if i <= 91653 { Last(i, 46861); } else
    if i <= 91657 { Last(i, 46859); } else if i <= 91661 { Last(i, 46857); } else
    if i <= 91665 { Last(i, 46855); } else if i <= 91667 { Last(i, 46853); } else
    if i <= 91669 { Factor(i, 29, 3161); } else if i <= 91671 { Last(i, 46851); } else
    if i <= 91675 { Last(i, 46849); } else if i <= 91679 { Last(i, 46847); } else
    if i <= 91683 { Last(i, 46845); } else if i <= 91687 { Last(i, 46843); } else
    if i <= 91691 { Last(i, 46841); } else if i <= 91695 { Last(i, 46839); } else
    if i <= 91699 { Last(i, 46837); } else if i <= 91703 { Last(i, 46835); } else
    if i <= 91707 { Last(i, 46833); } else if i <= 91711 { Last(i, 46831); } else
    if i <= 91715 { Last(i, 46829); } else if i <= 91719 { Last(i, 46827); } else
    if i <= 91723 { Last(i, 46825); } else if i <= 91727 { Last(i, 46823); } else
    if i <= 91731 { Last(i, 46821); } else if i <= 91735 { Last(i, 46819); } else
    if i <= 91739 { Last(i, 46817); } else if i <= 91743 { Last(i, 46815); } else
    if i <= 91747 { Last(i, 46813); } else if i <= 91751 { Last(i, 46811); } else
    if i <= 91755 { Last(i, 46809); } else if i <= 91759 { Last(i, 46807); } else
    if i <= 91763 { Last(i, 46805); } else if i <= 91765 { Last(i, 46803); } else
    if i <= 91769 { Last(i, 46801); } else if i <= 91773 { Last(i, 46799); } else { Last(i, 46797); }
  }

  lemma From91779(i: nat)
    requires 91779 <= i <= 91951 && i % 2 == 1
    ensures HasLast(i) || HasDivisorBelow(i, i)
  {
    if i <= 91781 { Last(i, 46795); } else if i <= 91785 { Last(i, 46793); } else
    if i <= 91789 { Last(i, 46791); } else if i <= 91793 { Last(i, 46789); } else
    if i <= 91797 { Last(i, 46787); } else if i <= 91801 { Last(i, 46785); } else
    if i <= 91805 { Last(i, 46783); } else if i <= 91809 { Last(i, 46781); } else
    if i <= 91813 { Last(i, 46779); } else if i <= 91817 { Last(i, 46777); } else
    if i <= 91821 { Last(i, 46775); } else if i <= 91825 { Last(i, 46773); } else
    if i <= 91829 { Last(i, 46771); } else if i <= 91833 { Last(i, 46769); } else
    if i <= 91837 { Last(i, 46767); } else if i <= 91841 { Last(i, 46765); } else
    if i <= 91845 { Last(i, 46763); } else if i <= 91849 { Last(i, 46761); } else
    if i <= 91853 { Last(i, 46759); } else if i <= 91857 { Last(i, 46757); } else
    if i <= 91861 { Last(i, 46755); } else if i <= 91865 { Last(i, 46753); } else
    if i <= 91867 { Last(i, 46751); } else if i <= 91869 { Factor(i, 3, 30623); } else
    if i <= 91871 { Last(i, 46749); } else if i <= 91875 { Last(i, 46747); } else
    if i <= 91879 { Last(i, 46745); } else if i <= 91883 { Last(i, 46743); } else
    if i <= 91887 { Last(i, 46741); } else if i <= 91891 { Last(i, 46739); } else
    if i <= 91895 { Last(i, 46737); } else if i <= 91899 { Last(i, 46735); } else
    if i <= 91903 { Last(i, 46733); } else if i <= 91907 { Last(i, 46731); } else
    if i <= 91911 { Last(i, 46729); } else if i <= 91915 { Last(i, 46727); } else
    if i <= 91919 { Last(i, 46725); } else if i <= 91923 { Last(i, 46723); } else
    if i <= 91927 { Last(i, 46721); } else if i <= 91931 { Last(i, 46719); } else
    if i <= 91935 { Last(i, 46717); } else if i <= 91939 { Last(i, 46715); } else
    if i <= 91943 { Last(i, 46713); } else if i <= 91947 { Last(i, 46711); } else { Last(i, 46709); }
  }

  lemma From91953(i: nat)
    requires 91953 <= i <= 92125 && i % 2 == 1
    ensures HasLast(i) || HasDivisorBelow(i, i)
  {
    if i <= 91955 { Last(i, 46707); } else if i <= 91959 { Last(i, 46705); } else
    if i <= 91963 { Last(i, 46703); } else if i <= 91967 { Last(i, 46701); } else
    if i <= 91971 { Last(i, 46699); } else if i <= 91975 { Last(i, 46697); } else
    if i <= 91979 { Last(i, 46695); } else if i <= 91983 { Last(i, 46693); } else
    if i <= 91987 { Last(i, 46691); } else if i <= 91989 { Last(i, 46689); } else
    if i <= 91991 { Factor(i, 67, 1373); } else if i <= 91993 { Last(i, 46687); } else
    if i <= 91997 { Last(i, 46685); } else if i <= 92001 { Last(i, 46683); } else
    if i <= 92005 { Last(i, 46681); } else if i <= 92009 { Last(i, 46679); } else
    if i <= 92013 { Last(i, 46677); } else if i <= 92017 { Last(i, 46675); } else
    if i <= 92021 { Last(i, 46673); } else if i <= 92025 { Last(i, 46671); } else
    if i <= 92029 { Last(i, 46669); } else if i <= 92033 { Last(i, 46667); } else
    if i <= 92037 { Last(i, 46665); } else if i <= 92041 { Last(i, 46663); } else
    if i <= 92045 { Last(i, 46661); } else if i <= 92049 { Last(i, 46659); } else
    if i <= 92053 { Last(i, 46657); } else if i <= 92057 { Last(i, 46655); } else
    if i <= 92061 { Last(i, 46653); } else if i <= 92065 { Last(i, 46651); } else
    if i <= 92069 { Last(i, 46649); } else if i <= 92073 { Last(i, 46647); } else
    if i <= 92077 { Last(i, 46645); } else if i <= 92081 { Last(i, 46643); } else
    if i <= 92085 { Last(i, 46641); } else if i <= 92089 { Last(i, 46639); } else
    if i <= 92093 { Last(i, 46637); } else if i <= 92097 { Last(i, 46635); } else
    if i <= 92101 { Last(i, 46633); } else if i <= 92105 { Last(i, 46631); } else
    if i <= 92109 { Last(i, 46629); } else if i <= 92113 { Last(i, 46627); } else
    if i <= 92117 { Last(i, 46625); } else if i <= 92121 { Last(i, 46623); } else { Last(i, 46621); }
  }

  lemma From92127(i: nat)
    requires 92127 <= i <= 92299 && i % 2 == 1
    ensures HasLast(i) || HasDivisorBelow(i, i)
  {
    if i <= 92129 { Last(i, 46619); } else if i <= 92133 { Last(i, 46617); } else
    if i <= 92137 { Last(i, 46615); } else if i <= 92139 { Last(i, 46613); } else
    if i <= 92141 { Factor(i, 7, 13163); } else if i <= 92143 { Last(i, 46611); } else
    if i <= 92147 { Last(i, 46609); } else if i <= 92151 { Last(i, 46607); } else
    if i <= 92155 { Last(i, 46605); } else if i <= 92159 { Last(i, 46603); } else
    if i <= 92163 { Last(i, 46601); } else if i <= 92167 { Last(i, 46599); } else
    if i <= 92171 { Last(i, 46597); } else if i <= 92175 { Last(i, 46595); } else
    if i <= 92179 { Last(i, 46593); } else if i <= 92183 { Last(i, 46591); } else
    if i <= 92187 { Last(i, 46589); } else if i <= 92191 { Last(i, 46587); } else
    if i <= 92195 { Last(i, 46585); } else if i <= 92199 { Last(i, 46583); } else
    if i <= 92203 { Last(i, 46581); } else if i <= 92207 { Last(i, 46579); } else
    if i <= 92211 { Last(i, 46577); } else if i <= 92215 { Last(i, 46575); } else
    if i <= 92219 { Last(i, 46573); } else if i <= 92223 { Last(i, 46571); } else
    if i <= 92227 { Last(i, 46569); } else if i <= 92231 { Last(i, 46567); } else
    if i <= 92235 { Last(i, 46565); } else if i <= 92239 { Last(i, 46563); } else
    if i <= 92243 { Last(i, 46561); } else if i <= 92247 { Last(i, 46559); } else
    if i <= 92251 { Last(i, 46557); } else if i <= 92255 { Last(i, 46555); } else
    if i <= 92259 { Last(i, 46553); } else if i <= 92263 { Last(i, 46551); } else
    if i <= 92267 { Last(i, 46549); } else if i <= 92271 { Last(i, 46547); } else
    if i <= 92275 { Last(i, 46545); } else if i <= 92279 { Last(i, 46543); } else
    if i <= 92283 { Last(i, 46541); } else if i <= 92287 { Last(i, 46539); } else
    if i <= 92291 { Last(i, 46537); } else if i <= 92295 { Last(i, 46535); } else { Last(i, 46533); }
  }

  lemma From92301(i: nat)
    requires 92301 <= i <= 92469 && i % 2 == 1
    ensures HasLast(i) || HasDivisorBelow(i, i)
  {
    if i <= 92303 { Last(i, 46531); } else if i <= 92307 { Last(i, 46529); } else
    if i <= 92311 { Last(i, 46527); } else if i <= 92315 { Last(i, 46525); } else
    if i <= 92319 { Last(i, 46523); } else if i <= 92323 { Last(i, 46521); } else
    if i <= 92327 { Last(i, 46519); } else if i <= 92331 { Last(i, 46517); } else
    if i <= 92335 { Last(i, 46515); } else if i <= 92339 { Last(i, 46513); } else
    if i <= 92343 { Last(i, 46511); } else if i <= 92347 { Last(i, 46509); } else
    if i <= 92349 { Last(i, 46507); } else if i <= 92351 { Factor(i, 7, 13193); } else
    if i <= 92353 { Last(i, 46505); } else if i <= 92355 { Factor(i, 3, 30785); } else
    if i <= 92357 { Last(i, 46503); } else if i <= 92361 { Last(i, 46501); } else
    if i <= 92365 { Last(i, 46499); } else if i <= 92369 { Last(i, 46497); } else
    if i <= 92373 { Last(i, 46495); } else if i <= 92377 { Last(i, 46493); } else
    if i <= 92381 { Last(i, 46491); } else if i <= 92385 { Last(i, 46489); } else
    if i <= 92389 { Last(i, 46487); } else if i <= 92393 { Last(i, 46485); } else
    if i <= 92397 { Last(i, 46483); } else if i <= 92401 { Last(i, 46481); } else
    if i <= 92405 { Last(i, 46479); } else if i <= 92409 { Last(i, 46477); } else
    if i <= 92413 { Last(i, 46475); } else if i <= 92417 { Last(i, 46473); } else
    if i <= 92421 { Last(i, 46471); } else if i <= 92425 { Last(i, 46469); } else
    if i <= 92429 { Last(i, 46467); } else if i <= 92433 { Last(i, 46465); } else
    if i <= 92437 { Last(i, 46463); } else if i <= 92441 { Last(i, 46461); } else
    if i <= 92445 { Last(i, 46459); } else if i <= 92449 { Last(i, 46457); } else
    if i <= 92453 { Last(i, 46455); } else if i <= 92457 { Last(i, 46453); } else
    if i <= 92461 { Last(i, 46451); } else if i <= 92465 { Last(i, 46449); } else { Last(i, 46447); }
  }

  lemma From92471(i: nat)
    requires 92471 <= i <= 92649 && i % 2 == 1
    ensures HasLast(i) || HasDivisorBelow(i, i)
  {
    if i <= 92473 { Last(i, 46445); } else if i <= 92477 { Last(i, 46443); } else
    if i <= 92481 { Last(i, 46441); } else if i <= 92485 { Last(i, 46439); } else
    if i <= 92489 { Last(i, 46437); } else if i <= 92493 { Last(i, 46435); } else
    if i <= 92497 { Last(i, 46433); } else if i <= 92501 { Last(i, 46431); } else
    if i <= 92505 { Last(i, 46429); } else if i <= 92509 { Last(i, 46427); } else
    if i <= 92513 { Last(i, 46425); } else if i <= 92517 { Last(i, 46423); } else
    if i <= 92521 { Last(i, 46421); } else if i <= 92525 { Last(i, 46419); } else
    if i <= 92529 { Last(i, 46417); } else if i <= 92533 { Last(i, 46415); } else
    if i <= 92537 { Last(i, 46413); } else if i <= 92541 { Last(i, 46411); } else
    if i <= 92545 { Last(i, 46409); } else if i <= 92549 { Last(i, 46407); } else
    if i <= 92553 { Last(i, 46405); } else if i <= 92557 { Last(i, 46403); } else
    if i <= 92561 { Last(i, 46401); } else if i <= 92565 { Last(i, 46399); } else
    if i <= 92569 { Last(i, 46397); } else if i <= 92573 { Last(i, 46395); } else
    if i <= 92577 { Last(i, 46393); } else if i <= 92581 { Last(i, 46391); } else
    if i <= 92585 { Last(i, 46389); } else if i <= 92589 { Last(i, 46387); } else
    if i <= 92593 { Last(i, 46385); } else if i <= 92597 { Last(i, 46383); } else
    if i <= 92601 { Last(i, 46381); } else if i <= 92605 { Last(i, 46379); } else
    if i <= 92609 { Last(i, 46377); } else if i <= 92613 { Last(i, 46375); } else
    if i <= 92617 { Last(i, 46373); } else if i <= 92621 { Last(i, 46371); } else
    if i <= 92625 { Last(i, 46369); } else if i <= 92629 { Last(i, 46367); } else
    if i <= 92633 { Last(i, 46365); } else if i <= 92637 { Last(i, 46363); } else
    if i <= 92641 { Last(i, 46361); } else if i <= 92645 { Last(i, 46359); } else { Last(i, 46357); }
  }

  lemma From92651(i: nat)
    requires 92651 <= i <= 92681 && i % 2 == 1
    ensures HasLast(i) || HasDivisorBelow(i, i)
  {
    if i <= 92653 { Last(i, 46355); } else if i <= 92657 { Last(i, 46353); } else
    if i <= 92661 { Last(i, 46351); } else if i <= 92665 { Last(i, 46349); } else
    if i <= 92669 { Last(i, 46347); } else if i <= 92673 { Last(i, 46345); } else
    if i <= 92677 { Last(i, 46343); } else { Last(i, 46341); }
  }

  lemma LastOrFactor(i: nat)
    requires 91257 <= i <= 92681 && i % 2 == 1
    ensures HasLast(i) || HasDivisorBelow(i, i)
  {
    hide *;
    if i <= 91429 {
      From91257(i);
    } else if i <= 91605 {
      From91431(i);
    } else if i <= 91777 {
      From91607(i);
    } else if i <= 91951 {
      From91779(i);
    } else if i <= 92125 {
      From91953(i);
    } else if i <= 92299 {
      From92127(i);
    } else if i <= 92469 {
      From92301(i);
    } else if i <= 92649 {
      From92471(i);
    } else {
      From92651(i);
    }
  }
}

/** What the text of a # use means: read as a string literal of section 6.4.5 of ISO C, by a reader that
    knows nothing of how it was made. */
module MacroLiterals {
  import opened Characters
  import opened MacroUses
  import opened Wrappers

  // ---------------------------------------------------------------------------------------
  // Reading a string literal, behind its opening quote

  /** What follows the first quote that no backslash precedes; a backslash takes the next character
      with it. */
  function Closing(s: string): Option<string>
  {
    if s == "" then None
    else if s[0] == '"' then Some(s[1..])
    else if s[0] == '\\' then (if |s| == 1 then None else Closing(s[2..]))
    else Closing(s[1..])
  }

  predicate IsOctal(c: char) { '0' <= c <= '7' }

  function OctalValue(c: char): nat
    requires IsOctal(c)
  {
    c as int - '0' as int
  }

  /** The characters up to that quote: three octal digits behind a backslash are a character, any other
      character behind one stands for itself. */
  function Value(s: string): string
  {
    if s == "" || s[0] == '"' then ""
    else if s[0] != '\\' then [s[0]] + Value(s[1..])
    else if |s| >= 4 && IsOctal(s[1]) && IsOctal(s[2]) && IsOctal(s[3]) then
      [(64 * OctalValue(s[1]) + 8 * OctalValue(s[2]) + OctalValue(s[3])) as char] + Value(s[4..])
    else if |s| == 1 then ""
    else [s[1]] + Value(s[2..])
  }

  // ---------------------------------------------------------------------------------------
  // Backslashes outside literals

  /** Length of the rest of a literal, with the quote that ends it. */
  function LiteralRest(t: string, q: char): (n: nat)
    ensures n <= |t|
  {
    if t == "" then 0
    else if t[0] == '\\' then (if |t| == 1 then 1 else 2 + LiteralRest(t[2..], q))
    else if t[0] == q then 1
    else 1 + LiteralRest(t[1..], q)
  }

  /** Outside string literals and character constants, a backslash stands right before a double quote
      or at the end. */
  predicate Stray(t: string)
    decreases |t|
  {
    if t == "" then false
    else if t[0] == '\\' then |t| == 1 || t[1] == '"' || Stray(t[2..])
    else if t[0] == '"' || t[0] == '\'' then Stray(t[1..][LiteralRest(t[1..], t[0])..])
    else Stray(t[1..])
  }

  /** There is a backslash outside string literals and character constants. */
  predicate Bare(t: string)
    decreases |t|
  {
    if t == "" then false
    else if t[0] == '\\' then true
    else if t[0] == '"' || t[0] == '\'' then Bare(t[1..][LiteralRest(t[1..], t[0])..])
    else Bare(t[1..])
  }

  /** The text behind the literal that is open. */
  function Behind(t: string, open: Option<char>): (s: string)
    ensures |s| <= |t|
  {
    if open == None then t else t[LiteralRest(t, open.value)..]
  }

  // ---------------------------------------------------------------------------------------
  // One character

  lemma OctalDigitValue(n: nat)
    ensures IsOctal(OctalDigit(n)) && OctalValue(OctalDigit(n)) == n % 8
  {
  }

  lemma Eights(n: nat)
    requires n < 256
    ensures 64 * ((n / 64) % 8) + 8 * ((n / 8) % 8) + n % 8 == n
  {
  }

  /** A backslash and three octal digits. */
  lemma OctalForm(c: char) returns (x: char, y: char, z: char)
    ensures Octal(c) == ['\\', x, y, z] && IsOctal(x) && IsOctal(y) && IsOctal(z)
    ensures c as int < 256 ==> (64 * OctalValue(x) + 8 * OctalValue(y) + OctalValue(z)) as char == c
  {
    var n := c as int % 256;
    x, y, z := OctalDigit(n / 64), OctalDigit(n / 8), OctalDigit(n);
    OctalDigitValue(n / 64);
    OctalDigitValue(n / 8);
    OctalDigitValue(n);
    hide OctalDigit, IsOctal, OctalValue;
    Eights(n);
  }

  lemma PlainCloses(c: char, s: string)
    requires c != '\\' && c != '"'
    ensures Closing([c] + s) == Closing(s)
    ensures Value([c] + s) == [c] + Value(s)
  {
    assert ([c] + s)[1..] == s;
  }

  lemma PairCloses(c: char, s: string)
    ensures Closing(['\\', c] + s) == Closing(s)
    ensures !IsOctal(c) ==> Value(['\\', c] + s) == [c] + Value(s)
  {
    var text := ['\\', c] + s;
    assert text[2..] == s && text[1] == c;
  }

  lemma OctalCloses(x: char, y: char, z: char, s: string)
    requires IsOctal(x) && IsOctal(y) && IsOctal(z)
    ensures Closing(['\\', x, y, z] + s) == Closing(s)
    ensures Value(['\\', x, y, z] + s)
         == [(64 * OctalValue(x) + 8 * OctalValue(y) + OctalValue(z)) as char] + Value(s)
  {
    var text := ['\\', x, y, z] + s;
    assert text == ['\\', x] + ([y] + ([z] + s));
    PairCloses(x, [y] + ([z] + s));
    PlainCloses(y, [z] + s);
    PlainCloses(z, s);
    assert text[4..] == s;
  }

  /** A character that is shown as it is, or behind a backslash. */
  lemma ShownCloses(c: char, quoted: bool, s: string)
    requires quoted || c != '\\'
    ensures Closing(Shown(c, quoted) + s) == Closing(s)
    ensures c as int < 256 ==> Value(Shown(c, quoted) + s) == [c] + Value(s)
  {
    hide Closing, Value, Octal;
    var u := Shown(c, quoted);
    if !IsPrint(c) {
      var x, y, z := OctalForm(c);
      assert u == Octal(c);
      OctalCloses(x, y, z, s);
    } else if c == '"' || c == '\\' {
      assert u == ['\\', c];
      PairCloses(c, s);
    } else {
      assert u == [c];
      PlainCloses(c, s);
    }
  }

  /** A backslash outside literals takes the next character with it, unless that is a quote, which is
      written with a backslash of its own. */
  lemma BareCloses(d: char, s: string)
    ensures Closing(['\\'] + (Shown(d, false) + s)) == if d == '"' then Some(s) else Closing(s)
  {
    hide Closing, Octal;
    var u := Shown(d, false);
    var text := ['\\'] + (u + s);
    if !IsPrint(d) {
      var x, y, z := OctalForm(d);
      assert text == ['\\', '\\'] + ([x] + ([y] + ([z] + s)));
      PairCloses('\\', [x] + ([y] + ([z] + s)));
      PlainCloses(x, [y] + ([z] + s));
      PlainCloses(y, [z] + s);
      PlainCloses(z, s);
    } else if d == '"' {
      assert text == ['\\', '\\'] + (['"'] + s);
      PairCloses('\\', ['"'] + s);
      QuoteCloses(s);
    } else {
      assert text == ['\\', d] + s;
      PairCloses(d, s);
    }
  }

  lemma QuoteCloses(s: string)
    ensures Closing(['"'] + s) == Some(s) && Value(['"'] + s) == ""
  {
    assert (['"'] + s)[1..] == s;
  }

  // ---------------------------------------------------------------------------------------
  // The whole text

  lemma EscapedNext(t: string, r: Reading, end: string)
    requires t != ""
    ensures Escaped(t, r) + end == Shown(t[0], Next(r, t[0]).open.Some?) + (Escaped(t[1..], Next(r, t[0])) + end)
  {
    Associative(Shown(t[0], Next(r, t[0]).open.Some?), Escaped(t[1..], Next(r, t[0])), end);
  }

  predicate OpenIsQuote(open: Option<char>) { open.Some? ==> open.value == '"' || open.value == '\'' }

  /** One character that is not a backslash. */
  lemma BehindNext(t: string, open: Option<char>)
    requires t != "" && t[0] != '\\' && OpenIsQuote(open)
    ensures var next := Next(Reading(false, open), t[0]);
            && !next.escaped && OpenIsQuote(next.open)
            && (Stray(Behind(t, open)) <==> Stray(Behind(t[1..], next.open)))
            && (Bare(Behind(t, open)) <==> Bare(Behind(t[1..], next.open)))
  {
    if open.Some? {
      var n := LiteralRest(t[1..], open.value);
      if t[0] == open.value {
        assert Behind(t, open) == t[1..];
      } else {
        assert t[1 + n..] == t[1..][n..];
      }
    }
  }

  /** A backslash in a literal, and the character behind it. */
  lemma BehindPair(t: string, open: Option<char>)
    requires |t| >= 2 && t[0] == '\\' && OpenIsQuote(open)
    ensures Next(Next(Reading(false, open), t[0]), t[1]) == Reading(false, open)
    ensures open.Some? ==> Behind(t, open) == Behind(t[2..], open)
    ensures open == None ==> (Stray(Behind(t, open)) <==> t[1] == '"' || Stray(Behind(t[2..], open)))
  {
    if open.Some? {
      var n := LiteralRest(t[2..], open.value);
      assert t[2 + n..] == t[2..][n..];
    }
  }

  const QUOTE := "\""

  /** What is written for the text is closed by the quote behind it, and by no quote before. */
  lemma {:induction false} ClosesThere(t: string, open: Option<char>)
    requires OpenIsQuote(open)
    ensures Closing(Escaped(t, Reading(false, open)) + QUOTE) == Some("") <==> !Stray(Behind(t, open))
    decreases |t|
  {
    hide Closing, Shown, Stray, Bare, Behind, Escaped;
    var r := Reading(false, open);
    if t == "" {
      NothingLeft(open);
    } else if t[0] != '\\' {
      EscapedNext(t, r, QUOTE);
      BehindNext(t, open);
      var next := Next(r, t[0]);
      ShownCloses(t[0], next.open.Some?, Escaped(t[1..], next) + QUOTE);
      ClosesThere(t[1..], next.open);
    } else if |t| == 1 {
      LastBackslash(t, open);
    } else {
      BehindPair(t, open);
      ClosesThere(t[2..], open);
      if open.Some? { PairInLiteral(t, open); } else { PairOutside(t); }
    }
  }

  lemma PairWritten(t: string, open: Option<char>)
    requires |t| >= 2 && t[0] == '\\' && OpenIsQuote(open)
    ensures Escaped(t, Reading(false, open)) + QUOTE
         == Shown('\\', open.Some?) + (Shown(t[1], open.Some?) + (Escaped(t[2..], Reading(false, open)) + QUOTE))
  {
    hide Shown, Escaped;
    var r := Reading(false, open);
    BehindPair(t, open);
    EscapedNext(t, r, QUOTE);
    EscapedNext(t[1..], Reading(true, open), QUOTE);
    assert t[1..][1..] == t[2..];
  }

  lemma PairInLiteral(t: string, open: Option<char>)
    requires |t| >= 2 && t[0] == '\\' && OpenIsQuote(open) && open.Some?
    ensures var text, rest := Escaped(t, Reading(false, open)) + QUOTE, Escaped(t[2..], Reading(false, open)) + QUOTE;
            && Closing(text) == Closing(rest)
            && (t[1] as int < 256 ==> Value(text) == t[..2] + Value(rest))
  {
    hide Shown, Escaped, Closing, Value;
    var rest := Escaped(t[2..], Reading(false, open)) + QUOTE;
    PairWritten(t, open);
    ShownCloses('\\', true, Shown(t[1], true) + rest);
    ShownCloses(t[1], true, rest);
    assert t[..2] + Value(rest) == [t[0]] + ([t[1]] + Value(rest));
  }

  lemma PairOutside(t: string)
    requires |t| >= 2 && t[0] == '\\'
    ensures var rest := Escaped(t[2..], OUTSIDE) + QUOTE;
            && rest != ""
            && Closing(Escaped(t, OUTSIDE) + QUOTE) == if t[1] == '"' then Some(rest) else Closing(rest)
  {
    hide Escaped, Closing;
    var rest := Escaped(t[2..], OUTSIDE) + QUOTE;
    PairWritten(t, None);
    assert Shown('\\', false) == ['\\'];
    BareCloses(t[1], rest);
  }

  lemma LastBackslash(t: string, open: Option<char>)
    requires t == "\\" && OpenIsQuote(open)
    ensures Closing(Escaped(t, Reading(false, open)) + QUOTE) == Some("") <==> !Stray(Behind(t, open))
    ensures open.Some? ==> Value(Escaped(t, Reading(false, open)) + QUOTE) == t
  {
    hide Closing, Value;
    EscapedNext(t, Reading(false, open), QUOTE);
    assert Escaped("", Reading(true, open)) + QUOTE == QUOTE == ['"'] + "";
    QuoteCloses("");
    if open.Some? {
      assert Behind(t, open) == "";
      ShownCloses('\\', true, QUOTE);
    } else {
      assert Shown('\\', false) == ['\\'] && ['\\'] + QUOTE == ['\\', '"'] + "";
      PairCloses('"', "");
      NoneClosed();
      assert Behind(t, open) == t && Stray(t);
    }
  }

  lemma NoneClosed()
    ensures Closing("") == None
  {
  }

  /** The value of what is written is the text, if its backslashes stand in literals. */
  lemma {:induction false} ValueIsText(t: string, open: Option<char>)
    requires OpenIsQuote(open) && !Bare(Behind(t, open)) && forall i :: 0 <= i < |t| ==> t[i] as int < 256
    ensures Value(Escaped(t, Reading(false, open)) + QUOTE) == t
    decreases |t|
  {
    hide Value, Shown, Stray, Escaped;
    var r := Reading(false, open);
    if t == "" {
      NothingLeft(open);
    } else if t[0] != '\\' {
      EscapedNext(t, r, QUOTE);
      BehindNext(t, open);
      var next := Next(r, t[0]);
      ShownCloses(t[0], next.open.Some?, Escaped(t[1..], next) + QUOTE);
      ValueIsText(t[1..], next.open);
    } else if |t| == 1 {
      LastBackslash(t, open);
    } else {
      BehindPair(t, open);
      ValueIsText(t[2..], open);
      PairInLiteral(t, open);
    }
  }

  // ---------------------------------------------------------------------------------------
  // The literal of an argument

  /** The spelling of the argument: what the literal is to say. */
  function Spelling(raw: string): string { Spelled(Core(raw), 0, OUTSIDE) }

  lemma Opened(raw: string)
    ensures Stringified(raw) != "" && Stringified(raw)[0] == '"'
    ensures Stringified(raw)[1..] == Escaped(Spelling(raw), OUTSIDE) + QUOTE
  {
    hide Escaped, Spelled;
    var e := Escaped(Spelling(raw), OUTSIDE);
    assert Stringified(raw) == "\"" + (e + QUOTE);
  }

  /** A # use is one string literal if and only if no backslash outside the literals of the argument
      stands right before a double quote or at its end. */
  lemma IsOneLiteralIff(raw: string)
    ensures Stringified(raw) != "" && Stringified(raw)[0] == '"'
    ensures Closing(Stringified(raw)[1..]) == Some("") <==> !Stray(Spelling(raw))
  {
    hide Escaped, Spelled, Closing, Stray;
    Opened(raw);
    ClosesThere(Spelling(raw), None);
  }

  /** The value of the literal is the spelling of the argument, if its backslashes stand in literals. */
  lemma ReadsBack(raw: string)
    requires !Bare(Spelling(raw)) && forall i :: 0 <= i < |Spelling(raw)| ==> Spelling(raw)[i] as int < 256
    ensures Closing(Stringified(raw)[1..]) == Some("") && Value(Stringified(raw)[1..]) == Spelling(raw)
  {
    hide Escaped, Spelled, Closing, Stray, Bare, Value;
    IsOneLiteralIff(raw);
    if Stray(Spelling(raw)) { StrayIsBare(Spelling(raw)); }
    Opened(raw);
    ValueIsText(Spelling(raw), None);
  }

  lemma {:induction false} StrayIsBare(t: string)
    requires Stray(t)
    ensures Bare(t)
    decreases |t|
  {
    if t[0] == '\\' {
    } else if t[0] == '"' || t[0] == '\'' {
      StrayIsBare(t[1..][LiteralRest(t[1..], t[0])..]);
    } else {
      StrayIsBare(t[1..]);
    }
  }

  lemma NothingLeft(open: Option<char>)
    ensures Closing(Escaped("", Reading(false, open)) + QUOTE) == Some("")
    ensures !Stray(Behind("", open)) && !Bare(Behind("", open))
    ensures Value(Escaped("", Reading(false, open)) + QUOTE) == ""
  {
    assert Escaped("", Reading(false, open)) + QUOTE == ['"'] + "";
    QuoteCloses("");
  }

  // ---------------------------------------------------------------------------------------
  // The spelling of an argument

  /** What an argument consists of: a character outside literals, one with a backslash before it, a
      literal, a run of white space and newline-space markers, and another marker. */
  datatype Piece = Char(c: char) | Pair(c: char) | Literal(q: char, body: string) | Run(s: string) | Mark(c: char)

  /** The rest of a literal has no newline, and no quote that ends it before its end. */
  predicate InLiteral(body: string, q: char)
  {
    if body == "" then true
    else if body[0] == '\\' then |body| >= 2 && body[1] != '\n' && InLiteral(body[2..], q)
    else body[0] != q && body[0] != '\n' && InLiteral(body[1..], q)
  }

  predicate RunRest(s: string)
  {
    if s == "" then true
    else if s[0] == '\n' then |s| >= 2 && IsSpace(s[1]) && RunRest(s[2..])
    else IsSpace(s[0]) && RunRest(s[1..])
  }

  predicate GoodPiece(p: Piece)
  {
    match p
    case Char(c) => !IsSpace(c) && c != '"' && c != '\'' && c != '\\'
    case Pair(c) => !IsSpace(c)
    case Literal(q, body) => (q == '"' || q == '\'') && InLiteral(body, q)
    case Run(s) => s != "" && IsSpace(s[0]) && (s[0] == '\n' ==> |s| >= 2 && s[1] == '\n') && RunRest(s)
    case Mark(c) => c != '\n'
  }

  /** What goes on with white space. */
  predicate GoesOn(p: Piece)
  {
    p.Run? || (p.Mark? && IsSpace(p.c))
  }

  /** Pieces up to the end of the argument; no white space ends it. */
  predicate GoodPieces(pieces: seq<Piece>)
  {
    pieces != [] ==>
      && GoodPiece(pieces[0]) && GoodPieces(pieces[1..])
      && (pieces[0].Run? ==> |pieces| >= 2 && !GoesOn(pieces[1]))
      && (GoesOn(pieces[0]) ==> |pieces| >= 2)
  }

  function Text(p: Piece): (s: string)
    ensures GoodPiece(p) ==> s != ""
  {
    match p
    case Char(c) => [c]
    case Pair(c) => ['\\', c]
    case Literal(q, body) => [q] + body + [q]
    case Run(s) => s
    case Mark(c) => ['\n', c]
  }

  /** A run is a space, and a marker is nothing. */
  function Says(p: Piece): string
  {
    if p.Run? then " " else if p.Mark? then "" else Text(p)
  }

  function Texts(pieces: seq<Piece>): string
  {
    if pieces == [] then "" else Text(pieces[0]) + Texts(pieces[1..])
  }

  function Said(pieces: seq<Piece>): string
  {
    if pieces == [] then "" else Says(pieces[0]) + Said(pieces[1..])
  }

  /** A character that is neither a marker nor white space outside literals. */
  lemma SpelledNext(core: string, i: nat, r: Reading)
    requires i < |core| && Ended(core) && core[i] != '\n' && (r.open.Some? || !IsSpace(core[i]))
    ensures Spelled(core, i, r) == [core[i]] + Spelled(core, i + 1, Next(r, core[i]))
  {
    hide BlankEnd;
  }

  lemma FrontFirst(s: string, rest: string)
    ensures |s| >= 1 ==> [s[0]] + (s[1..] + rest) == s + rest
    ensures |s| >= 2 ==> [s[0]] + ([s[1]] + (s[2..] + rest)) == s + rest
    ensures s == "" ==> s + rest == rest
  {
  }

  /** The text stands in core at position i. */
  predicate Stands(core: string, i: nat, s: string)
  {
    i + |s| <= |core| && forall k :: 0 <= k < |s| ==> core[i + k] == s[k]
  }

  lemma StandsBehind(core: string, i: nat, s: string, n: nat)
    requires Stands(core, i, s) && n <= |s|
    ensures Stands(core, i + n, s[n..])
  {
  }

  lemma {:induction false} LiteralSpelled(core: string, i: nat, body: string, q: char)
    requires Stands(core, i, body) && i + |body| < |core| && core[i + |body|] == q && Ended(core)
    requires (q == '"' || q == '\'') && InLiteral(body, q)
    ensures Spelled(core, i, Reading(false, Some(q))) == body + ([q] + Spelled(core, i + |body| + 1, OUTSIDE))
    decreases |body|
  {
    hide Spelled, IsSpace;
    var rest := [q] + Spelled(core, i + |body| + 1, OUTSIDE);
    FrontFirst(body, rest);
    SpelledNext(core, i, Reading(false, Some(q)));
    if body != "" {
      if body[0] == '\\' {
        StandsBehind(core, i, body, 2);
        SpelledNext(core, i + 1, Reading(true, Some(q)));
        LiteralSpelled(core, i + 2, body[2..], q);
      } else {
        StandsBehind(core, i, body, 1);
        LiteralSpelled(core, i + 1, body[1..], q);
      }
    }
  }

  lemma {:induction false} RunIsPassed(core: string, i: nat, s: string)
    requires i + |s| < |core| && Stands(core, i, s) && Ended(core) && RunRest(s)
    requires !IsSpace(core[i + |s|]) || (core[i + |s|] == '\n' && !IsSpace(core[i + |s| + 1]))
    ensures BlankEnd(core, i) == i + |s|
    decreases |s|
  {
    if s != "" {
      assert core[i + 0] == s[0];
      if s[0] == '\n' {
        assert core[i + 1] == s[1];
        StandsBehind(core, i, s, 2);
        RunIsPassed(core, i + 2, s[2..]);
      } else {
        StandsBehind(core, i, s, 1);
        RunIsPassed(core, i + 1, s[1..]);
      }
    }
  }

  /** How the text of the pieces begins. */
  lemma TextsBegin(pieces: seq<Piece>)
    requires GoodPieces(pieces) && pieces != []
    ensures Text(pieces[0]) <= Texts(pieces)
    ensures !GoesOn(pieces[0]) ==>
              var t := Texts(pieces);
              !IsSpace(t[0]) || (|t| >= 2 && t[0] == '\n' && !IsSpace(t[1]))
  {
  }

  lemma {:induction false} TextsEnd(pieces: seq<Piece>)
    requires GoodPieces(pieces)
    ensures Ended(Texts(pieces))
  {
    if pieces != [] {
      TextsEnd(pieces[1..]);
      var t, rest := Text(pieces[0]), Texts(pieces[1..]);
      if |pieces| > 1 {
        TextsBegin(pieces[1..]);
        assert (t + rest)[|t + rest| - 1] == rest[|rest| - 1];
      } else {
        assert t + rest == t;
      }
    }
  }

  lemma StandsAndRest(core: string, i: nat, t: string, rest: string)
    requires i <= |core| && core[i..] == t + rest
    ensures Stands(core, i, t) && core[i + |t|..] == rest
  {
    assert core[i..][|t|..] == core[i + |t|..];
    forall k | 0 <= k < |t| ensures core[i + k] == t[k] {
      assert core[i..][k] == (t + rest)[k];
    }
  }

  lemma CharSpelled(core: string, i: nat)
    requires i < |core| && Ended(core) && GoodPiece(Char(core[i]))
    ensures Spelled(core, i, OUTSIDE) == [core[i]] + Spelled(core, i + 1, OUTSIDE)
  {
    hide BlankEnd;
  }

  lemma MarkSpelled(core: string, i: nat)
    requires i + 1 < |core| && Ended(core) && core[i] == '\n' && core[i + 1] != '\n'
    ensures Spelled(core, i, OUTSIDE) == Spelled(core, i + 2, OUTSIDE)
  {
    hide BlankEnd;
  }

  lemma WholeLiteralSpelled(core: string, i: nat, q: char, body: string)
    requires Stands(core, i, [q] + body + [q]) && i + |body| + 2 <= |core| && Ended(core)
    requires (q == '"' || q == '\'') && InLiteral(body, q)
    ensures Spelled(core, i, OUTSIDE) == ([q] + body + [q]) + Spelled(core, i + |body| + 2, OUTSIDE)
  {
    hide Spelled, IsSpace, InLiteral;
    var t, rest := [q] + body + [q], Spelled(core, i + |body| + 2, OUTSIDE);
    LiteralStands(core, i, q, body);
    hide Stands;
    assert !IsSpace(q) by { NoSpace(q); }
    SpelledNext(core, i, OUTSIDE);
    LiteralSpelled(core, i + 1, body, q);
    FrontFirst([q], body + ([q] + rest));
    FourParts(q, body, rest);
  }

  lemma NoSpace(q: char)
    requires q == '"' || q == '\'' || q == '\\'
    ensures !IsSpace(q)
  {
  }

  lemma LiteralStands(core: string, i: nat, q: char, body: string)
    requires Stands(core, i, [q] + body + [q])
    ensures i + |body| + 2 <= |core| && core[i] == q && core[i + |body| + 1] == q && Stands(core, i + 1, body)
  {
    var t := [q] + body + [q];
    assert core[i + 0] == t[0] && core[i + (|body| + 1)] == t[|body| + 1];
    forall k | 0 <= k < |body| ensures core[i + 1 + k] == body[k] {
      assert core[i + (1 + k)] == t[1 + k];
    }
  }

  lemma FourParts(q: char, body: string, rest: string)
    ensures [q] + (body + ([q] + rest)) == ([q] + body + [q]) + rest
  {
  }

  lemma RunSpelled(core: string, i: nat, s: string)
    requires i + |s| < |core| && Ended(core) && GoodPiece(Run(s)) && Stands(core, i, s)
    requires !IsSpace(core[i + |s|]) || (core[i + |s|] == '\n' && !IsSpace(core[i + |s| + 1]))
    ensures Spelled(core, i, OUTSIDE) == " " + Spelled(core, i + |s|, OUTSIDE)
  {
    RunIsPassed(core, i, s);
    hide BlankEnd, RunRest;
    assert core[i + 0] == s[0];
    if s[0] == '\n' { assert core[i + 1] == s[1]; }
    assert Next(OUTSIDE, ' ') == OUTSIDE;
  }

  /** White space goes on at position j, or a newline-space marker stands there. */
  predicate GoesOnAt(core: string, j: nat)
    requires Ended(core)
  {
    j < |core| && IsSpace(core[j]) && (core[j] == '\n' ==> IsSpace(core[j + 1]))
  }

  /** A piece contributes what it says. */
  lemma PieceSpelled(core: string, i: nat, p: Piece, j: nat)
    requires Ended(core) && GoodPiece(p) && Stands(core, i, Text(p)) && j == i + |Text(p)|
    requires p.Run? ==> j < |core| && !GoesOnAt(core, j)
    ensures Spelled(core, i, OUTSIDE) == Says(p) + Spelled(core, j, OUTSIDE)
  {
    hide Spelled, RunRest, InLiteral, IsSpace;
    var t, rest := Text(p), Spelled(core, j, OUTSIDE);
    assert core[i + 0] == t[0];
    if |t| >= 2 { assert core[i + 1] == t[1]; }
    FrontFirst(t, rest);
    match p
    case Char(c) => CharSpelled(core, i);
    case Pair(c) =>
      PairSpelled(core, i);
      assert t[2..] == "";
      FrontFirst("", rest);
    case Literal(q, body) => WholeLiteralSpelled(core, i, q, body);
    case Run(s) => RunSpelled(core, i, s);
    case Mark(c) =>
      MarkSpelled(core, i);
      FrontFirst("", rest);
  }

  lemma PairSpelled(core: string, i: nat)
    requires i + 1 < |core| && Ended(core) && core[i] == '\\' && !IsSpace(core[i + 1])
    ensures Spelled(core, i, OUTSIDE) == [core[i]] + ([core[i + 1]] + Spelled(core, i + 2, OUTSIDE))
  {
    NoSpace('\\');
    assert IsSpace('\n');
    hide Spelled, IsSpace;
    SpelledNext(core, i, OUTSIDE);
    SpelledNext(core, i + 1, Reading(true, None));
  }

  lemma NothingSpelled(core: string)
    requires Ended(core)
    ensures Spelled(core, |core|, OUTSIDE) == ""
  {
  }

  lemma DoesNotGoOn(core: string, j: nat, pieces: seq<Piece>)
    requires j <= |core| && Ended(core) && core[j..] == Texts(pieces)
    requires GoodPieces(pieces) && pieces != [] && !GoesOn(pieces[0])
    ensures j < |core| && !GoesOnAt(core, j)
  {
    TextsBegin(pieces);
    assert core[j] == core[j..][0];
    if |core| > j + 1 { assert core[j + 1] == core[j..][1]; }
  }

  lemma {:induction false} PiecesSpelled(core: string, i: nat, pieces: seq<Piece>)
    requires i <= |core| && Ended(core) && GoodPieces(pieces) && core[i..] == Texts(pieces)
    ensures Spelled(core, i, OUTSIDE) == Said(pieces)
    decreases |pieces|
  {
    hide Says, Text, Spelled, GoodPiece, GoesOnAt;
    if pieces == [] {
      NothingSpelled(core);
    } else {
      var t, rest := Text(pieces[0]), Texts(pieces[1..]);
      var j := i + |t|;
      StandsAndRest(core, i, t, rest);
      if pieces[0].Run? { DoesNotGoOn(core, j, pieces[1..]); }
      PieceSpelled(core, i, pieces[0], j);
      PiecesSpelled(core, j, pieces[1..]);
    }
  }

  predicate AllSpace(s: string) { forall k :: 0 <= k < |s| ==> IsSpace(s[k]) }

  lemma Around(a: string, core: string, b: string)
    ensures var raw := a + core + b;
            && |raw| == |a| + |core| + |b| && raw[|a|..|a| + |core|] == core
            && (forall k :: 0 <= k < |a| ==> raw[k] == a[k])
            && (forall k :: |a| <= k < |a| + |core| ==> raw[k] == core[k - |a|])
            && (forall k :: |a| + |core| <= k < |raw| ==> raw[k] == b[k - |a| - |core|])
  {
  }

  /** White space around the argument is not part of it. */
  lemma CoreOf(a: string, core: string, b: string)
    requires AllSpace(a) && AllSpace(b) && Ended(core) && (core != "" ==> !IsSpace(core[0]))
    ensures Core(a + core + b) == core
  {
    hide IsSpace, LeadingSpace, TrimmedLength;
    var raw := a + core + b;
    Around(a, core, b);
    if core == "" {
      assert forall k :: 0 <= k < |raw| ==> IsSpace(raw[k]);
    } else {
      assert !IsSpace(raw[|a|]) && !IsSpace(raw[|a| + |core| - 1]);
      assert LeadingSpace(raw) == |a| && TrimmedLength(raw) == |a| + |core|;
    }
  }

  /** The spelling of an argument with white space around it, piece by piece. */
  lemma SpellingIsSaid(a: string, pieces: seq<Piece>, b: string)
    requires AllSpace(a) && AllSpace(b) && GoodPieces(pieces)
    requires pieces != [] ==> !pieces[0].Run? && !pieces[0].Mark?
    ensures Spelling(a + Texts(pieces) + b) == Said(pieces)
  {
    hide Spelled, Core, GoodPieces;
    var core := Texts(pieces);
    TextsEnd(pieces);
    if pieces != [] { FirstIsNoSpace(pieces); }
    CoreOf(a, core, b);
    assert core[0..] == core;
    PiecesSpelled(core, 0, pieces);
  }

  lemma FirstIsNoSpace(pieces: seq<Piece>)
    requires GoodPieces(pieces) && pieces != [] && !pieces[0].Run? && !pieces[0].Mark?
    ensures Texts(pieces) != "" && !IsSpace(Texts(pieces)[0])
  {
  }

  lemma {:induction false} RestOfLiteral(body: string, q: char, s: string)
    requires (q == '"' || q == '\'') && InLiteral(body, q)
    ensures LiteralRest(body + ([q] + s), q) == |body| + 1
  {
    var t := body + ([q] + s);
    if body != "" {
      if body[0] == '\\' {
        assert t[2..] == body[2..] + ([q] + s);
        RestOfLiteral(body[2..], q, s);
      } else {
        assert t[1..] == body[1..] + ([q] + s);
        RestOfLiteral(body[1..], q, s);
      }
    }
  }

  lemma BareInFront(c: char, rest: string)
    requires c != '\\' && c != '"' && c != '\''
    ensures Bare([c] + rest) <==> Bare(rest)
  {
    assert ([c] + rest)[1..] == rest;
  }

  lemma BareLiteral(q: char, body: string, rest: string)
    requires (q == '"' || q == '\'') && InLiteral(body, q)
    ensures Bare([q] + body + [q] + rest) <==> Bare(rest)
  {
    hide InLiteral;
    var t := [q] + body + [q] + rest;
    RestOfLiteral(body, q, rest);
    assert t[1..] == body + ([q] + rest);
    assert t[1..][|body| + 1..] == rest;
  }

  lemma BareBehind(p: Piece, rest: string)
    requires GoodPiece(p) && !p.Pair?
    ensures Bare(Says(p) + rest) <==> Bare(rest)
  {
    hide RunRest, InLiteral, Bare, IsSpace;
    match p
    case Char(c) => BareInFront(c, rest);
    case Literal(q, body) => BareLiteral(q, body, rest);
    case Run(_) => BareInFront(' ', rest);
    case Mark(_) => assert "" + rest == rest;
  }

  /** Backslashes outside literals are those of Pair. */
  lemma {:induction false} NotBare(pieces: seq<Piece>)
    requires GoodPieces(pieces) && forall k :: 0 <= k < |pieces| ==> !pieces[k].Pair?
    ensures !Bare(Said(pieces))
  {
    hide Says, GoodPiece;
    if pieces == [] {
      NothingBare();
    } else {
      hide Bare;
      NotBare(pieces[1..]);
      BareBehind(pieces[0], Said(pieces[1..]));
    }
  }

  lemma NothingBare()
    ensures !Bare("")
  {
  }

  /** A # use of an argument without backslashes outside its literals is a string literal that says the
      argument: literals as they are, a space for each run of white space, and nothing for markers. */
  lemma UseSaysArgument(a: string, pieces: seq<Piece>, b: string)
    requires AllSpace(a) && AllSpace(b) && GoodPieces(pieces)
    requires pieces != [] ==> !pieces[0].Run? && !pieces[0].Mark?
    requires forall k :: 0 <= k < |pieces| ==> !pieces[k].Pair?
    requires forall k :: 0 <= k < |Said(pieces)| ==> Said(pieces)[k] as int < 256
    ensures var text := Stringified(a + Texts(pieces) + b);
            text != "" && text[0] == '"' && Closing(text[1..]) == Some("") && Value(text[1..]) == Said(pieces)
  {
    hide Stringified, Closing, Value, Spelling, GoodPieces;
    SpellingIsSaid(a, pieces, b);
    NotBare(pieces);
    IsOneLiteralIff(a + Texts(pieces) + b);
    ReadsBack(a + Texts(pieces) + b);
  }

  /** The argument is a backslash and a double quote: the literal ends one character too early. */
  lemma LiteralEndsEarly()
    ensures Closing(Stringified("\\\"")[1..]) == Some("\"")
  {
    hide Spelled, Escaped, Closing, Core;
    var raw := "\\\"";
    assert "" + Texts([Pair('"')]) + "" == raw && Said([Pair('"')]) == raw;
    SpellingIsSaid("", [Pair('"')], "");
    Opened(raw);
    EscapedNext(raw, OUTSIDE, QUOTE);
    EscapedNext(raw[1..], Reading(true, None), QUOTE);
    NothingWritten(OUTSIDE);
    BareCloses('"', QUOTE);
    assert raw[1..][1..] == "" && Shown('\\', false) == ['\\'];
  }

  lemma NothingWritten(r: Reading)
    ensures Escaped("", r) + QUOTE == QUOTE
  {
  }

  /** The argument is a single backslash: the literal does not end at all. */
  lemma LiteralDoesNotEnd()
    ensures Closing(Stringified("\\")[1..]) == None
  {
    hide Escaped, Closing, Core;
    var raw := "\\";
    assert "" + raw + "" == raw;
    CoreOf("", raw, "");
    assert Spelled(raw, 1, Next(OUTSIDE, '\\')) == "";
    assert Spelling(raw) == raw by { hide BlankEnd; }
    Opened(raw);
    EscapedNext(raw, OUTSIDE, QUOTE);
    NothingWritten(Reading(true, None));
    assert raw[1..] == "" && Shown('\\', false) == ['\\'];
    assert ['\\'] + QUOTE == ['\\', '"'] + "";
    PairCloses('"', "");
    NoneClosed();
  }
}

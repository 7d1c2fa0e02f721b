/** What a macro body stands for, told by the places of its tokens: sections 6.10.3 and 6.10.3.1 of
    ISO/IEC 9899:1999. */
module MacroText {
  import opened MacroEngine

  /** How many tokens a token of a body stands for. */
  function Width(b: BodyToken, expanded: map<nat, seq<Token>>): nat
  {
    match b
    case Plain(_) => 1
    case Param(i) => if i in expanded then |expanded[i]| else 0
  }

  function Widths(body: seq<BodyToken>, expanded: map<nat, seq<Token>>): nat
  {
    if body == [] then 0 else Width(body[0], expanded) + Widths(body[1..], expanded)
  }

  /** At position p the text has the token itself, or the expansion of the argument. */
  predicate StandsAt(text: seq<Token>, p: nat, b: BodyToken, expanded: map<nat, seq<Token>>)
  {
    && p + Width(b, expanded) <= |text|
    && match b
       case Plain(t) => text[p] == t
       case Param(i) => i in expanded ==> text[p..p + |expanded[i]|] == expanded[i]
  }

  /** The text is the body, token after token in its order, with the arguments in place. */
  ghost predicate Stands(text: seq<Token>, body: seq<BodyToken>, expanded: map<nat, seq<Token>>)
  {
    && |text| == Widths(body, expanded)
    && forall k :: 0 <= k < |body| ==> StandsAt(text, Widths(body[..k], expanded), body[k], expanded)
  }

  lemma WidthsOfFront(body: seq<BodyToken>, expanded: map<nat, seq<Token>>, k: nat)
    requires 0 < k <= |body|
    ensures Widths(body[..k], expanded) == Width(body[0], expanded) + Widths(body[1..][..k - 1], expanded)
  {
    assert body[..k][1..] == body[1..][..k - 1];
  }

  lemma Later(first: seq<Token>, rest: seq<Token>, p: nat, b: BodyToken, expanded: map<nat, seq<Token>>)
    ensures StandsAt(first + rest, |first| + p, b, expanded) <==> StandsAt(rest, p, b, expanded)
  {
    var text, n := first + rest, |first| + p;
    if p + Width(b, expanded) <= |rest| {
      assert text[n..n + Width(b, expanded)] == rest[p..p + Width(b, expanded)];
    }
  }

  lemma FrontStands(first: seq<Token>, rest: seq<Token>, body: seq<BodyToken>, expanded: map<nat, seq<Token>>)
    requires body != [] && |first| == Width(body[0], expanded) && StandsAt(first, 0, body[0], expanded)
    requires Stands(rest, body[1..], expanded)
    ensures Stands(first + rest, body, expanded)
  {
    hide StandsAt;
    forall k | 0 <= k < |body| ensures StandsAt(first + rest, Widths(body[..k], expanded), body[k], expanded) {
      if k > 0 {
        WidthsOfFront(body, expanded, k);
        assert body[1..][k - 1] == body[k];
        Later(first, rest, Widths(body[1..][..k - 1], expanded), body[k], expanded);
      } else {
        StandsInFront(first, rest, body[0], expanded);
      }
    }
  }

  lemma StandsInFront(first: seq<Token>, rest: seq<Token>, b: BodyToken, expanded: map<nat, seq<Token>>)
    requires StandsAt(first, 0, b, expanded)
    ensures StandsAt(first + rest, 0, b, expanded)
  {
    var n := Width(b, expanded);
    assert (first + rest)[..n] == first[..n];
  }

  /** The tokens of a body come out in their order, and a parameter contributes exactly the expansion
      of its argument. */
  lemma {:induction false} SubstituteStands(body: seq<BodyToken>, expanded: map<nat, seq<Token>>)
    ensures Stands(Substitute(body, expanded), body, expanded)
  {
    hide Stands;
    if body == [] {
      assert Stands([], [], expanded) by { NothingStands(expanded); }
    } else {
      var first := match body[0]
        case Plain(t) => [t]
        case Param(i) => if i in expanded then expanded[i] else [];
      SubstituteStands(body[1..], expanded);
      assert body[0].Param? && body[0].i in expanded ==> first[0..|first|] == first;
      FrontStands(first, Substitute(body[1..], expanded), body, expanded);
    }
  }

  lemma NothingStands(expanded: map<nat, seq<Token>>)
    ensures Stands([], [], expanded)
  {
  }

  /** There is one such text. */
  lemma {:induction false} StandsForOne(text: seq<Token>, other: seq<Token>, body: seq<BodyToken>,
                                        expanded: map<nat, seq<Token>>)
    requires Stands(text, body, expanded) && Stands(other, body, expanded)
    ensures text == other
  {
    if body != [] {
      var n := Width(body[0], expanded);
      assert body[..0] == [];
      assert StandsAt(text, 0, body[0], expanded) && StandsAt(other, 0, body[0], expanded);
      assert text[..n] == other[..n];
      RestStands(text, body, expanded);
      RestStands(other, body, expanded);
      StandsForOne(text[n..], other[n..], body[1..], expanded);
      assert text == text[..n] + text[n..] && other == other[..n] + other[n..];
    }
  }

  lemma RestStands(text: seq<Token>, body: seq<BodyToken>, expanded: map<nat, seq<Token>>)
    requires body != [] && Stands(text, body, expanded)
    ensures Stands(text[Width(body[0], expanded)..], body[1..], expanded)
  {
    var n := Width(body[0], expanded);
    assert text == text[..n] + text[n..];
    forall k | 0 <= k < |body| - 1
      ensures StandsAt(text[n..], Widths(body[1..][..k], expanded), body[1..][k], expanded)
    {
      WidthsOfFront(body, expanded, k + 1);
      assert StandsAt(text, Widths(body[..k + 1], expanded), body[k + 1], expanded);
      Later(text[..n], text[n..], Widths(body[1..][..k], expanded), body[k + 1], expanded);
    }
  }

  predicate AllPlain(body: seq<BodyToken>)
  {
    forall k :: 0 <= k < |body| ==> body[k].Plain?
  }

  lemma {:induction false} PlainWidths(body: seq<BodyToken>, expanded: map<nat, seq<Token>>)
    requires AllPlain(body)
    ensures Widths(body, expanded) == |body|
  {
    if body != [] { PlainWidths(body[1..], expanded); }
  }

  /** A body without parameters comes out as its own tokens. */
  lemma PlainStands(text: seq<Token>, body: seq<BodyToken>, expanded: map<nat, seq<Token>>)
    requires AllPlain(body) && Stands(text, body, expanded)
    ensures |text| == |body| && forall k :: 0 <= k < |body| ==> text[k] == body[k].t
  {
    PlainWidths(body, expanded);
    forall k | 0 <= k < |body| ensures text[k] == body[k].t {
      PlainWidths(body[..k], expanded);
      assert StandsAt(text, Widths(body[..k], expanded), body[k], expanded);
    }
  }
}

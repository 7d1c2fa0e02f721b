/** Lines of a text file, read into a buffer of 10000 characters with istream::getline, as
    daemon/main.cc and admin/mkdepend.cc do. */
module LineReader {

  /** Size of the buffer, less the final zero. */
  const LINE_MAX := 9999

  /** An input stream: the text not yet read, and the bits eofbit and failbit. */
  datatype Stream = Stream(text: string, eof: bool, fail: bool)

  /** istream::getline: the end of the text is noticed first, then the newline, then the end of
      the buffer. */
  function GetLine(s: Stream): (r: (string, Stream))
    ensures !r.1.eof && !r.1.fail ==> |r.1.text| < |s.text|
  {
    if s.eof || s.fail then ("", s.(fail := true)) else GetLineFrom(s.text, 0)
  }

  function GetLineFrom(text: string, n: nat): (r: (string, Stream))
    ensures !r.1.eof && !r.1.fail ==> |r.1.text| < |text|
  {
    if text == "" then ("", Stream("", true, n == 0))
    else if text[0] == '\n' then ("", Stream(text[1..], false, false))
    else if n == LINE_MAX then ("", Stream(text, false, true))
    else
      var (line, rest) := GetLineFrom(text[1..], n + 1);
      ([text[0]] + line, rest)
  }

  method ReadLine(s: Stream) returns (line: string, t: Stream)
    ensures (line, t) == GetLine(s)
  {
    line := "";
    if s.eof || s.fail { return "", s.(fail := true); }
    var p := 0;
    FrontNothing(GetLineFrom(s.text, 0));
    while p < |s.text| && s.text[p] != '\n' && p < LINE_MAX
      invariant p <= |s.text| && p <= LINE_MAX && |line| == p
      invariant GetLineFrom(s.text, 0) == InFront(line, GetLineFrom(s.text[p..], p))
    {
      NextChar(line, s.text, p);
      line := line + [s.text[p]];
      p := p + 1;
    }
    assert line + "" == line;
    if p == |s.text| {
      t := Stream("", true, p == 0);
    } else if s.text[p] == '\n' {
      assert s.text[p..][1..] == s.text[p + 1..];
      t := Stream(s.text[p + 1..], false, false);
    } else {
      t := Stream(s.text[p..], false, true);
    }
  }

  function InFront(line: string, r: (string, Stream)): (string, Stream) { (line + r.0, r.1) }

  lemma FrontNothing(r: (string, Stream))
    ensures InFront("", r) == r
  {
    assert "" + r.0 == r.0;
  }

  lemma NextChar(line: string, text: string, p: nat)
    requires p < |text| && text[p] != '\n' && p < LINE_MAX
    ensures InFront(line, GetLineFrom(text[p..], p)) == InFront(line + [text[p]], GetLineFrom(text[p + 1..], p + 1))
  {
    assert text[p..][1..] == text[p + 1..];
    var r := GetLineFrom(text[p + 1..], p + 1);
    assert line + ([text[p]] + r.0) == (line + [text[p]]) + r.0;
  }

  /** A whole line. */
  lemma {:induction false} GetLineOf(line: string, rest: string, n: nat)
    requires '\n' !in line && n + |line| <= LINE_MAX
    ensures GetLineFrom(line + "\n" + rest, n) == (line, Stream(rest, false, false))
  {
    var text := line + "\n" + rest;
    if line == "" {
      assert text[1..] == rest;
    } else {
      assert text[1..] == line[1..] + "\n" + rest;
      GetLineOf(line[1..], rest, n + 1);
      assert [line[0]] + line[1..] == line;
    }
  }

  lemma NotInFront(x: char, c: char, line: string)
    requires x != c && x !in line
    ensures x !in [c] + line
  {
  }

  lemma {:induction false} NoNewlineInLine(text: string, n: nat)
    ensures '\n' !in GetLineFrom(text, n).0
  {
    if text != "" && text[0] != '\n' && n != LINE_MAX {
      NoNewlineInLine(text[1..], n + 1);
      NotInFront('\n', text[0], GetLineFrom(text[1..], n + 1).0);
    }
  }
}

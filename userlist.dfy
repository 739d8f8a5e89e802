/** The plain-text list of selected authors: the graph script writes one name per
    line, and the sentiment script reads it back with `[line.strip() for line in f]`.
    Reading follows Python's text-mode iteration with universal newlines: a line
    ends at `\n`, `\r` or `\r\n`, and the terminator is delivered as `\n`. */
module UserList {
  import opened Seqs

  /** The characters for which `str.isspace()` holds. */
  predicate IsSpace(c: char) {
    || c == ' ' || c == '\t' || c == '\n' || c == '\r'
    || c == '\U{B}' || c == '\U{C}'
    || ('\U{1C}' <= c <= '\U{1F}')
    || c == '\U{85}' || c == '\U{A0}' || c == '\U{1680}'
    || ('\U{2000}' <= c <= '\U{200A}')
    || c == '\U{2028}' || c == '\U{2029}' || c == '\U{202F}' || c == '\U{205F}' || c == '\U{3000}'
  }

  predicate IsBreak(c: char) {
    c == '\n' || c == '\r'
  }

  /** `f.write(f"{user}\n")` for every user, in order. */
  function WriteUserList(users: seq<string>): (text: string)
    ensures text == [] <==> users == []
    ensures users != [] ==> text[|text| - 1] == '\n'
    decreases |users|
  {
    if users == [] then ""
    else users[0] + "\n" + WriteUserList(users[1..])
  }

  /** The length of the first line without its terminator. */
  function ContentLength(s: string): (k: nat)
    ensures k <= |s|
    ensures forall i :: 0 <= i < k ==> !IsBreak(s[i])
    ensures k < |s| ==> IsBreak(s[k])
    decreases |s|
  {
    if s == [] || IsBreak(s[0]) then 0 else 1 + ContentLength(s[1..])
  }

  /** The length of the terminator at position `k`: two for `\r\n`. */
  function TerminatorLength(s: string, k: nat): (t: nat)
    requires k <= |s|
    ensures k + t <= |s|
    ensures t == 0 <==> k == |s|
  {
    if k == |s| then 0
    else if s[k] == '\r' && k + 1 < |s| && s[k + 1] == '\n' then 2
    else 1
  }

  /** The lines `for line in f` yields, each with its terminator translated to `\n`;
      a last line without terminator is yielded as it is. */
  function Lines(s: string): (lines: seq<string>)
    ensures lines == [] <==> s == []
    ensures forall k :: 0 <= k < |lines| ==> lines[k] != [] && BreakOnlyAtEnd(lines[k])
    ensures forall k :: 0 <= k < |lines| - 1 ==> lines[k][|lines[k]| - 1] == '\n'
    decreases |s|
  {
    if s == [] then []
    else
      var k := ContentLength(s);
      var t := TerminatorLength(s, k);
      [s[..k] + (if t > 0 then "\n" else "")] + Lines(s[k + t..])
  }

  /** No line break except possibly as the last character. */
  predicate BreakOnlyAtEnd(line: string) {
    forall i :: 0 <= i < |line| - 1 ==> !IsBreak(line[i])
  }

  /** `s` without its trailing whitespace. */
  function RStrip(s: string): (r: string)
    ensures |r| <= |s| && r == s[..|r|]
    ensures forall i :: |r| <= i < |s| ==> IsSpace(s[i])
    ensures r != [] ==> !IsSpace(r[|r| - 1])
    decreases |s|
  {
    if s != [] && IsSpace(s[|s| - 1]) then RStrip(s[..|s| - 1]) else s
  }

  /** `s` without its leading whitespace. */
  function LStrip(s: string): (r: string)
    ensures |r| <= |s| && r == s[|s| - |r|..]
    ensures forall i :: 0 <= i < |s| - |r| ==> IsSpace(s[i])
    ensures r != [] ==> !IsSpace(r[0])
    decreases |s|
  {
    if s != [] && IsSpace(s[0]) then LStrip(s[1..]) else s
  }

  /** `str.strip()` with no argument. */
  function Strip(s: string): (r: string)
    ensures |r| <= |s|
    ensures r != [] ==> !IsSpace(r[0]) && !IsSpace(r[|r| - 1])
    ensures exists i, j :: 0 <= i <= j <= |s| && r == s[i..j] && Blank(s[..i]) && Blank(s[j..])
  {
    StripIsSlice(s);
    LStrip(RStrip(s))
  }

  predicate Blank(t: string) {
    forall k :: 0 <= k < |t| ==> IsSpace(t[k])
  }

  /** What `strip()` removes is whitespace at the two ends, nothing else. */
  lemma StripIsSlice(s: string)
    ensures var m := RStrip(s); var r := LStrip(m);
      && 0 <= |m| - |r| <= |m| <= |s| && r == s[|m| - |r|..|m|]
      && Blank(s[..|m| - |r|]) && Blank(s[|m|..])
  {
    var m := RStrip(s);
    var r := LStrip(m);
    var i := |m| - |r|;
    assert r == s[i..|m|] by {
      assert m == s[..|m|] && r == m[i..];
    }
    forall k | 0 <= k < i
      ensures IsSpace(s[..i][k])
    {
      assert s[..i][k] == m[k];
    }
    forall k | 0 <= k < |s| - |m|
      ensures IsSpace(s[|m|..][k])
    {
      assert s[|m|..][k] == s[|m| + k];
    }
  }

  /** Stripping a line that may end in `\n` leaves a clean name. */
  lemma StripLineIsClean(line: string)
    requires BreakOnlyAtEnd(line)
    ensures Clean(Strip(line))
  {
    var r := RStrip(line);
    forall i | 0 <= i < |r|
      ensures !IsBreak(r[i])
    {
      assert r[i] == line[i];
      if i == |line| - 1 {
        assert i == |r| - 1;
      }
    }
    var l := LStrip(r);
    forall i | 0 <= i < |l|
      ensures !IsBreak(l[i])
    {
      assert l[i] == r[|r| - |l| + i];
    }
  }

  lemma StripLinesAreClean(lines: seq<string>)
    requires forall k :: 0 <= k < |lines| ==> BreakOnlyAtEnd(lines[k])
    ensures forall k :: 0 <= k < |lines| ==> Clean(Strip(lines[k]))
  {
    forall k | 0 <= k < |lines|
      ensures Clean(Strip(lines[k]))
    {
      StripLineIsClean(lines[k]);
    }
  }

  /** `[line.strip() for line in f]`: one name per line, none with a line break
      inside or whitespace at either end. */
  function ReadUserList(text: string): (users: seq<string>)
    ensures |users| == |Lines(text)|
    ensures forall k :: 0 <= k < |users| ==> Clean(users[k])
  {
    var lines := Lines(text);
    StripLinesAreClean(lines);
    Map(lines, Strip)
  }

  /** Reading, writing and reading again gives what the first read gave. */
  lemma RereadIsStable(text: string)
    ensures ReadUserList(WriteUserList(ReadUserList(text))) == ReadUserList(text)
  {
    var users := ReadUserList(text);
    assert forall u :: u in users ==> Clean(u);
    RoundTrip(users);
  }

  /** A name that survives the round trip: no line break inside and no
      whitespace at either end. */
  predicate Clean(name: string) {
    && (forall i :: 0 <= i < |name| ==> !IsBreak(name[i]))
    && (name != [] ==> !IsSpace(name[0]) && !IsSpace(name[|name| - 1]))
  }

  lemma {:induction false} ContentOfWrittenLine(name: string, rest: string)
    requires forall i :: 0 <= i < |name| ==> !IsBreak(name[i])
    ensures ContentLength(name + "\n" + rest) == |name|
    decreases |name|
  {
    if name != [] {
      assert (name + "\n" + rest)[1..] == name[1..] + "\n" + rest;
      ContentOfWrittenLine(name[1..], rest);
    }
  }

  lemma StripWrittenLine(name: string)
    requires Clean(name)
    ensures Strip(name + "\n") == name
  {
    var line := name + "\n";
    assert line[..|line| - 1] == name;
    assert RStrip(line) == RStrip(name);
  }

  /** Writing the list and reading it back gives the same names in the same
      order, hence the same dense index for every author. */
  lemma {:induction false} RoundTrip(users: seq<string>)
    requires forall u :: u in users ==> Clean(u)
    ensures ReadUserList(WriteUserList(users)) == users
    decreases |users|
  {
    if users != [] {
      var name, rest := users[0], WriteUserList(users[1..]);
      assert users[0] in users && Clean(name);
      ReadWrittenLine(name, rest);
      StripWrittenLine(name);
      RoundTrip(users[1..]);
      assert users == [name] + users[1..];
    }
  }

  /** Reading a written line gives its stripped name, then the rest. */
  lemma ReadWrittenLine(name: string, rest: string)
    requires forall i :: 0 <= i < |name| ==> !IsBreak(name[i])
    ensures ReadUserList(name + "\n" + rest) == [Strip(name + "\n")] + ReadUserList(rest)
  {
    LinesOfWrittenLine(name, rest);
    ReadFirstLine(name + "\n" + rest, name + "\n", rest);
  }

  lemma ReadFirstLine(text: string, line: string, rest: string)
    requires Lines(text) == [line] + Lines(rest)
    ensures ReadUserList(text) == [Strip(line)] + ReadUserList(rest)
  {
    MapCons(line, Lines(rest), Strip);
  }

  /** The first line read back is the first name written, with its newline. */
  lemma LinesOfWrittenLine(name: string, rest: string)
    requires forall i :: 0 <= i < |name| ==> !IsBreak(name[i])
    ensures Lines(name + "\n" + rest) == [name + "\n"] + Lines(rest)
  {
    var text := name + "\n" + rest;
    ContentOfWrittenLine(name, rest);
    assert text[..|name|] == name;
    assert TerminatorLength(text, |name|) == 1;
    assert text[|name| + 1..] == rest;
  }

  /** Whitespace around a name is lost on the way back, so the precondition of
      the round trip cannot be dropped. */
  lemma PaddedNameIsTrimmed(u: string)
    requires forall i :: 0 <= i < |u| ==> !IsBreak(u[i])
    requires u != [] && IsSpace(u[0])
    ensures ReadUserList(WriteUserList([u])) == [Strip(u)] && Strip(u) != u
  {
    assert WriteUserList([u]) == u + "\n" + "";
    ReadWrittenLine(u, "");
    assert ReadUserList("") == [];
    StripNewline(u);
    StripShortens(u);
  }

  lemma StripNewline(u: string)
    ensures Strip(u + "\n") == Strip(u)
  {
    var line := u + "\n";
    assert line[..|line| - 1] == u;
    assert RStrip(line) == RStrip(u);
  }

  lemma StripShortens(u: string)
    requires u != [] && IsSpace(u[0])
    ensures Strip(u) != u
  {
    var r := RStrip(u);
    if |r| == |u| {
      assert r == u;
      assert LStrip(r) != r;
    }
  }
}

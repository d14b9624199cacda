/** Python 2 string operations the playlist grammar and the stream readers rely on. */
module Text {
  import opened Wrappers

  /** Characters `str.lstrip()` removes: space, \t, \n, \r, \v, \f. */
  predicate IsSpace(c: char) {
    c == ' ' || c == '\t' || c == '\n' || c == '\r' || c == '\U{0B}' || c == '\U{0C}'
  }

  /** `s.lstrip()` */
  function LStrip(s: string): (r: string)
    ensures |r| <= |s| && r == s[|s| - |r|..]
    ensures r != [] ==> !IsSpace(r[0])
    ensures forall i :: 0 <= i < |s| - |r| ==> IsSpace(s[i])
  {
    if s != [] && IsSpace(s[0]) then LStrip(s[1..]) else s
  }

  predicate IsPrefix(p: string, s: string) {
    |p| <= |s| && s[..|p|] == p
  }

  /** `line[:-1]`: drops the last character, whatever it is. */
  function DropLast(s: string): (r: string)
    ensures s != [] ==> s == r + [s[|s| - 1]]
    ensures s == [] ==> r == []
  {
    if s == [] then [] else s[..|s| - 1]
  }

  /** Index of the first `c` in `s`, or `|s|` when there is none. */
  function Find(s: string, c: char): (i: nat)
    ensures i <= |s|
    ensures i < |s| ==> s[i] == c
    ensures forall j :: 0 <= j < i ==> s[j] != c
  {
    if s == [] then 0 else if s[0] == c then 0 else 1 + Find(s[1..], c)
  }

  /** `s.split('\t', 2)`: the text split on its first two tabs only. */
  function SplitTab2(s: string): (parts: seq<string>)
    ensures 1 <= |parts| <= 3
    ensures |parts| == 1 <==> '\t' !in s
    ensures |parts| == 1 ==> parts[0] == s
    ensures |parts| >= 2 ==> '\t' !in parts[0] && '\t' !in parts[1]
    ensures |parts| == 2 ==> s == parts[0] + "\t" + parts[1]
    ensures |parts| == 3 ==> s == parts[0] + "\t" + parts[1] + "\t" + parts[2]
  {
    var i := Find(s, '\t');
    if i == |s| then
      FindNone(s, '\t');
      [s]
    else
      var rest := s[i + 1..];
      var j := Find(rest, '\t');
      CutAt(s, i, '\t');
      if j == |rest| then
        FindNone(rest, '\t');
        [s[..i], rest]
      else
        CutAt(rest, j, '\t');
        Regroup3(s[..i], rest[..j], rest[j + 1..]);
        [s[..i], rest[..j], rest[j + 1..]]
  }

  lemma Regroup3(a: string, b: string, c: string)
    ensures a + ['\t'] + (b + ['\t'] + c) == a + "\t" + b + "\t" + c
  {
  }

  lemma FindNone(s: string, c: char)
    requires Find(s, c) == |s|
    ensures c !in s
  {
  }

  /** Text cut at the first `c`: what comes before holds no `c`. */
  lemma CutAt(s: string, i: nat, c: char)
    requires i < |s| && Find(s, c) == i
    ensures s == s[..i] + [c] + s[i + 1..] && c !in s[..i]
  {
  }

  /** The lines `for line in f` yields: each ends in its newline, except a
      last line the text does not end with one. */
  function Lines(text: string): (ls: seq<string>)
    decreases |text|
  {
    if text == [] then []
    else
      var i := Find(text, '\n');
      if i == |text| then [text] else [text[..i + 1]] + Lines(text[i + 1..])
  }

  lemma FindAfterPrefix(a: string, c: char, b: string)
    requires c !in a
    ensures Find(a + [c] + b, c) == |a|
  {
    var s := a + [c] + b;
    assert forall j :: 0 <= j < |a| ==> s[j] == a[j];
    assert s[|a|] == c;
  }

  /** A line holding one newline, at its end, is the first line of any text that follows it. */
  lemma {:induction false} LinesCons(line: string, rest: string)
    requires line != [] && line[|line| - 1] == '\n' && '\n' !in line[..|line| - 1]
    ensures Lines(line + rest) == [line] + Lines(rest)
  {
    var body := line[..|line| - 1];
    assert line == body + ['\n'];
    assert line + rest == body + ['\n'] + rest;
    FindAfterPrefix(body, '\n', rest);
    assert (line + rest)[|body| + 1..] == rest;
    assert (line + rest)[..|body| + 1] == line;
  }

  /** A character missing from a text is missing from each of its suffixes. */
  lemma NotInSuffix(s: string, t: string, c: char)
    requires c !in s + t
    ensures c !in t
  {
    assert forall j :: 0 <= j < |t| ==> t[j] == (s + t)[|s| + j];
  }

  /** Text without a newline is one line. */
  lemma LinesSingle(s: string)
    requires s != [] && '\n' !in s
    ensures Lines(s) == [s]
  {
  }

  /** Splitting text that has no tab in its first two fields gives back those fields. */
  lemma SplitThreeFields(a: string, b: string, c: string)
    requires '\t' !in a && '\t' !in b
    ensures SplitTab2(a + "\t" + b + "\t" + c) == [a, b, c]
  {
    var s := a + "\t" + b + "\t" + c;
    assert s == a + ['\t'] + (b + "\t" + c);
    FindAfterPrefix(a, '\t', b + "\t" + c);
    var rest := s[|a| + 1..];
    assert rest == b + ['\t'] + c;
    FindAfterPrefix(b, '\t', c);
    assert s[..|a|] == a;
    assert rest[..|b|] == b;
    assert rest[|b| + 1..] == c;
  }

  lemma SplitTwoFields(a: string, b: string)
    requires '\t' !in a && '\t' !in b
    ensures SplitTab2(a + "\t" + b) == [a, b]
  {
    var s := a + "\t" + b;
    assert s == a + ['\t'] + b;
    FindAfterPrefix(a, '\t', b);
    assert s[..|a|] == a;
    assert s[|a| + 1..] == b;
  }

  /** A tab-free first field followed by a tab is the first of at least two parts. */
  lemma SplitFirstField(a: string, b: string)
    requires '\t' !in a
    ensures 2 <= |SplitTab2(a + "\t" + b)| && SplitTab2(a + "\t" + b)[0] == a
  {
    var s := a + "\t" + b;
    assert s == a + ['\t'] + b;
    FindAfterPrefix(a, '\t', b);
    assert s[..|a|] == a;
  }

  /** A text that starts with a character `lstrip` keeps is its own left-trim. */
  lemma LStripKeeps(s: string)
    requires s != [] && !IsSpace(s[0])
    ensures LStrip(s) == s
  {
  }
}

/** `readesc` of awp/readesc.py: a generator over a character stream that
    yields the names UP, DOWN, RIGHT and LEFT for the four arrow-key escape
    sequences and every other character by itself. The stream is a finite
    string; the generator's output is the sequence of strings it yields. */
module ReadEsc {
  import opened Wrappers
  import opened Text

  const ESC: char := '\U{1B}'
  const Up: string := [ESC, '[', 'A']
  const Down: string := [ESC, '[', 'B']
  const Right: string := [ESC, '[', 'C']
  const Left: string := [ESC, '[', 'D']

  /** `ESCAPES.get(s)` */
  function NameOf(s: string): (r: Option<string>)
    ensures r.Some? <==> s in {Up, Down, Right, Left}
  {
    if s == Up then Some("UP")
    else if s == Down then Some("DOWN")
    else if s == Right then Some("RIGHT")
    else if s == Left then Some("LEFT")
    else None
  }

  /** `any(escape.startswith(buf) for escape in ESCAPES)` */
  predicate StartsAnEscape(buf: string) {
    IsPrefix(buf, Up) || IsPrefix(buf, Down) || IsPrefix(buf, Right) || IsPrefix(buf, Left)
  }

  /** The escape prefixes are the empty text, ESC, ESC [ and the four escapes. */
  lemma EscapePrefixes(b: string)
    ensures StartsAnEscape(b) <==> b == [] || b == [ESC] || b == [ESC, '['] || NameOf(b).Some?
  {
    if |b| <= 3 && StartsAnEscape(b) {
      assert Up[..0] == [] && Up[..1] == [ESC] && Up[..2] == [ESC, '['] && Up[..3] == Up;
      assert Down[..1] == [ESC] && Down[..2] == [ESC, '['] && Down[..3] == Down;
      assert Right[..1] == [ESC] && Right[..2] == [ESC, '['] && Right[..3] == Right;
      assert Left[..1] == [ESC] && Left[..2] == [ESC, '['] && Left[..3] == Left;
    }
    if b == [ESC] || b == [ESC, '['] {
      assert Up[..|b|] == b;
    }
    if b == [] {
      assert Up[..0] == b;
    }
  }

  /** What `buf` can hold between two reads: nothing, or the start of an escape. */
  predicate Pendable(buf: string) {
    buf == [] || (StartsAnEscape(buf) && NameOf(buf).None?)
  }

  /** `for c in buf: yield c` */
  function Chars(s: string): (r: seq<string>)
    ensures |r| == |s| && forall i :: 0 <= i < |s| ==> r[i] == [s[i]]
  {
    seq(|s|, i requires 0 <= i < |s| => [s[i]])
  }

  /** The generator's remaining output, with `buf` already buffered and
      `input` still to be read. */
  function Run(buf: string, input: string): seq<string>
    decreases |input|
  {
    if input == [] then []
    else
      var b := buf + [input[0]];
      match NameOf(b)
      case Some(name) => [name] + Run([], input[1..])
      case None =>
        if StartsAnEscape(b) then Run(b, input[1..])
        else Chars(b) + Run([], input[1..])
  }

  /** The buffered escape prefix the generator drops when the input ends. */
  function Dropped(buf: string, input: string): string
    decreases |input|
  {
    if input == [] then buf
    else
      var b := buf + [input[0]];
      if NameOf(b).Some? then Dropped([], input[1..])
      else if StartsAnEscape(b) then Dropped(b, input[1..])
      else Dropped([], input[1..])
  }

  /** The text a yielded string stands for: a name's escape, or the character itself. */
  function EscapeOf(t: string): string {
    if t == "UP" then Up
    else if t == "DOWN" then Down
    else if t == "RIGHT" then Right
    else if t == "LEFT" then Left
    else t
  }

  function Unescape(ts: seq<string>): string {
    if ts == [] then [] else EscapeOf(ts[0]) + Unescape(ts[1..])
  }

  /** `list(readesc(f))` over a stream `f` holding `input`. */
  method ReadEsc(input: string) returns (out: seq<string>)
    ensures out == Run([], input)
    ensures Unescape(out) + Dropped([], input) == input
    ensures Pendable(Dropped([], input))
  {
    out := [];
    var buf: string := [];
    var i := 0;
    assert input[i..] == input;
    while i < |input|
      invariant 0 <= i <= |input|
      invariant Pendable(buf)
      invariant out + Run(buf, input[i..]) == Run([], input)
    {
      RunStep(buf, input, i);
      ghost var rest := input[i + 1..];
      buf := buf + [input[i]];
      i := i + 1;
      var name := NameOf(buf);
      if name.Some? {
        ConcatAssoc(out, [name.value], Run([], rest));
        out := out + [name.value];
        buf := [];
      } else if !StartsAnEscape(buf) {
        ConcatAssoc(out, Chars(buf), Run([], rest));
        out := YieldChars(out, buf);
        buf := [];
      }
    }
    assert input[i..] == [];
    assert out + [] == out;
    Reassembles([], input);
  }

  /** `for c in buf: yield c` appended to what was yielded before. */
  method YieldChars(before: seq<string>, buf: string) returns (out: seq<string>)
    ensures out == before + Chars(buf)
  {
    out := before;
    for j := 0 to |buf|
      invariant out == before + Chars(buf[..j])
    {
      assert Chars(buf[..j + 1]) == Chars(buf[..j]) + [[buf[j]]];
      out := out + [[buf[j]]];
    }
    assert buf[..|buf|] == buf;
  }

  /** One read of the generator's loop, at position `i` of the input. */
  lemma RunStep(buf: string, input: string, i: nat)
    requires i < |input|
    ensures var b := buf + [input[i]];
      Run(buf, input[i..]) ==
        if NameOf(b).Some? then [NameOf(b).value] + Run([], input[i + 1..])
        else if StartsAnEscape(b) then Run(b, input[i + 1..])
        else Chars(b) + Run([], input[i + 1..])
  {
    assert input[i..][0] == input[i] && input[i..][1..] == input[i + 1..];
  }

  lemma ConcatAssoc<T>(a: seq<T>, b: seq<T>, c: seq<T>)
    ensures (a + b) + c == a + (b + c)
  {
  }

  lemma UnescapeAppend(a: seq<string>, b: seq<string>)
    ensures Unescape(a + b) == Unescape(a) + Unescape(b)
  {
    if a != [] {
      assert (a + b)[0] == a[0];
      assert (a + b)[1..] == a[1..] + b;
      UnescapeAppend(a[1..], b);
      calc {
        Unescape(a + b);
        EscapeOf(a[0]) + Unescape(a[1..] + b);
        EscapeOf(a[0]) + (Unescape(a[1..]) + Unescape(b));
        (EscapeOf(a[0]) + Unescape(a[1..])) + Unescape(b);
        Unescape(a) + Unescape(b);
      }
    } else {
      assert a + b == b;
    }
  }

  /** A character yielded by itself stands for itself. */
  lemma {:induction false} UnescapeChars(s: string)
    ensures Unescape(Chars(s)) == s
  {
    if s != [] {
      assert Chars(s)[1..] == Chars(s[1..]);
      UnescapeChars(s[1..]);
    }
  }

  /** Replacing each yielded name by its escape and joining everything gives
      back the input, less the escape prefix still buffered when it ends;
      that prefix is always empty or the start of an escape. */
  lemma {:induction false} Reassembles(buf: string, input: string)
    requires Pendable(buf)
    ensures Unescape(Run(buf, input)) + Dropped(buf, input) == buf + input
    ensures Pendable(Dropped(buf, input))
    decreases |input|
  {
    if input != [] {
      var b := buf + [input[0]];
      assert b + input[1..] == buf + input;
      Reassembles([], input[1..]);
      if NameOf(b).Some? {
        ReassemblesAfterFlush(b, [NameOf(b).value], Run([], input[1..]), Dropped([], input[1..]), input[1..]);
      } else if StartsAnEscape(b) {
        Reassembles(b, input[1..]);
      } else {
        UnescapeChars(b);
        ReassemblesAfterFlush(b, Chars(b), Run([], input[1..]), Dropped([], input[1..]), input[1..]);
      }
    }
  }

  /** One step that yields `out`, standing for the whole buffer `x`, and
      empties it: the rest of the output stands for the rest of the input. */
  lemma ReassemblesAfterFlush(x: string, out: seq<string>, rest: seq<string>, d: string, tail: string)
    requires Unescape(out) == x
    requires Unescape(rest) + d == tail
    ensures Unescape(out + rest) + d == x + tail
  {
    UnescapeAppend(out, rest);
    Regroup(x, Unescape(rest), d, tail);
  }

  lemma Regroup(x: string, u: string, d: string, rest: string)
    requires u + d == rest
    ensures (x + u) + d == x + rest
  {
  }

  /** Each of the four escapes alone is yielded as its name. */
  lemma ArrowKeysAreNamed()
    ensures Run([], Up) == ["UP"] && Run([], Down) == ["DOWN"]
    ensures Run([], Right) == ["RIGHT"] && Run([], Left) == ["LEFT"]
  {
    EscapeIsNamed(Up);
    EscapeIsNamed(Down);
    EscapeIsNamed(Right);
    EscapeIsNamed(Left);
  }

  lemma EscapeIsNamed(e: string)
    requires e in {Up, Down, Right, Left}
    ensures Run([], e) == [NameOf(e).value]
  {
    assert e == [ESC, '[', e[2]];
    assert e[1..] == ['[', e[2]] && e[1..][1..] == [e[2]];
    assert [] + [e[0]] == [ESC];
    assert IsPrefix([ESC], e);
    assert [ESC] + [e[1]] == [ESC, '['];
    assert IsPrefix([ESC, '['], e);
    assert NameOf([ESC]).None? && NameOf([ESC, '[']).None?;
    assert Run([ESC, '['], [e[2]]) == [NameOf(e).value];
    assert Run([ESC], e[1..]) == [NameOf(e).value];
  }

  /** A character that cannot start an escape is yielded at once, by itself. */
  lemma {:induction false} PlainCharYieldedAlone(c: char, rest: string)
    requires c != ESC
    ensures Run([], [c] + rest) == [[c]] + Run([], rest)
  {
    assert ([c] + rest)[1..] == rest;
    assert [] + [([c] + rest)[0]] == [c];
    EscapePrefixes([c]);
  }

  /** A failed escape prefix is yielded character by character and is not
      rescanned: ESC ESC [ A gives four single characters, no UP. */
  lemma FailedPrefixNotRescanned(rest: string)
    ensures Run([], [ESC, ESC, '[', 'A'] + rest) == [[ESC], [ESC], "[", "A"] + Run([], rest)
  {
    var r := Run([], rest);
    var a := ['A'] + rest;
    var tail := ['['] + a;
    assert Run([], a) == [['A']] + r by {
      PlainCharYieldedAlone('A', rest);
    }
    assert Run([], tail) == [['[']] + ([['A']] + r) by {
      PlainCharYieldedAlone('[', a);
    }
    assert Run([], [ESC, ESC] + tail) == [[ESC], [ESC]] + ([['[']] + ([['A']] + r)) by {
      EscapeThenOther(ESC, tail);
    }
    assert [ESC, ESC, '[', 'A'] + rest == [ESC, ESC] + tail;
    assert [[ESC], [ESC]] + ([['[']] + ([['A']] + r)) == [[ESC], [ESC], "[", "A"] + r;
  }

  /** ESC followed by anything but `[` is yielded as two single characters. */
  lemma EscapeThenOther(c: char, rest: string)
    requires c != '['
    ensures Run([], [ESC, c] + rest) == [[ESC], [c]] + Run([], rest)
  {
    var s := [ESC, c] + rest;
    assert s[0] == ESC && s[1..] == [c] + rest;
    assert [] + [ESC] == [ESC];
    EscapePrefixes([ESC]);
    assert Run([], s) == Run([ESC], [c] + rest);
    assert ([c] + rest)[0] == c && ([c] + rest)[1..] == rest;
    assert [ESC] + [c] == [ESC, c];
    EscapePrefixes([ESC, c]);
    assert Chars([ESC, c]) == [[ESC], [c]];
  }

  /** An incomplete escape at the end of the input is dropped silently. */
  lemma TrailingPrefixDropped()
    ensures Run([], [ESC, '[']) == [] && Dropped([], [ESC, '[']) == [ESC, '[']
  {
    var s := [ESC, '['];
    EscapePrefixes([ESC]);
    EscapePrefixes([ESC, '[']);
    assert [] + [s[0]] == [ESC] && s[1..] == ['['];
    assert [ESC] + [s[1..][0]] == [ESC, '['] && s[1..][1..] == [];
    assert NameOf([ESC]).None? && NameOf([ESC, '[']).None?;
    assert Run([ESC, '['], []) == [];
    assert Run([ESC], ['[']) == [];
  }
}

/** Byte strings and the few string functions that the record formats use. */
module Bytes {
  import opened Options

  newtype byte = x: int | 0 <= x < 256

  type Text = seq<byte>

  const NEWLINE: byte := 0x0a
  const SPACE: byte := 0x20
  const COMMA: byte := 0x2c
  const SEMICOLON: byte := 0x3b
  const EQUALS: byte := 0x3d
  const BACKSLASH: byte := 0x5c
  const LOWER_X: byte := 0x78

  /** The index of the first c, or the length. */
  function IndexOf(s: Text, c: byte): (i: nat)
    ensures i <= |s| && c !in s[..i] && (i < |s| ==> s[i] == c)
  {
    if s == [] || s[0] == c then 0 else 1 + IndexOf(s[1..], c)
  }

  lemma {:induction false} IndexOfFirst(a: Text, c: byte, b: Text)
    requires c !in a
    ensures IndexOf(a + [c] + b, c) == |a|
  {
    if a != [] {
      assert (a + [c] + b)[1..] == a[1..] + [c] + b;
      IndexOfFirst(a[1..], c, b);
    }
  }

  /** The text before and after the first c, if there is one. */
  function Cut(s: Text, c: byte): Option<(Text, Text)> {
    var i := IndexOf(s, c);
    if i == |s| then None else Some((s[..i], s[i + 1..]))
  }

  lemma CutFirst(a: Text, c: byte, b: Text)
    requires c !in a
    ensures Cut(a + [c] + b, c) == Some((a, b))
  {
    IndexOfFirst(a, c, b);
    assert (a + [c] + b)[..|a|] == a && (a + [c] + b)[|a| + 1..] == b;
  }

  lemma CutNone(s: Text, c: byte)
    ensures Cut(s, c).None? <==> c !in s
  {
    assert s[..|s|] == s;
  }

  /** The pieces between the c's; one more than there are c's. */
  function Split(s: Text, c: byte): (r: seq<Text>)
    ensures |r| >= 1
    decreases |s|
  {
    var cut := Cut(s, c);
    if cut.None? then [s] else [cut.value.0] + Split(cut.value.1, c)
  }

  lemma SplitFirst(a: Text, c: byte, b: Text)
    requires c !in a
    ensures Split(a + [c] + b, c) == [a] + Split(b, c)
  {
    CutFirst(a, c, b);
  }

  function Join(lines: seq<Text>, c: byte): Text
    requires lines != []
  {
    if |lines| == 1 then lines[0] else lines[0] + [c] + Join(lines[1..], c)
  }

  lemma {:induction false} SplitJoin(lines: seq<Text>, c: byte)
    requires lines != [] && forall i :: 0 <= i < |lines| ==> c !in lines[i]
    ensures Split(Join(lines, c), c) == lines
  {
    if |lines| == 1 {
      CutNone(lines[0], c);
    } else {
      SplitFirst(lines[0], c, Join(lines[1..], c));
      SplitJoin(lines[1..], c);
    }
  }

  /** Without any c at the end. */
  function TrimRight(s: Text, c: byte): Text {
    if s != [] && s[|s| - 1] == c then TrimRight(s[..|s| - 1], c) else s
  }

  lemma TrimOne(s: Text, c: byte)
    requires s != [] ==> s[|s| - 1] != c
    ensures TrimRight(s + [c], c) == s
  {
    assert (s + [c])[..|s|] == s;
  }

  function TrimPrefix(s: Text, c: byte): Text {
    if s != [] && s[0] == c then s[1..] else s
  }
}

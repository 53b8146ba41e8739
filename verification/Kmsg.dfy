/** Decoding of /dev/kmsg records (Linux Documentation/ABI/testing/dev-kmsg), against the way the
    kernel prints them. */
module Kmsg {
  import opened Units
  import opened Options
  import opened Sequences
  import opened Bytes

  datatype Record = Record(priority: int, facility: int, sequence: nat, time: Time, message: Text, fields: map<Text, Text>)

  // ---------------------------------------------------------------- numbers

  predicate IsDigit(c: byte) {
    0x30 <= c <= 0x39
  }

  predicate AllDigits(s: Text) {
    forall i :: 0 <= i < |s| ==> IsDigit(s[i])
  }

  function DecimalValue(s: Text): nat
    requires AllDigits(s)
  {
    if s == [] then 0 else 10 * DecimalValue(s[..|s| - 1]) + (s[|s| - 1] - 0x30) as nat
  }

  /** An unsigned 64-bit decimal. */
  function ParseUint(s: Text): Option<nat> {
    if s != [] && AllDigits(s) && DecimalValue(s) < U64 then Some(DecimalValue(s)) else None
  }

  /** A signed 64-bit decimal with an optional sign. */
  function Atoi(s: Text): Option<int> {
    var negative := s != [] && s[0] == 0x2d;
    var digits := if s != [] && (s[0] == 0x2d || s[0] == 0x2b) then s[1..] else s;
    if digits == [] || !AllDigits(digits) then None
    else if negative then
      if DecimalValue(digits) <= I64 then Some(0 - DecimalValue(digits) as int) else None
    else
      if DecimalValue(digits) < I64 then Some(DecimalValue(digits)) else None
  }

  /** A product of 64-bit signed integers wraps around. */
  function Signed64(n: int): int {
    (n + I64) % U64 - I64
  }

  lemma Signed64ExactIff(n: nat)
    ensures Signed64(n) == n <==> n < I64
  {
  }

  predicate IsHex(c: byte) {
    IsDigit(c) || 0x61 <= c <= 0x66 || 0x41 <= c <= 0x46
  }

  function HexValue(c: byte): (v: nat)
    requires IsHex(c)
    ensures v < 16
  {
    if IsDigit(c) then (c - 0x30) as nat else if 0x61 <= c then (c - 0x61) as nat + 10 else (c - 0x41) as nat + 10
  }

  // ---------------------------------------------------------------- escapes

  /** A whole escape starts at i. */
  predicate EscapeAt(s: Text, i: nat)
    requires i < |s|
  {
    s[i] == BACKSLASH && i + 3 < |s| && s[i + 1] == LOWER_X && IsHex(s[i + 2]) && IsHex(s[i + 3])
  }

  function EscapedByte(s: Text, i: nat): byte
    requires i < |s| && EscapeAt(s, i)
  {
    (16 * HexValue(s[i + 2]) + HexValue(s[i + 3])) as byte
  }

  /** The text from i on with its escapes decoded. */
  function UnescapedFrom(s: Text, i: nat): Text
    decreases |s| - i
  {
    if i >= |s| then []
    else if EscapeAt(s, i) then [EscapedByte(s, i)] + UnescapedFrom(s, i + 4)
    else [s[i]] + UnescapedFrom(s, i + 1)
  }

  function Unescaped(s: Text): Text {
    UnescapedFrom(s, 0)
  }

  /** Where the pair of a backslash and an x does not occur, nothing is decoded. */
  ghost predicate HasMark(s: Text) {
    exists i :: 0 <= i < |s| - 1 && s[i] == BACKSLASH && s[i + 1] == LOWER_X
  }

  lemma {:induction false} NothingToUnescape(s: Text, i: nat)
    requires !HasMark(s) && i <= |s|
    ensures UnescapedFrom(s, i) == s[i..]
    decreases |s| - i
  {
    if i < |s| {
      NothingToUnescape(s, i + 1);
    }
  }

  /** Decoding leaves a text alone exactly when no whole escape is in it. */
  lemma {:induction false} UnescapeChangesIff(s: Text, i: nat)
    requires i <= |s|
    ensures |UnescapedFrom(s, i)| <= |s| - i
    ensures UnescapedFrom(s, i) == s[i..] <==> forall j :: i <= j < |s| ==> !EscapeAt(s, j)
    decreases |s| - i
  {
    if i < |s| {
      if EscapeAt(s, i) {
        UnescapeChangesIff(s, i + 4);
      } else {
        UnescapeChangesIff(s, i + 1);
        assert s[i..] == [s[i]] + s[i + 1..];
      }
    }
  }

  method ContainsMark(s: Text) returns (found: bool)
    ensures found <==> HasMark(s)
  {
    var i := 0;
    while i + 1 < |s|
      invariant 0 <= i <= |s|
      invariant forall j :: 0 <= j < i && j < |s| - 1 ==> !(s[j] == BACKSLASH && s[j + 1] == LOWER_X)
    {
      if s[i] == BACKSLASH && s[i + 1] == LOWER_X {
        return true;
      }
      i := i + 1;
    }
    return false;
  }

  /** Walks an index over the text and appends to a buffer. */
  method Unescape(s: Text) returns (b: Text)
    ensures b == Unescaped(s)
  {
    var found := ContainsMark(s);
    if !found {
      NothingToUnescape(s, 0);
      return s;
    }
    b := [];
    var i := 0;
    while i < |s|
      invariant 0 <= i <= |s|
      invariant b + UnescapedFrom(s, i) == Unescaped(s)
    {
      if s[i] == BACKSLASH && i + 3 < |s| && s[i + 1] == LOWER_X {
        if IsHex(s[i + 2]) && IsHex(s[i + 3]) {
          Associative(b, [EscapedByte(s, i)], UnescapedFrom(s, i + 4));
          b := b + [EscapedByte(s, i)];
          i := i + 4;
          continue;
        }
      }
      Associative(b, [s[i]], UnescapedFrom(s, i + 1));
      b := b + [s[i]];
      i := i + 1;
    }
    assert b + [] == b;
  }

  // ---------------------------------------------------------------- decoding

  /** A continuation line, if it is a pair. */
  function PairOf(line: Text): Option<(Text, Text)> {
    Cut(TrimPrefix(line, SPACE), EQUALS)
  }

  function FieldsOf(lines: seq<Text>): map<Text, Text> {
    if lines == [] then map[]
    else
      var m, p := FieldsOf(lines[..|lines| - 1]), PairOf(lines[|lines| - 1]);
      if p.Some? then m[p.value.0 := p.value.1] else m
  }

  function BodyLines(rest: Text): (r: seq<Text>)
    ensures |r| >= 1
  {
    Split(TrimRight(rest, NEWLINE), NEWLINE)
  }

  /** Priority, sequence number and microseconds. */
  function Header(head: Text): Option<(int, nat, nat)> {
    var parts := Split(head, COMMA);
    if |parts| < 3 then None
    else
      var prio, sequence, usec := Atoi(parts[0]), ParseUint(parts[1]), ParseUint(parts[2]);
      if prio.None? || sequence.None? || usec.None? then None else Some((prio.value, sequence.value, usec.value))
  }

  function RecordOf(prio: int, sequence: nat, usec: nat, lines: seq<Text>, boot: Time): Record
    requires lines != []
  {
    Record(prio % 8, prio / 8, sequence, boot + Signed64(1000 * usec), Unescaped(lines[0]), FieldsOf(lines[1..]))
  }

  function Parsed(s: Text, boot: Time): Option<Record> {
    var cut := Cut(s, SEMICOLON);
    if cut.None? then None
    else
      var header := Header(cut.value.0);
      if header.None? then None
      else Some(RecordOf(header.value.0, header.value.1, header.value.2, BodyLines(cut.value.1), boot))
  }

  /** Collects the pairs of the continuation lines. */
  method ParseFields(lines: seq<Text>) returns (fields: map<Text, Text>)
    ensures fields == FieldsOf(lines)
  {
    fields := map[];
    for i := 0 to |lines|
      invariant fields == FieldsOf(lines[..i])
    {
      assert lines[..i + 1][..i] == lines[..i];
      var p := PairOf(lines[i]);
      if p.Some? {
        fields := fields[p.value.0 := p.value.1];
      }
    }
    assert lines[..|lines|] == lines;
  }

  method Parse(s: Text, boot: Time) returns (r: Option<Record>)
    ensures r == Parsed(s, boot)
  {
    var cut := Cut(s, SEMICOLON);
    if cut.None? {
      return None;
    }
    var parts := Split(cut.value.0, COMMA);
    if |parts| < 3 {
      return None;
    }
    var prio, sequence, usec := Atoi(parts[0]), ParseUint(parts[1]), ParseUint(parts[2]);
    if prio.None? || sequence.None? || usec.None? {
      return None;
    }
    var lines := BodyLines(cut.value.1);
    var message := Unescape(lines[0]);
    var fields := ParseFields(lines[1..]);
    return Some(Record(prio.value % 8, prio.value / 8, sequence.value, boot + Signed64(1000 * usec.value), message, fields));
  }

  // ---------------------------------------------------------------- the kernel's printer

  function Decimal(n: nat): (s: Text)
    ensures s != [] && AllDigits(s)
  {
    if n < 10 then [(0x30 + n) as byte] else Decimal(n / 10) + [(0x30 + n % 10) as byte]
  }

  /** Control bytes, bytes beyond ASCII and the backslash are escaped. */
  predicate Plain(c: byte) {
    0x20 <= c < 0x7f && c != BACKSLASH
  }

  function HexDigit(v: nat): (c: byte)
    requires v < 16
    ensures IsHex(c) && HexValue(c) == v && c != NEWLINE
  {
    if v < 10 then (0x30 + v) as byte else (0x61 + v - 10) as byte
  }

  function EscapeByte(c: byte): Text {
    if Plain(c) then [c] else [BACKSLASH, LOWER_X, HexDigit(c as nat / 16), HexDigit(c as nat % 16)]
  }

  function Escape(m: Text): Text {
    if m == [] then [] else EscapeByte(m[0]) + Escape(m[1..])
  }

  /** What the kernel knows of a record; `flags` is the last part of the header. */
  datatype Entry = Entry(level: nat, facility: nat, sequence: nat, usec: nat, flags: Text, message: Text,
                         dict: seq<(Text, Text)>)

  function HeaderOf(e: Entry): Text {
    Decimal(8 * e.facility + e.level) + [COMMA] + (Decimal(e.sequence) + [COMMA] + (Decimal(e.usec) + [COMMA] + e.flags))
  }

  function DictLine(p: (Text, Text)): Text {
    [SPACE] + p.0 + [EQUALS] + Escape(p.1)
  }

  function DictLines(dict: seq<(Text, Text)>): (r: seq<Text>)
    ensures |r| == |dict| && forall i :: 0 <= i < |r| ==> r[i] == DictLine(dict[i])
  {
    if dict == [] then [] else DictLines(dict[..|dict| - 1]) + [DictLine(dict[|dict| - 1])]
  }

  function LinesOf(e: Entry): (r: seq<Text>)
    ensures r != []
  {
    [Escape(e.message)] + DictLines(e.dict)
  }

  function Print(e: Entry): Text {
    HeaderOf(e) + [SEMICOLON] + (Join(LinesOf(e), NEWLINE) + [NEWLINE])
  }

  // ---------------------------------------------------------------- the round trip

  lemma {:induction false} DecimalRoundTrip(n: nat)
    ensures DecimalValue(Decimal(n)) == n
  {
    if n >= 10 {
      DecimalRoundTrip(n / 10);
      var s := Decimal(n);
      assert s[..|s| - 1] == Decimal(n / 10);
    }
  }

  lemma NumbersRoundTrip(n: nat)
    ensures n < U64 ==> ParseUint(Decimal(n)) == Some(n)
    ensures n < I64 ==> Atoi(Decimal(n)) == Some(n)
  {
    DecimalRoundTrip(n);
    assert IsDigit(Decimal(n)[0]);
  }

  lemma DigitsHaveNo(s: Text, c: byte)
    requires AllDigits(s) && !IsDigit(c)
    ensures c !in s
  {
  }

  /** An escaped byte is decoded in one step. */
  lemma UnescapeOne(before: Text, c: byte, rest: Text)
    ensures var e := EscapeByte(c);
            UnescapedFrom(before + e + rest, |before|) == [c] + UnescapedFrom(before + e + rest, |before + e|)
  {
    var e := EscapeByte(c);
    var s := before + e + rest;
    assert forall i :: 0 <= i < |e| ==> s[|before| + i] == e[i];
    assert EscapeAt(s, |before|) <==> !Plain(c);
  }

  lemma {:induction false} UnescapeEscape(before: Text, m: Text)
    ensures UnescapedFrom(before + Escape(m), |before|) == m
    decreases m
  {
    if m != [] {
      var e, rest := EscapeByte(m[0]), Escape(m[1..]);
      Associative(before, e, rest);
      UnescapeEscape(before + e, m[1..]);
      UnescapeOne(before, m[0], rest);
      assert m == [m[0]] + m[1..];
    }
  }

  /** Every message survives the kernel's escaping. */
  lemma MessageRoundTrip(m: Text)
    ensures Unescaped(Escape(m)) == m
  {
    UnescapeEscape([], m);
    assert [] + Escape(m) == Escape(m);
  }

  lemma {:induction false} EscapeHasNoNewline(m: Text)
    ensures NEWLINE !in Escape(m)
  {
    if m != [] {
      EscapeHasNoNewline(m[1..]);
    }
  }

  predicate AllPlain(m: Text) {
    forall i :: 0 <= i < |m| ==> Plain(m[i])
  }

  /** Escaping changes a text exactly when some byte of it needs it. */
  lemma {:induction false} EscapeChangesIff(m: Text)
    ensures |Escape(m)| >= |m| && (Escape(m) == m <==> AllPlain(m))
    ensures |Escape(m)| == |m| <==> AllPlain(m)
  {
    if m != [] {
      EscapeChangesIff(m[1..]);
      assert m == [m[0]] + m[1..];
      assert AllPlain(m) <==> Plain(m[0]) && AllPlain(m[1..]);
    }
  }

  // ---------------------------------------------------------------- a whole record

  /** What the kernel writes: a 3-bit level, 64-bit numbers, a header without a second semicolon,
      and keys that are words. */
  predicate Printable(e: Entry) {
    && e.level < 8 && 8 * e.facility + e.level < I64 && e.sequence < U64 && e.usec < U64
    && SEMICOLON !in e.flags
    && forall i :: 0 <= i < |e.dict| ==> EQUALS !in e.dict[i].0 && NEWLINE !in e.dict[i].0
  }

  lemma HeaderCuts(e: Entry, rest: Text)
    requires Printable(e)
    ensures Cut(HeaderOf(e) + [SEMICOLON] + rest, SEMICOLON) == Some((HeaderOf(e), rest))
  {
    DigitsHaveNo(Decimal(8 * e.facility + e.level), SEMICOLON);
    DigitsHaveNo(Decimal(e.sequence), SEMICOLON);
    DigitsHaveNo(Decimal(e.usec), SEMICOLON);
    CutFirst(HeaderOf(e), SEMICOLON, rest);
  }

  lemma FourParts(a: Text, b: Text, c: Text, d: Text)
    requires COMMA !in a && COMMA !in b && COMMA !in c
    ensures var parts := Split(a + [COMMA] + (b + [COMMA] + (c + [COMMA] + d)), COMMA);
            |parts| >= 3 && parts[0] == a && parts[1] == b && parts[2] == c
  {
    var s := c + [COMMA] + d;
    SplitFirst(c, COMMA, d);
    SplitFirst(b, COMMA, s);
    SplitFirst(a, COMMA, b + [COMMA] + s);
  }

  lemma HeaderParses(e: Entry)
    requires Printable(e)
    ensures Header(HeaderOf(e)) == Some((8 * e.facility + e.level, e.sequence, e.usec))
  {
    var a, b, c := Decimal(8 * e.facility + e.level), Decimal(e.sequence), Decimal(e.usec);
    DigitsHaveNo(a, COMMA);
    DigitsHaveNo(b, COMMA);
    DigitsHaveNo(c, COMMA);
    FourParts(a, b, c, e.flags);
    HeaderFromParts(HeaderOf(e), 8 * e.facility + e.level, e.sequence, e.usec);
  }

  lemma HeaderFromParts(head: Text, prio: nat, sequence: nat, usec: nat)
    requires prio < I64 && sequence < U64 && usec < U64
    requires var parts := Split(head, COMMA);
             |parts| >= 3 && parts[0] == Decimal(prio) && parts[1] == Decimal(sequence) && parts[2] == Decimal(usec)
    ensures Header(head) == Some((prio, sequence, usec))
  {
    NumbersRoundTrip(prio);
    NumbersRoundTrip(sequence);
    NumbersRoundTrip(usec);
  }

  lemma {:induction false} JoinEnds(lines: seq<Text>)
    requires lines != [] && (forall i :: 0 <= i < |lines| ==> NEWLINE !in lines[i])
    requires forall i :: 0 < i < |lines| ==> lines[i] != []
    ensures var s := Join(lines, NEWLINE);
            (s == [] ==> lines[0] == []) && (s != [] ==> s[|s| - 1] != NEWLINE)
  {
    if |lines| > 1 {
      JoinEnds(lines[1..]);
      assert lines[1] != [];
    }
  }

  lemma BodySplits(lines: seq<Text>)
    requires lines != [] && (forall i :: 0 <= i < |lines| ==> NEWLINE !in lines[i])
    requires forall i :: 0 < i < |lines| ==> lines[i] != []
    ensures BodyLines(Join(lines, NEWLINE) + [NEWLINE]) == lines
  {
    JoinEnds(lines);
    TrimOne(Join(lines, NEWLINE), NEWLINE);
    SplitJoin(lines, NEWLINE);
  }

  /** The pairs as the parser returns them: the value still escaped, the last one of a key. */
  function DictMap(dict: seq<(Text, Text)>): map<Text, Text> {
    if dict == [] then map[]
    else DictMap(dict[..|dict| - 1])[dict[|dict| - 1].0 := Escape(dict[|dict| - 1].1)]
  }

  lemma DictLineParses(p: (Text, Text))
    requires EQUALS !in p.0
    ensures PairOf(DictLine(p)) == Some((p.0, Escape(p.1)))
  {
    assert TrimPrefix(DictLine(p), SPACE) == p.0 + [EQUALS] + Escape(p.1);
    CutFirst(p.0, EQUALS, Escape(p.1));
  }

  lemma {:induction false} DictParses(dict: seq<(Text, Text)>)
    requires forall i :: 0 <= i < |dict| ==> EQUALS !in dict[i].0
    ensures FieldsOf(DictLines(dict)) == DictMap(dict)
  {
    if dict != [] {
      var n := |dict| - 1;
      DictParses(dict[..n]);
      DictLineParses(dict[n]);
      assert DictLines(dict)[..n] == DictLines(dict[..n]);
    }
  }

  /** Parsing what the kernel prints recovers the level, the facility, the sequence number and the
      message of every record; the time offset modulo 2^64 nanoseconds; the fields still escaped. */
  lemma ParsePrint(e: Entry, boot: Time)
    requires Printable(e)
    ensures Parsed(Print(e), boot) ==
              Some(Record(e.level, e.facility, e.sequence, boot + Signed64(1000 * e.usec), e.message, DictMap(e.dict)))
  {
    PrintedLines(e);
    ParsedInParts(e, Join(LinesOf(e), NEWLINE) + [NEWLINE], boot);
    RecordOfLines(e, boot);
  }

  lemma ParsedInParts(e: Entry, rest: Text, boot: Time)
    requires Printable(e) && BodyLines(rest) == LinesOf(e)
    ensures Parsed(HeaderOf(e) + [SEMICOLON] + rest, boot) ==
              Some(RecordOf(8 * e.facility + e.level, e.sequence, e.usec, LinesOf(e), boot))
  {
    HeaderParses(e);
    HeaderCuts(e, rest);
  }

  lemma RecordOfLines(e: Entry, boot: Time)
    requires Printable(e)
    ensures RecordOf(8 * e.facility + e.level, e.sequence, e.usec, LinesOf(e), boot) ==
              Record(e.level, e.facility, e.sequence, boot + Signed64(1000 * e.usec), e.message, DictMap(e.dict))
  {
    MessageRoundTrip(e.message);
    DictParses(e.dict);
    assert LinesOf(e)[1..] == DictLines(e.dict);
  }

  lemma PrintedLines(e: Entry)
    requires Printable(e)
    ensures BodyLines(Join(LinesOf(e), NEWLINE) + [NEWLINE]) == LinesOf(e)
  {
    var lines := LinesOf(e);
    EscapeHasNoNewline(e.message);
    forall i | 0 < i < |lines| ensures lines[i] != [] && NEWLINE !in lines[i] {
      assert lines[i] == DictLine(e.dict[i - 1]);
      EscapeHasNoNewline(e.dict[i - 1].1);
    }
    BodySplits(lines);
  }

  /** The time is right exactly when the offset fits 63 bits of nanoseconds. */
  lemma TimeExactIff(e: Entry, boot: Time)
    requires Printable(e)
    ensures Parsed(Print(e), boot).Some?
    ensures Parsed(Print(e), boot).value.time == boot + 1000 * e.usec <==> 1000 * e.usec < I64
  {
    ParsePrint(e, boot);
    Signed64ExactIff(1000 * e.usec);
  }

  lemma {:induction false} DictMapAt(dict: seq<(Text, Text)>, i: nat)
    requires i < |dict| && forall j :: i < j < |dict| ==> dict[j].0 != dict[i].0
    ensures dict[i].0 in DictMap(dict) && DictMap(dict)[dict[i].0] == Escape(dict[i].1)
  {
    if i < |dict| - 1 {
      DictMapAt(dict[..|dict| - 1], i);
    }
  }

  /** A field, unlike the message, is right exactly when its value needed no escape. */
  lemma FieldExactIff(e: Entry, boot: Time, i: nat)
    requires Printable(e) && i < |e.dict| && forall j :: i < j < |e.dict| ==> e.dict[j].0 != e.dict[i].0
    ensures var r := Parsed(Print(e), boot);
            && r.Some? && e.dict[i].0 in r.value.fields
            && (r.value.fields[e.dict[i].0] == e.dict[i].1 <==> AllPlain(e.dict[i].1))
  {
    ParsePrint(e, boot);
    DictMapAt(e.dict, i);
    EscapeChangesIff(e.dict[i].1);
  }

  // ---------------------------------------------------------------- what else is accepted

  /** A priority may have a sign. */
  lemma SignedPriority(n: nat)
    ensures Atoi([0x2d] + Decimal(n)) == (if n <= I64 then Some(-(n as int)) else None)
    ensures Atoi([0x2b] + Decimal(n)) == (if n < I64 then Some(n as int) else None)
    ensures ParseUint([0x2d] + Decimal(n)) == None
  {
    DecimalRoundTrip(n);
    assert ([0x2d] + Decimal(n))[1..] == Decimal(n) && ([0x2b] + Decimal(n))[1..] == Decimal(n);
    assert !IsDigit(([0x2d] + Decimal(n))[0]);
  }

  /** A number too large for its field is refused. */
  lemma LargeNumbers(n: nat)
    ensures ParseUint(Decimal(n)).Some? <==> n < U64
    ensures Atoi(Decimal(n)).Some? <==> n < I64
  {
    DecimalRoundTrip(n);
    assert IsDigit(Decimal(n)[0]);
  }

  /** Without a semicolon there is no record ... */
  lemma NoHeader(s: Text, boot: Time)
    requires SEMICOLON !in s
    ensures Parsed(s, boot) == None
  {
    CutNone(s, SEMICOLON);
  }

  /** ... nor with fewer than three parts before it. */
  lemma ShortHeader(a: Text, b: Text, rest: Text, boot: Time)
    requires COMMA !in a && COMMA !in b && SEMICOLON !in a && SEMICOLON !in b
    ensures Parsed(a + [COMMA] + b + [SEMICOLON] + rest, boot) == None && Parsed(a + [SEMICOLON] + rest, boot) == None
  {
    CutFirst(a + [COMMA] + b, SEMICOLON, rest);
    SplitFirst(a, COMMA, b);
    CutNone(b, COMMA);
    CutFirst(a, SEMICOLON, rest);
    CutNone(a, COMMA);
  }

  /** Capital hexadecimal digits are decoded as well. */
  lemma CapitalEscape()
    ensures Unescaped([BACKSLASH, LOWER_X, 0x34, 0x43]) == [0x4c] && Unescaped([BACKSLASH, LOWER_X, 0x34, 0x63]) == [0x4c]
  {
    UnescapedSingle([BACKSLASH, LOWER_X, 0x34, 0x43]);
    UnescapedSingle([BACKSLASH, LOWER_X, 0x34, 0x63]);
  }

  lemma UnescapedSingle(s: Text)
    requires |s| == 4 && EscapeAt(s, 0)
    ensures Unescaped(s) == [EscapedByte(s, 0)]
  {
    assert UnescapedFrom(s, 4) == [];
  }

  /** A continuation line that is no pair changes no field. */
  lemma NoPairNoField(lines: seq<Text>, line: Text)
    requires EQUALS !in line
    ensures FieldsOf(lines + [line]) == FieldsOf(lines)
  {
    assert (lines + [line])[..|lines|] == lines;
    CutNone(TrimPrefix(line, SPACE), EQUALS);
  }

  /** Printed records as the kernel writes them: "6,1,2,-;A" and a newline, and \x0a for a newline in
      the message. */
  lemma RecordsOnTheWire()
    ensures Print(Entry(6, 0, 1, 2, [0x2d], [0x41], [])) == [0x36, 0x2c, 0x31, 0x2c, 0x32, 0x2c, 0x2d, 0x3b, 0x41, 0x0a]
    ensures Escape([0x0a]) == [0x5c, 0x78, 0x30, 0x61]
  {
    assert [0x41][1..] == [] && [0x0a][1..] == [];
    assert Escape([0x41]) == [0x41];
    var e := Entry(6, 0, 1, 2, [0x2d], [0x41], []);
    assert LinesOf(e) == [[0x41]];
    assert HeaderOf(e) == [0x36, 0x2c, 0x31, 0x2c, 0x32, 0x2c, 0x2d];
  }
}

/** The framing of journal records (the "Data Format" section of systemd's Native Journal Protocol)
    and its decoder. */
module Journal {
  import opened Units
  import opened Options
  import opened Bytes

  datatype Field = Field(name: Text, value: Text)

  // ---------------------------------------------------------------- little-endian numbers

  function Power256(k: nat): nat {
    if k == 0 then 1 else 256 * Power256(k - 1)
  }

  function LittleEndian(n: nat, k: nat): (r: Text)
    ensures |r| == k
  {
    if k == 0 then [] else [(n % 256) as byte] + LittleEndian(n / 256, k - 1)
  }

  function FromLittleEndian(s: Text): nat {
    if s == [] then 0 else s[0] as nat + 256 * FromLittleEndian(s[1..])
  }

  lemma {:induction false} LittleEndianRoundTrip(n: nat, k: nat)
    requires n < Power256(k)
    ensures FromLittleEndian(LittleEndian(n, k)) == n
  {
    if k != 0 {
      LittleEndianRoundTrip(n / 256, k - 1);
      assert LittleEndian(n, k)[1..] == LittleEndian(n / 256, k - 1);
    }
  }

  lemma EightBytes()
    ensures Power256(8) == U64
  {
    assert Power256(4) == 0x1_0000_0000;
  }

  // ---------------------------------------------------------------- encoding

  /** A value with a newline has its length in front; any other is a line. */
  function EncodeField(f: Field): Text {
    if NEWLINE in f.value then f.name + [NEWLINE] + LittleEndian(|f.value|, 8) + f.value + [NEWLINE]
    else f.name + [EQUALS] + f.value + [NEWLINE]
  }

  function Encode(fields: seq<Field>): Text {
    if fields == [] then [] else EncodeField(fields[0]) + Encode(fields[1..])
  }

  lemma {:induction false} EncodeSnoc(fields: seq<Field>, f: Field)
    ensures Encode(fields + [f]) == Encode(fields) + EncodeField(f)
  {
    if fields != [] {
      assert (fields + [f])[1..] == fields[1..] + [f];
      EncodeSnoc(fields[1..], f);
    }
  }

  /** The encoder: appends to a buffer, field by field. */
  method EncodeRecord(fields: seq<Field>) returns (b: Text)
    ensures b == Encode(fields)
  {
    b := [];
    for i := 0 to |fields|
      invariant b == Encode(fields[..i])
    {
      assert fields[..i + 1] == fields[..i] + [fields[i]];
      EncodeSnoc(fields[..i], fields[i]);
      var f := fields[i];
      ghost var start := b;
      if NEWLINE in f.value {
        b := b + f.name;
        b := b + [NEWLINE];
        b := b + LittleEndian(|f.value|, 8);
        b := b + f.value;
        b := b + [NEWLINE];
        assert b == start + EncodeField(f);
        continue;
      }
      b := b + (f.name + [EQUALS] + f.value + [NEWLINE]);
    }
    assert fields[..|fields|] == fields;
  }

  // ---------------------------------------------------------------- decoding

  /** The first field and what follows it; nothing where a slice would be out of range. */
  function DecodeField(b: Text): (r: Option<(Field, Text)>)
    ensures r.Some? ==> |r.value.1| < |b|
  {
    var line := Cut(b, NEWLINE);
    if line.None? then None
    else
      var (head, rest) := line.value;
      var pair := Cut(head, EQUALS);
      if pair.Some? then Some((Field(pair.value.0, pair.value.1), rest))
      else if |rest| < 8 then None
      else
        var size := FromLittleEndian(rest[..8]);
        if |rest| < 8 + size + 1 then None else Some((Field(head, rest[8..8 + size]), rest[8 + size + 1..]))
  }

  function Decode(b: Text): Option<seq<Field>>
    decreases |b|
  {
    if b == [] then Some([])
    else
      var first := DecodeField(b);
      if first.None? then None
      else
        var others := Decode(first.value.1);
        if others.None? then None else Some([first.value.0] + others.value)
  }

  // ---------------------------------------------------------------- the round trip

  predicate LegalName(name: Text) {
    EQUALS !in name && NEWLINE !in name
  }

  /** A length, that many bytes and one more can be taken apart again. */
  lemma SizedParts(size: Text, value: Text, rest: Text)
    requires |size| == 8
    ensures var tail := size + value + [NEWLINE] + rest;
            && tail[..8] == size && tail[8..8 + |value|] == value && tail[8 + |value| + 1..] == rest
  {
  }

  lemma SizedField(name: Text, value: Text, rest: Text)
    requires LegalName(name) && |value| < U64
    ensures DecodeField(name + [NEWLINE] + (LittleEndian(|value|, 8) + value + [NEWLINE] + rest))
         == Some((Field(name, value), rest))
  {
    var size := LittleEndian(|value|, 8);
    CutFirst(name, NEWLINE, size + value + [NEWLINE] + rest);
    CutNone(name, EQUALS);
    EightBytes();
    LittleEndianRoundTrip(|value|, 8);
    SizedParts(size, value, rest);
  }

  lemma BinaryField(f: Field, rest: Text)
    requires LegalName(f.name) && NEWLINE in f.value && |f.value| < U64
    ensures DecodeField(EncodeField(f) + rest) == Some((f, rest))
  {
    var size := LittleEndian(|f.value|, 8);
    assert EncodeField(f) + rest == f.name + [NEWLINE] + (size + f.value + [NEWLINE] + rest);
    SizedField(f.name, f.value, rest);
  }

  lemma LineField(f: Field, rest: Text)
    requires LegalName(f.name) && NEWLINE !in f.value
    ensures DecodeField(EncodeField(f) + rest) == Some((f, rest))
  {
    var line := f.name + [EQUALS] + f.value;
    assert EncodeField(f) + rest == line + [NEWLINE] + rest;
    CutFirst(line, NEWLINE, rest);
    CutFirst(f.name, EQUALS, f.value);
  }

  /** With legal names, decoding the encoded record returns the fields, whatever bytes are in their
      values. */
  lemma {:induction false} RoundTrip(fields: seq<Field>)
    requires forall i :: 0 <= i < |fields| ==> LegalName(fields[i].name) && |fields[i].value| < U64
    ensures Decode(Encode(fields)) == Some(fields)
  {
    if fields != [] {
      var f := fields[0];
      if NEWLINE in f.value {
        BinaryField(f, Encode(fields[1..]));
      } else {
        LineField(f, Encode(fields[1..]));
      }
      RoundTrip(fields[1..]);
      assert fields == [f] + fields[1..];
    }
  }

  lemma FirstNameIsLegal(b: Text)
    requires DecodeField(b).Some?
    ensures LegalName(DecodeField(b).value.0.name)
  {
    var head := Cut(b, NEWLINE).value.0;
    CutNone(head, EQUALS);
    var pair := Cut(head, EQUALS);
    if pair.Some? {
      assert forall c :: c in pair.value.0 ==> c in head;
    }
  }

  /** Whatever the decoder accepts has legal names. */
  lemma {:induction false} DecodedNamesAreLegal(b: Text)
    ensures Decode(b).Some? ==> forall i :: 0 <= i < |Decode(b).value| ==> LegalName(Decode(b).value[i].name)
    decreases |b|
  {
    if b != [] && DecodeField(b).Some? {
      DecodedNamesAreLegal(DecodeField(b).value.1);
      FirstNameIsLegal(b);
    }
  }

  /** The framing loses nothing exactly when no name has an equals sign or a newline. */
  lemma RoundTripIff(fields: seq<Field>)
    requires forall i :: 0 <= i < |fields| ==> |fields[i].value| < U64
    ensures Decode(Encode(fields)) == Some(fields) <==> forall i :: 0 <= i < |fields| ==> LegalName(fields[i].name)
  {
    DecodedNamesAreLegal(Encode(fields));
    if forall i :: 0 <= i < |fields| ==> LegalName(fields[i].name) {
      RoundTrip(fields);
    }
  }

  /** The two forms as the protocol shows them: A=B in a line, and a newline as the value of A after
      its length in eight bytes, lowest first. */
  lemma FramesOnTheWire()
    ensures Encode([Field([0x41], [0x42])]) == [0x41, 0x3d, 0x42, 0x0a]
    ensures Encode([Field([0x41], [0x0a])]) == [0x41, 0x0a, 1, 0, 0, 0, 0, 0, 0, 0, 0x0a, 0x0a]
  {
    var line, sized := Field([0x41], [0x42]), Field([0x41], [0x0a]);
    EncodeSnoc([], line);
    EncodeSnoc([], sized);
    assert [] + [line] == [line] && [] + [sized] == [sized];
    ZeroBytes(7);
    assert LittleEndian(1, 8) == [1] + LittleEndian(0, 7);
    assert NEWLINE in sized.value;
  }

  lemma {:induction false} ZeroBytes(k: nat)
    ensures LittleEndian(0, k) == seq(k, i => 0)
  {
    if k != 0 {
      ZeroBytes(k - 1);
    }
  }
}

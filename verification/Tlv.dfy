/**
 * Header and TLV list of an unescaped frame (gateway/internal/p3frame/p3frame.go,
 * web/src/protocol/header.ts, web/src/protocol/tlv.ts).
 */
module Tlv {
  import opened Bytes

  const HEADER_SIZE := 10

  datatype Header = Header(version: Byte, frameLength: nat, crc: nat, flags: nat, tor: nat)

  function ParseHeader(unesc: seq<Byte>): Option<Header> {
    if |unesc| < HEADER_SIZE then None
    else Some(Header(unesc[1], GetLE(unesc[2..4]), GetLE(unesc[4..6]), GetLE(unesc[6..8]), GetLE(unesc[8..10])))
  }

  /** Where the header's fields lie, and in which byte order. */
  lemma HeaderLayout(first: Byte, version: Byte, length: U16, crc: U16, flags: U16, tor: U16, rest: seq<Byte>)
    ensures ParseHeader([first, version] + PutLE(length, 2) + PutLE(crc, 2) + PutLE(flags, 2) + PutLE(tor, 2) + rest)
            == Some(Header(version, length, crc, flags, tor))
  {
    var u := [first, version] + PutLE(length, 2) + PutLE(crc, 2) + PutLE(flags, 2) + PutLE(tor, 2) + rest;
    RangeValues();
    GetPutLE(length, 2);
    GetPutLE(crc, 2);
    GetPutLE(flags, 2);
    GetPutLE(tor, 2);
    hide PutLE, GetLE;
    assert u[2..4] == PutLE(length, 2) && u[4..6] == PutLE(crc, 2);
    assert u[6..8] == PutLE(flags, 2) && u[8..10] == PutLE(tor, 2);
  }

  datatype Field = Field(id: Byte, value: seq<Byte>)

  /** The bytes between the header and the closing EOR. */
  function TlvBytes(unesc: seq<Byte>): seq<Byte> {
    if |unesc| < HEADER_SIZE + 1 then [] else unesc[HEADER_SIZE..|unesc| - 1]
  }

  /** Too short for the field it announces. */
  predicate Truncated(body: seq<Byte>) {
    |body| < 2 || 2 + body[1] > |body|
  }

  /** The fields of a body; a truncated field at the end is not one of them. */
  function Fields(body: seq<Byte>): seq<Field> {
    if Truncated(body) then []
    else [Field(body[0], body[2..2 + body[1]])] + Fields(body[2 + body[1]..])
  }

  /** What is left behind the last complete field. */
  function Tail(body: seq<Byte>): seq<Byte> {
    if Truncated(body) then body else Tail(body[2 + body[1]..])
  }

  function EncodeField(f: Field): seq<Byte>
    requires |f.value| < 0x100
  {
    [f.id, |f.value|] + f.value
  }

  function EncodeFields(fs: seq<Field>): seq<Byte>
    requires forall f :: f in fs ==> |f.value| < 0x100
  {
    if fs == [] then [] else EncodeField(fs[0]) + EncodeFields(fs[1..])
  }

  lemma {:induction false} EncodeFieldsAppend(fs: seq<Field>, gs: seq<Field>)
    requires forall f :: f in fs ==> |f.value| < 0x100
    requires forall g :: g in gs ==> |g.value| < 0x100
    ensures EncodeFields(fs + gs) == EncodeFields(fs) + EncodeFields(gs)
  {
    if fs == [] {
      assert fs + gs == gs;
    } else {
      assert (fs + gs)[0] == fs[0] && (fs + gs)[1..] == fs[1..] + gs;
      EncodeFieldsAppend(fs[1..], gs);
      Assoc(EncodeField(fs[0]), EncodeFields(fs[1..]), EncodeFields(gs));
    }
  }

  lemma FirstField(f: Field, rest: seq<Byte>)
    requires |f.value| < 0x100
    ensures var body := EncodeField(f) + rest;
            !Truncated(body) && Fields(body) == [f] + Fields(rest) && Tail(body) == Tail(rest)
  {
    var body := EncodeField(f) + rest;
    assert body[0] == f.id && body[1] == |f.value|;
    assert body[2..2 + |f.value|] == f.value && body[2 + |f.value|..] == rest;
  }

  /** Walking encoded fields gives them back, whatever truncated rest follows. */
  lemma {:induction false} FieldsOfEncoded(fs: seq<Field>, tail: seq<Byte>)
    requires forall f :: f in fs ==> |f.value| < 0x100
    requires Truncated(tail)
    ensures Fields(EncodeFields(fs) + tail) == fs && Tail(EncodeFields(fs) + tail) == tail
    decreases |fs|
  {
    if fs == [] {
      assert EncodeFields(fs) + tail == tail;
    } else {
      var f, rest := fs[0], EncodeFields(fs[1..]) + tail;
      Assoc(EncodeField(f), EncodeFields(fs[1..]), tail);
      FirstField(f, rest);
      FieldsOfEncoded(fs[1..], tail);
      assert [f] + fs[1..] == fs;
    }
  }

  lemma SplitFirst(body: seq<Byte>)
    requires !Truncated(body)
    ensures var n: int := 2 + |Fields(body)[0].value|;
            && |Fields(body)[0].value| < 0x100 && n <= |body|
            && body == EncodeField(Fields(body)[0]) + body[n..]
            && Fields(body) == [Fields(body)[0]] + Fields(body[n..])
            && Tail(body) == Tail(body[n..])
  {
    var length: int := body[1];
    SplitAt(body, 2 + length);
    assert Fields(body)[0] == Field(body[0], body[2..2 + length]);
  }

  lemma SplitAt(body: seq<Byte>, n: nat)
    requires 2 <= n <= |body|
    ensures body == [body[0], body[1]] + body[2..n] + body[n..]
  {}

  /** Every body is its fields, encoded, followed by a truncated rest. */
  lemma {:induction false} EncodedOfFields(body: seq<Byte>)
    ensures Truncated(Tail(body))
    ensures forall f :: f in Fields(body) ==> |f.value| < 0x100
    ensures body == EncodeFields(Fields(body)) + Tail(body)
    decreases |body|
  {
    if !Truncated(body) {
      SplitFirst(body);
      var f := Fields(body)[0];
      var rest := body[2 + |f.value|..];
      EncodedOfFields(rest);
      FirstEncoded(f, Fields(rest));
      Assoc(EncodeField(f), EncodeFields(Fields(rest)), Tail(body));
    }
  }

  lemma FirstEncoded(f: Field, fs: seq<Field>)
    requires |f.value| < 0x100 && forall g :: g in fs ==> |g.value| < 0x100
    ensures forall g :: g in [f] + fs ==> |g.value| < 0x100
    ensures EncodeFields([f] + fs) == EncodeField(f) + EncodeFields(fs)
  {
    assert ([f] + fs)[1..] == fs;
  }

  /** One turn of a walk over the body, standing at offset i. */
  lemma FieldAt(body: seq<Byte>, i: nat)
    requires i < |body|
    ensures if i + 2 > |body| || i + 2 + body[i + 1] > |body| then Fields(body[i..]) == []
            else var end := i + 2 + body[i + 1];
                 Fields(body[i..]) == [Field(body[i], body[i + 2..end])] + Fields(body[end..])
  {
    var rest := body[i..];
    assert rest[0] == body[i];
    if i + 1 < |body| {
      assert rest[1] == body[i + 1];
      var length: int := body[i + 1];
      var end := i + 2 + length;
      if end <= |body| {
        assert rest[2..2 + length] == body[i + 2..end] && rest[2 + length..] == body[end..];
      }
    }
  }

  /** The web client's walk: the fields it yields, in order. */
  method IterateTlvs(unesc: seq<Byte>) returns (fields: seq<Field>)
    ensures fields == Fields(TlvBytes(unesc))
  {
    fields := [];
    if |unesc| < HEADER_SIZE + 1 {
      return;
    }
    var body := unesc[HEADER_SIZE..|unesc| - 1];
    var i := 0;
    assert body[0..] == body;
    while i < |body|
      invariant 0 <= i <= |body|
      invariant fields + Fields(body[i..]) == Fields(body)
      decreases |body| - i
    {
      FieldAt(body, i);
      if i + 2 > |body| {
        assert fields + [] == fields;
        return;
      }
      var id, length := body[i], body[i + 1];
      var end := i + 2 + length;
      if end > |body| {
        assert fields + [] == fields;
        return;
      }
      Assoc(fields, [Field(id, body[i + 2..end])], Fields(body[end..]));
      fields := fields + [Field(id, body[i + 2..end])];
      i := end;
    }
    assert fields + [] == fields;
  }
}

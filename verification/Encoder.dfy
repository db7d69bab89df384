/**
 * Building PASSING and STATUS frames (tools/fieldtest/internal/frame/frame.go); the gateway's mock
 * source assembles its frames in the same layout. Decoding is proved to undo it.
 */
module Encoder {
  import opened Bytes
  import opened Wire
  import opened Tlv
  import opened Framing
  import opened Records

  const VERSION: Byte := 0x02

  datatype PassingArgs = PassingArgs(
    passingNumber: U32, transponder: U32, rtcTimeUs: U64, strength: U16, hits: U16, flags: U16, decoderId: U32)

  datatype StatusArgs = StatusArgs(noise: U16, temperature: U16, inputVoltage: U8, gps: U8, decoderId: U32)

  // ---- Layout ----

  /** An integer field of the given width. */
  function IntField(id: Byte, v: nat, width: nat): Field {
    Field(id, PutLE(v, width))
  }

  function PassingFields(a: PassingArgs): seq<Field> {
    [IntField(PASSING_NUMBER, a.passingNumber, 4), IntField(TRANSPONDER, a.transponder, 4),
     IntField(RTC_TIME, a.rtcTimeUs, 8), IntField(STRENGTH, a.strength, 2), IntField(HITS, a.hits, 2),
     IntField(FLAGS, a.flags, 2), IntField(DECODER_ID, a.decoderId, 4)]
  }

  function StatusFields(a: StatusArgs): seq<Field> {
    [IntField(NOISE, a.noise, 2), IntField(TEMPERATURE, a.temperature, 2), IntField(INPUT_VOLTAGE, a.inputVoltage, 1),
     IntField(GPS, a.gps, 1), IntField(DECODER_ID, a.decoderId, 4)]
  }

  /** Header with zero CRC and flags, body, EOR; the length field is truncated to 16 bits. */
  function Assembled(tor: U16, body: seq<Byte>): seq<Byte> {
    [SOR, VERSION] + PutLE(HEADER_SIZE + |body| + 1, 2) + [0, 0, 0, 0] + PutLE(tor, 2) + body + [EOR]
  }

  lemma AssembledLayout(tor: U16, body: seq<Byte>)
    ensures var u := Assembled(tor, body);
            && Bracketed(u)
            && |u| == HEADER_SIZE + |body| + 1
            && TlvBytes(u) == body
            && ParseHeader(u) == Some(Header(VERSION, |u| % WORD16, 0, 0, tor))
            && (|u| < WORD16 ==> ParseHeader(u).value.frameLength == |u|)
  {
    var u := Assembled(tor, body);
    assert u[2..4] == PutLE(HEADER_SIZE + |body| + 1, 2);
    assert u[4..6] == [0, 0] && u[6..8] == [0, 0];
    assert u[8..10] == PutLE(tor, 2);
    RangeValues();
    GetPutLE(tor, 2);
    GetPutLE(|u| % WORD16, 2);
    PutTruncates(|u|);
    assert GetLE([0, 0]) == 0 by { assert [0, 0][1..] == [0]; assert [0][1..] == []; }
    assert u[HEADER_SIZE..|u| - 1] == body;
  }

  lemma PutTruncates(v: nat)
    ensures PutLE(v, 2) == PutLE(v % WORD16, 2)
  {
    TwoBytes(v);
    TwoBytes(v % WORD16);
    var q, w := v / WORD16, v % WORD16;
    assert v == WORD16 * q + w;
    assert v / 0x100 == 0x100 * q + w / 0x100;
  }

  lemma TwoBytes(v: nat)
    ensures PutLE(v, 2) == [v % 0x100, v / 0x100 % 0x100]
  {
    assert PutLE(v / 0x100, 1) == [v / 0x100 % 0x100] + PutLE(v / 0x100 / 0x100, 0);
  }

  /** What decoding makes of an unescaped frame with this type and these fields. */
  function Reading(tor: U16, fs: seq<Field>, raw: seq<Byte>): ParseResult {
    if tor == TOR_PASSING then PassingOf(fs, raw)
    else if tor == TOR_STATUS then StatusOf(fs)
    else Unknown(tor, raw)
  }

  /** u is an unescaped frame of this type with these fields and a true length field. */
  ghost predicate Carries(u: seq<Byte>, tor: nat, fs: seq<Field>) {
    && Bracketed(u)
    && ParseHeader(u).Some?
    && ParseHeader(u).value.frameLength == |u|
    && ParseHeader(u).value.tor == tor
    && Fields(TlvBytes(u)) == fs
  }

  lemma AssembledCarries(tor: U16, fs: seq<Field>)
    requires forall f :: f in fs ==> |f.value| < 0x100
    requires HEADER_SIZE + |EncodeFields(fs)| + 1 < WORD16
    ensures Carries(Assembled(tor, EncodeFields(fs)), tor, fs)
  {
    var body := EncodeFields(fs);
    AssembledLayout(tor, body);
    FieldsOfEncoded(fs, []);
    assert body + [] == body;
  }

  /** Decoding an encoded frame reads back its type and its list of fields. */
  lemma ParseEncoded(u: seq<Byte>, tor: nat, fs: seq<Field>)
    requires Carries(u, tor, fs)
    ensures IsFrame(true, Escaped(u)) && Parse(Escaped(u)) == Reading(tor, fs, Escaped(u))
  {
    UnescapeEscape(u);
    EncodedIsFrame(true, u);
    assert ParseUnescaped(u, Escaped(u)) == Reading(tor, fs, Escaped(u));
  }

  // ---- Layout of the bodies ----

  /** The first field of a list, and the rest behind it. */
  lemma EncodedCons(id: Byte, v: nat, width: nat, rest: seq<Field>)
    requires width < 0x100 && forall f :: f in rest ==> |f.value| < 0x100
    ensures var fs := [IntField(id, v, width)] + rest;
            (forall f :: f in fs ==> |f.value| < 0x100)
            && EncodeFields(fs) == [id, width] + PutLE(v, width) + EncodeFields(rest)
  {
    var fs := [IntField(id, v, width)] + rest;
    assert fs[1..] == rest && fs[0] == IntField(id, v, width);
    hide PutLE;
  }

  /** The body of a PASSING frame, byte by byte. */
  lemma PassingBody(a: PassingArgs)
    ensures EncodeFields(PassingFields(a))
            == [0x01, 4] + PutLE(a.passingNumber, 4) + ([0x03, 4] + PutLE(a.transponder, 4)
               + ([0x04, 8] + PutLE(a.rtcTimeUs, 8) + ([0x05, 2] + PutLE(a.strength, 2)
               + ([0x06, 2] + PutLE(a.hits, 2) + ([0x08, 2] + PutLE(a.flags, 2)
               + ([0x81, 4] + PutLE(a.decoderId, 4) + []))))))
  {
    var fs := PassingFields(a);
    hide EncodeFields, PutLE, PassingFields;
    PassingInOrder(a);
    EncodedCons(0x81, a.decoderId, 4, []);
    EncodedCons(0x08, a.flags, 2, fs[6..]);
    EncodedCons(0x06, a.hits, 2, fs[5..]);
    EncodedCons(0x05, a.strength, 2, fs[4..]);
    EncodedCons(0x04, a.rtcTimeUs, 8, fs[3..]);
    EncodedCons(0x03, a.transponder, 4, fs[2..]);
    EncodedCons(0x01, a.passingNumber, 4, fs[1..]);
    NoFields();
  }

  lemma NoFields()
    ensures EncodeFields([]) == []
  {}

  lemma PassingInOrder(a: PassingArgs)
    ensures var fs := PassingFields(a);
            && |fs| == 7 && fs[7..] == []
            && fs[6..] == [IntField(0x81, a.decoderId, 4)] + [] && fs[5..] == [IntField(0x08, a.flags, 2)] + fs[6..]
            && fs[4..] == [IntField(0x06, a.hits, 2)] + fs[5..] && fs[3..] == [IntField(0x05, a.strength, 2)] + fs[4..]
            && fs[2..] == [IntField(0x04, a.rtcTimeUs, 8)] + fs[3..]
            && fs[1..] == [IntField(0x03, a.transponder, 4)] + fs[2..]
            && fs == [IntField(0x01, a.passingNumber, 4)] + fs[1..]
  {
    hide IntField;
  }

  lemma StatusInOrder(a: StatusArgs)
    ensures var fs := StatusFields(a);
            && |fs| == 5
            && fs[4..] == [IntField(0x81, a.decoderId, 4)] + [] && fs[3..] == [IntField(0x06, a.gps, 1)] + fs[4..]
            && fs[2..] == [IntField(0x0C, a.inputVoltage, 1)] + fs[3..]
            && fs[1..] == [IntField(0x07, a.temperature, 2)] + fs[2..]
            && fs == [IntField(0x01, a.noise, 2)] + fs[1..]
  {
    hide IntField;
  }

  /** The body of a STATUS frame, byte by byte. */
  lemma StatusBody(a: StatusArgs)
    ensures EncodeFields(StatusFields(a))
            == [0x01, 2] + PutLE(a.noise, 2) + ([0x07, 2] + PutLE(a.temperature, 2)
               + ([0x0C, 1] + PutLE(a.inputVoltage, 1) + ([0x06, 1] + PutLE(a.gps, 1)
               + ([0x81, 4] + PutLE(a.decoderId, 4) + []))))
  {
    var fs := StatusFields(a);
    hide EncodeFields, PutLE, StatusFields;
    StatusInOrder(a);
    EncodedCons(0x81, a.decoderId, 4, []);
    EncodedCons(0x06, a.gps, 1, fs[4..]);
    EncodedCons(0x0C, a.inputVoltage, 1, fs[3..]);
    EncodedCons(0x07, a.temperature, 2, fs[2..]);
    EncodedCons(0x01, a.noise, 2, fs[1..]);
    NoFields();
  }

  // ---- Round trips ----

  function PassingRecordOf(a: PassingArgs): PassingRecord {
    PassingRecord(a.passingNumber, a.transponder, a.rtcTimeUs, a.strength, a.hits, a.flags, Some(a.decoderId))
  }

  function StatusRecordOf(a: StatusArgs): StatusRecord {
    StatusRecord(Some(a.noise), Some(a.gps), Some(a.temperature), Some(a.inputVoltage), Some(a.decoderId))
  }

  function PassingWire(a: PassingArgs): seq<Byte> {
    Escaped(Assembled(TOR_PASSING, EncodeFields(PassingFields(a))))
  }

  function StatusWire(a: StatusArgs): seq<Byte> {
    Escaped(Assembled(TOR_STATUS, EncodeFields(StatusFields(a))))
  }

  /** The only field with its id and width gives the value it was built from. */
  lemma OnlyField(fs: seq<Field>, k: nat, id: Byte, v: nat, width: nat)
    requires k < |fs| && fs[k] == IntField(id, v, width) && v < Range(width)
    requires forall j :: k < j < |fs| ==> fs[j].id != id
    ensures LastOfWidth(fs, id, width) == Some(v)
  {
    LastOfWidthMeaning(fs, id, width);
    GetPutLE(v, width);
  }

  lemma {:induction false} EncodedLength(fs: seq<Field>)
    requires forall f :: f in fs ==> |f.value| <= 8
    ensures |EncodeFields(fs)| <= 10 * |fs|
  {
    if fs == [] {
    } else {
      assert fs[0] in fs;
      EncodedLength(fs[1..]);
    }
  }

  lemma PassingFieldsMean(a: PassingArgs, raw: seq<Byte>)
    ensures PassingOf(PassingFields(a), raw) == Passing(PassingRecordOf(a))
  {
    var fs := PassingFields(a);
    RangeValues();
    OnlyField(fs, 0, PASSING_NUMBER, a.passingNumber, 4);
    OnlyField(fs, 1, TRANSPONDER, a.transponder, 4);
    OnlyField(fs, 2, RTC_TIME, a.rtcTimeUs, 8);
    OnlyField(fs, 3, STRENGTH, a.strength, 2);
    OnlyField(fs, 4, HITS, a.hits, 2);
    OnlyField(fs, 5, FLAGS, a.flags, 2);
    OnlyField(fs, 6, DECODER_ID, a.decoderId, 4);
    assert forall f :: f in fs ==> !WrongLength(f);
  }

  lemma StatusFieldsMean(a: StatusArgs)
    ensures StatusOf(StatusFields(a)) == Status(StatusRecordOf(a))
  {
    var fs := StatusFields(a);
    RangeValues();
    OnlyField(fs, 0, NOISE, a.noise, 2);
    OnlyField(fs, 1, TEMPERATURE, a.temperature, 2);
    OnlyField(fs, 2, INPUT_VOLTAGE, a.inputVoltage, 1);
    OnlyField(fs, 3, GPS, a.gps, 1);
    OnlyField(fs, 4, DECODER_ID, a.decoderId, 4);
  }

  /** Every 16-, 32- and 64-bit field value survives encoding and decoding. */
  lemma PassingRoundTrip(a: PassingArgs)
    ensures Parse(PassingWire(a)) == Passing(PassingRecordOf(a))
    ensures IsFrame(true, PassingWire(a))
  {
    EncodedLength(PassingFields(a));
    AssembledCarries(TOR_PASSING, PassingFields(a));
    ParseEncoded(Assembled(TOR_PASSING, EncodeFields(PassingFields(a))), TOR_PASSING, PassingFields(a));
    PassingFieldsMean(a, PassingWire(a));
  }

  lemma StatusRoundTrip(a: StatusArgs)
    ensures Parse(StatusWire(a)) == Status(StatusRecordOf(a))
    ensures IsFrame(true, StatusWire(a))
  {
    EncodedLength(StatusFields(a));
    AssembledCarries(TOR_STATUS, StatusFields(a));
    ParseEncoded(Assembled(TOR_STATUS, EncodeFields(StatusFields(a))), TOR_STATUS, StatusFields(a));
    StatusFieldsMean(a);
  }

  // ---- The builders ----

  lemma {:induction false} EncodeFieldsSnoc(fs: seq<Field>, f: Field)
    requires |f.value| < 0x100 && forall g :: g in fs ==> |g.value| < 0x100
    ensures EncodeFields(fs + [f]) == EncodeFields(fs) + EncodeField(f)
  {
    if fs == [] {
      assert (fs + [f])[1..] == [];
    } else {
      EncodeFieldsSnoc(fs[1..], f);
      assert (fs + [f])[1..] == fs[1..] + [f];
    }
  }

  /** Appends field k of a list whose first k fields are in the body already. */
  method AppendTlv(ghost fs: seq<Field>, ghost k: nat, body: seq<Byte>, id: Byte, v: nat, width: nat)
    returns (r: seq<Byte>)
    requires width < 0x100 && forall f :: f in fs ==> |f.value| < 0x100
    requires k < |fs| && fs[k] == IntField(id, v, width)
    requires body == EncodeFields(fs[..k])
    ensures r == EncodeFields(fs[..k + 1])
  {
    assert fs[..k + 1] == fs[..k] + [fs[k]];
    EncodeFieldsSnoc(fs[..k], fs[k]);
    r := body + [id, width] + PutLE(v, width);
  }

  method PutUint16(buf: array<Byte>, at: nat, v: nat)
    requires at + 2 <= buf.Length
    modifies buf
    ensures buf[at..at + 2] == PutLE(v, 2)
    ensures forall k :: 0 <= k < buf.Length && !(at <= k < at + 2) ==> buf[k] == old(buf[k])
  {
    TwoBytes(v);
    buf[at] := v % 0x100;
    buf[at + 1] := v / 0x100 % 0x100;
  }

  method Finalize(tor: U16, body: seq<Byte>) returns (wire: seq<Byte>)
    ensures wire == Escaped(Assembled(tor, body))
  {
    var totalLen := HEADER_SIZE + |body| + 1;
    var unesc := new Byte[totalLen](_ => 0);
    unesc[0] := SOR;
    unesc[1] := VERSION;
    PutUint16(unesc, 2, totalLen);
    PutUint16(unesc, 8, tor);
    assert unesc[2..4] == PutLE(totalLen, 2);
    for i := 0 to |body|
      invariant unesc[0] == SOR && unesc[1] == VERSION
      invariant unesc[2..4] == PutLE(totalLen, 2) && unesc[8..10] == PutLE(tor, 2)
      invariant forall k :: 4 <= k < 8 ==> unesc[k] == 0
      invariant forall k :: 0 <= k < i ==> unesc[HEADER_SIZE + k] == body[k]
    {
      unesc[HEADER_SIZE + i] := body[i];
    }
    unesc[totalLen - 1] := EOR;
    assert unesc[..] == Assembled(tor, body) by {
      assert unesc[2..4] == PutLE(totalLen, 2) && unesc[8..10] == PutLE(tor, 2);
      assert unesc[10..totalLen - 1] == body;
      assert unesc[4..8] == [0, 0, 0, 0];
      assert unesc[..] == [unesc[0], unesc[1]] + unesc[2..4] + unesc[4..8] + unesc[8..10]
                          + unesc[10..totalLen - 1] + [unesc[totalLen - 1]];
    }
    wire := Escape(unesc[..]);
  }

  method BuildPassing(a: PassingArgs) returns (wire: seq<Byte>)
    ensures wire == PassingWire(a)
  {
    ghost var fs := PassingFields(a);
    var body := [];
    body := AppendTlv(fs, 0, body, PASSING_NUMBER, a.passingNumber, 4);
    body := AppendTlv(fs, 1, body, TRANSPONDER, a.transponder, 4);
    body := AppendTlv(fs, 2, body, RTC_TIME, a.rtcTimeUs, 8);
    body := AppendTlv(fs, 3, body, STRENGTH, a.strength, 2);
    body := AppendTlv(fs, 4, body, HITS, a.hits, 2);
    body := AppendTlv(fs, 5, body, FLAGS, a.flags, 2);
    body := AppendTlv(fs, 6, body, DECODER_ID, a.decoderId, 4);
    assert fs[..7] == fs;
    wire := Finalize(TOR_PASSING, body);
  }

  method BuildStatus(a: StatusArgs) returns (wire: seq<Byte>)
    ensures wire == StatusWire(a)
  {
    ghost var fs := StatusFields(a);
    var body := [];
    body := AppendTlv(fs, 0, body, NOISE, a.noise, 2);
    body := AppendTlv(fs, 1, body, TEMPERATURE, a.temperature, 2);
    body := AppendTlv(fs, 2, body, INPUT_VOLTAGE, a.inputVoltage, 1);
    body := AppendTlv(fs, 3, body, GPS, a.gps, 1);
    body := AppendTlv(fs, 4, body, DECODER_ID, a.decoderId, 4);
    assert fs[..5] == fs;
    wire := Finalize(TOR_STATUS, body);
  }
}

/**
 * Record decoding and the streaming decoder of the web client
 * (web/src/protocol/records.ts, web/src/protocol/decoder.ts).
 */
module Records {
  import opened Bytes
  import opened Wire
  import opened Tlv
  import opened Framing

  const TOR_PASSING := 0x0001
  const TOR_STATUS := 0x0002

  const PASSING_NUMBER: Byte := 0x01
  const TRANSPONDER: Byte := 0x03
  const RTC_TIME: Byte := 0x04
  const STRENGTH: Byte := 0x05
  const HITS: Byte := 0x06
  const FLAGS: Byte := 0x08

  const NOISE: Byte := 0x01
  const GPS: Byte := 0x06
  const TEMPERATURE: Byte := 0x07
  const INPUT_VOLTAGE: Byte := 0x0C

  const DECODER_ID: Byte := 0x81

  datatype PassingRecord = PassingRecord(
    passingNumber: nat, transponder: nat, rtcTimeUs: nat,
    strength: nat, hits: nat, flags: nat, decoderId: Option<nat>)

  datatype StatusRecord = StatusRecord(
    noise: Option<nat>, gps: Option<nat>, temperature: Option<nat>,
    inputVoltage: Option<nat>, decoderId: Option<nat>)

  datatype MalformedReason =
    | ShortFrame | FrameLengthMismatch | InvalidEscape | MissingRequiredField | UnexpectedFieldLength

  datatype ParseResult =
    | Passing(record: PassingRecord)
    | Status(status: StatusRecord)
    | Unknown(tor: nat, unknownRaw: seq<Byte>)
    | Malformed(reason: MalformedReason, raw: seq<Byte>)

  // ---- What a list of fields says ----

  /** The value of the last field with this id and this many bytes. */
  function LastOfWidth(fs: seq<Field>, id: Byte, width: nat): Option<nat> {
    if fs == [] then None
    else
      var f := fs[|fs| - 1];
      if f.id == id && |f.value| == width then Some(GetLE(f.value)) else LastOfWidth(fs[..|fs| - 1], id, width)
  }

  /** Bytes a PASSING record expects in a field; None for fields it does not know. */
  function PassingWidth(id: Byte): Option<nat> {
    if id == RTC_TIME then Some(8)
    else if id == PASSING_NUMBER || id == TRANSPONDER || id == DECODER_ID then Some(4)
    else if id == STRENGTH || id == HITS || id == FLAGS then Some(2)
    else None
  }

  predicate WrongLength(f: Field) {
    PassingWidth(f.id).Some? && |f.value| != PassingWidth(f.id).value
  }

  /**
   * Decided from the whole list at once: a known field of the wrong length spoils the record, a
   * required field must occur, and of several the last one counts.
   */
  function PassingOf(fs: seq<Field>, raw: seq<Byte>): (r: ParseResult)
    ensures r.Passing? || r == Malformed(UnexpectedFieldLength, raw) || r == Malformed(MissingRequiredField, raw)
  {
    var number := LastOfWidth(fs, PASSING_NUMBER, 4);
    var transponder := LastOfWidth(fs, TRANSPONDER, 4);
    var rtc := LastOfWidth(fs, RTC_TIME, 8);
    var strength := LastOfWidth(fs, STRENGTH, 2);
    var hits := LastOfWidth(fs, HITS, 2);
    var flags := LastOfWidth(fs, FLAGS, 2);
    if exists f :: f in fs && WrongLength(f) then Malformed(UnexpectedFieldLength, raw)
    else if number.Some? && transponder.Some? && rtc.Some? && strength.Some? && hits.Some? && flags.Some? then
      Passing(PassingRecord(number.value, transponder.value, rtc.value, strength.value, hits.value, flags.value,
                            LastOfWidth(fs, DECODER_ID, 4)))
    else Malformed(MissingRequiredField, raw)
  }

  /** A STATUS record takes the last field of the right length and ignores the others. */
  function StatusOf(fs: seq<Field>): ParseResult {
    Status(StatusRecord(LastOfWidth(fs, NOISE, 2), LastOfWidth(fs, GPS, 1), LastOfWidth(fs, TEMPERATURE, 2),
                        LastOfWidth(fs, INPUT_VOLTAGE, 1), LastOfWidth(fs, DECODER_ID, 4)))
  }

  predicate Has(fs: seq<Field>, id: Byte, width: nat) {
    exists f :: f in fs && f.id == id && |f.value| == width
  }

  lemma {:induction false} LastOfWidthMeaning(fs: seq<Field>, id: Byte, width: nat)
    ensures LastOfWidth(fs, id, width).Some? <==> Has(fs, id, width)
    ensures forall k :: 0 <= k < |fs| && fs[k].id == id && |fs[k].value| == width
                        && (forall j :: k < j < |fs| ==> fs[j].id != id || |fs[j].value| != width)
                        ==> LastOfWidth(fs, id, width) == Some(GetLE(fs[k].value))
  {
    if fs == [] {
    } else {
      var f, rest := fs[|fs| - 1], fs[..|fs| - 1];
      LastOfWidthMeaning(rest, id, width);
      assert fs == rest + [f];
      forall k | 0 <= k < |fs| && fs[k].id == id && |fs[k].value| == width
                 && (forall j :: k < j < |fs| ==> fs[j].id != id || |fs[j].value| != width)
        ensures LastOfWidth(fs, id, width) == Some(GetLE(fs[k].value))
      {
        if k < |rest| {
          assert rest[k] == fs[k];
          assert forall j :: k < j < |rest| ==> rest[j] == fs[j];
        }
      }
    }
  }

  lemma KnownFieldIff(fs: seq<Field>, id: Byte, width: nat)
    requires PassingWidth(id) == Some(width)
    requires forall f :: f in fs ==> !WrongLength(f)
    ensures LastOfWidth(fs, id, width).Some? <==> exists f :: f in fs && f.id == id
  {
    LastOfWidthMeaning(fs, id, width);
  }

  /** For any body: when a PASSING record comes out. */
  lemma PassingIff(fs: seq<Field>, raw: seq<Byte>)
    ensures PassingOf(fs, raw).Passing? <==>
            && (forall f :: f in fs ==> !WrongLength(f))
            && (exists f :: f in fs && f.id == PASSING_NUMBER)
            && (exists f :: f in fs && f.id == TRANSPONDER)
            && (exists f :: f in fs && f.id == RTC_TIME)
            && (exists f :: f in fs && f.id == STRENGTH)
            && (exists f :: f in fs && f.id == HITS)
            && (exists f :: f in fs && f.id == FLAGS)
  {
    if forall f :: f in fs ==> !WrongLength(f) {
      KnownFieldIff(fs, PASSING_NUMBER, 4);
      KnownFieldIff(fs, TRANSPONDER, 4);
      KnownFieldIff(fs, RTC_TIME, 8);
      KnownFieldIff(fs, STRENGTH, 2);
      KnownFieldIff(fs, HITS, 2);
      KnownFieldIff(fs, FLAGS, 2);
    }
  }

  /** A known field of the wrong length is reported as such, whatever else is missing. */
  lemma PassingReasonIff(fs: seq<Field>, raw: seq<Byte>)
    ensures PassingOf(fs, raw) == Malformed(UnexpectedFieldLength, raw) <==> exists f :: f in fs && WrongLength(f)
  {}

  /** The value, if any, of the last field with this id and this many bytes. */
  ghost predicate IsLast(fs: seq<Field>, id: Byte, width: nat, v: Option<nat>) {
    && (v.Some? <==> Has(fs, id, width))
    && forall k :: 0 <= k < |fs| && fs[k].id == id && |fs[k].value| == width
                   && (forall j :: k < j < |fs| ==> fs[j].id != id || |fs[j].value| != width)
                   ==> v == Some(GetLE(fs[k].value))
  }

  lemma LastIsLast(fs: seq<Field>, id: Byte, width: nat)
    ensures IsLast(fs, id, width, LastOfWidth(fs, id, width))
  {
    LastOfWidthMeaning(fs, id, width);
  }

  /** Which field each value of a PASSING record comes from. */
  lemma PassingValues(fs: seq<Field>, raw: seq<Byte>)
    requires PassingOf(fs, raw).Passing?
    ensures var r := PassingOf(fs, raw).record;
            && IsLast(fs, 0x01, 4, Some(r.passingNumber)) && IsLast(fs, 0x03, 4, Some(r.transponder))
            && IsLast(fs, 0x04, 8, Some(r.rtcTimeUs)) && IsLast(fs, 0x05, 2, Some(r.strength))
            && IsLast(fs, 0x06, 2, Some(r.hits)) && IsLast(fs, 0x08, 2, Some(r.flags))
            && IsLast(fs, 0x81, 4, r.decoderId)
  {
    LastIsLast(fs, PASSING_NUMBER, 4);
    LastIsLast(fs, TRANSPONDER, 4);
    LastIsLast(fs, RTC_TIME, 8);
    LastIsLast(fs, STRENGTH, 2);
    LastIsLast(fs, HITS, 2);
    LastIsLast(fs, FLAGS, 2);
    LastIsLast(fs, DECODER_ID, 4);
    hide IsLast, LastOfWidth;
  }

  /** Which field each value of a STATUS record comes from, if any. */
  lemma StatusValues(fs: seq<Field>)
    ensures StatusOf(fs).Status?
    ensures var r := StatusOf(fs).status;
            && IsLast(fs, 0x01, 2, r.noise) && IsLast(fs, 0x06, 1, r.gps) && IsLast(fs, 0x07, 2, r.temperature)
            && IsLast(fs, 0x0C, 1, r.inputVoltage) && IsLast(fs, 0x81, 4, r.decoderId)
  {
    LastIsLast(fs, NOISE, 2);
    LastIsLast(fs, GPS, 1);
    LastIsLast(fs, TEMPERATURE, 2);
    LastIsLast(fs, INPUT_VOLTAGE, 1);
    LastIsLast(fs, DECODER_ID, 4);
    hide IsLast, LastOfWidth;
  }

  function ReadUint(b: seq<Byte>, expected: nat): Option<nat> {
    if |b| != expected then None else Some(GetLE(b))
  }

  /** The fields read so far are sound, and the locals of the decoding loop hold the last values among them. */
  ghost predicate Holds(fs: seq<Field>, number: Option<nat>, transponder: Option<nat>, rtc: Option<nat>,
                        strength: Option<nat>, hits: Option<nat>, flags: Option<nat>, decoderId: Option<nat>) {
    && (forall f :: f in fs ==> !WrongLength(f))
    && number == LastOfWidth(fs, PASSING_NUMBER, 4)
    && transponder == LastOfWidth(fs, TRANSPONDER, 4)
    && rtc == LastOfWidth(fs, RTC_TIME, 8)
    && strength == LastOfWidth(fs, STRENGTH, 2)
    && hits == LastOfWidth(fs, HITS, 2)
    && flags == LastOfWidth(fs, FLAGS, 2)
    && decoderId == LastOfWidth(fs, DECODER_ID, 4)
  }

  lemma LastOfWidthSnoc(fs: seq<Field>, f: Field, id: Byte, width: nat)
    ensures LastOfWidth(fs + [f], id, width)
            == if f.id == id && |f.value| == width then Some(GetLE(f.value)) else LastOfWidth(fs, id, width)
  {
    assert (fs + [f])[..|fs + [f]| - 1] == fs;
  }

  lemma HoldsSnoc(fs: seq<Field>, f: Field, number: Option<nat>, transponder: Option<nat>, rtc: Option<nat>,
                  strength: Option<nat>, hits: Option<nat>, flags: Option<nat>, decoderId: Option<nat>)
    requires Holds(fs, number, transponder, rtc, strength, hits, flags, decoderId) && !WrongLength(f)
    ensures var v := Some(GetLE(f.value));
            Holds(fs + [f],
                  if f.id == PASSING_NUMBER then v else number,
                  if f.id == TRANSPONDER then v else transponder,
                  if f.id == RTC_TIME then v else rtc,
                  if f.id == STRENGTH then v else strength,
                  if f.id == HITS then v else hits,
                  if f.id == FLAGS then v else flags,
                  if f.id == DECODER_ID then v else decoderId)
  {
    LastOfWidthSnoc(fs, f, PASSING_NUMBER, 4);
    LastOfWidthSnoc(fs, f, TRANSPONDER, 4);
    LastOfWidthSnoc(fs, f, RTC_TIME, 8);
    LastOfWidthSnoc(fs, f, STRENGTH, 2);
    LastOfWidthSnoc(fs, f, HITS, 2);
    LastOfWidthSnoc(fs, f, FLAGS, 2);
    LastOfWidthSnoc(fs, f, DECODER_ID, 4);
  }

  lemma AllRead(fs: seq<Field>, raw: seq<Byte>, number: Option<nat>, transponder: Option<nat>, rtc: Option<nat>,
                strength: Option<nat>, hits: Option<nat>, flags: Option<nat>, decoderId: Option<nat>)
    requires Holds(fs, number, transponder, rtc, strength, hits, flags, decoderId)
    ensures PassingOf(fs, raw) ==
            if number == None || transponder == None || rtc == None || strength == None || hits == None || flags == None
            then Malformed(MissingRequiredField, raw)
            else Passing(PassingRecord(number.value, transponder.value, rtc.value,
                                       strength.value, hits.value, flags.value, decoderId))
  {}

  lemma SpoiledBy(fs: seq<Field>, f: Field, raw: seq<Byte>)
    requires f in fs && WrongLength(f)
    ensures PassingOf(fs, raw) == Malformed(UnexpectedFieldLength, raw)
  {}

  method DecodePassing(unesc: seq<Byte>, raw: seq<Byte>) returns (r: ParseResult)
    ensures r == PassingOf(Fields(TlvBytes(unesc)), raw)
  {
    var fs := IterateTlvs(unesc);
    var number, transponder, rtc, strength, hits, flags, decoderId: Option<nat> :=
      None, None, None, None, None, None, None;
    for i := 0 to |fs|
      invariant Holds(fs[..i], number, transponder, rtc, strength, hits, flags, decoderId)
    {
      var f := fs[i];
      TakeNext(fs, i);
      if WrongLength(f) {
        SpoiledBy(fs, f, raw);
      } else {
        HoldsSnoc(fs[..i], f, number, transponder, rtc, strength, hits, flags, decoderId);
      }
      if f.id == PASSING_NUMBER {
        var v := ReadUint(f.value, 4);
        if v == None { return Malformed(UnexpectedFieldLength, raw); }
        number := v;
      } else if f.id == TRANSPONDER {
        var v := ReadUint(f.value, 4);
        if v == None { return Malformed(UnexpectedFieldLength, raw); }
        transponder := v;
      } else if f.id == RTC_TIME {
        var v := ReadUint(f.value, 8);
        if v == None { return Malformed(UnexpectedFieldLength, raw); }
        rtc := v;
      } else if f.id == STRENGTH {
        var v := ReadUint(f.value, 2);
        if v == None { return Malformed(UnexpectedFieldLength, raw); }
        strength := v;
      } else if f.id == HITS {
        var v := ReadUint(f.value, 2);
        if v == None { return Malformed(UnexpectedFieldLength, raw); }
        hits := v;
      } else if f.id == FLAGS {
        var v := ReadUint(f.value, 2);
        if v == None { return Malformed(UnexpectedFieldLength, raw); }
        flags := v;
      } else if f.id == DECODER_ID {
        var v := ReadUint(f.value, 4);
        if v == None { return Malformed(UnexpectedFieldLength, raw); }
        decoderId := v;
      }
    }
    assert fs[..|fs|] == fs;
    AllRead(fs, raw, number, transponder, rtc, strength, hits, flags, decoderId);
    if number == None || transponder == None || rtc == None || strength == None || hits == None || flags == None {
      return Malformed(MissingRequiredField, raw);
    }
    r := Passing(PassingRecord(number.value, transponder.value, rtc.value,
                               strength.value, hits.value, flags.value, decoderId));
  }

  lemma StatusSnoc(fs: seq<Field>, f: Field)
    ensures var s, n, v := StatusOf(fs).status, |f.value|, Some(GetLE(f.value));
            StatusOf(fs + [f]) == Status(StatusRecord(
              if f.id == NOISE && n == 2 then v else s.noise,
              if f.id == GPS && n == 1 then v else s.gps,
              if f.id == TEMPERATURE && n == 2 then v else s.temperature,
              if f.id == INPUT_VOLTAGE && n == 1 then v else s.inputVoltage,
              if f.id == DECODER_ID && n == 4 then v else s.decoderId))
  {
    LastOfWidthSnoc(fs, f, NOISE, 2);
    LastOfWidthSnoc(fs, f, GPS, 1);
    LastOfWidthSnoc(fs, f, TEMPERATURE, 2);
    LastOfWidthSnoc(fs, f, INPUT_VOLTAGE, 1);
    LastOfWidthSnoc(fs, f, DECODER_ID, 4);
  }

  method DecodeStatus(unesc: seq<Byte>) returns (r: ParseResult)
    ensures r == StatusOf(Fields(TlvBytes(unesc)))
  {
    var fs := IterateTlvs(unesc);
    var record := StatusRecord(None, None, None, None, None);
    for i := 0 to |fs|
      invariant Status(record) == StatusOf(fs[..i])
    {
      var f := fs[i];
      TakeNext(fs, i);
      StatusSnoc(fs[..i], f);
      if f.id == NOISE {
        var v := ReadUint(f.value, 2);
        if v != None { record := record.(noise := v); }
      } else if f.id == GPS {
        var v := ReadUint(f.value, 1);
        if v != None { record := record.(gps := v); }
      } else if f.id == TEMPERATURE {
        var v := ReadUint(f.value, 2);
        if v != None { record := record.(temperature := v); }
      } else if f.id == INPUT_VOLTAGE {
        var v := ReadUint(f.value, 1);
        if v != None { record := record.(inputVoltage := v); }
      } else if f.id == DECODER_ID {
        var v := ReadUint(f.value, 4);
        if v != None { record := record.(decoderId := v); }
      }
    }
    assert fs[..|fs|] == fs;
    r := Status(record);
  }

  // ---- One frame ----

  /** The record an unescaped frame carries; raw is what a malformed or unknown result keeps. */
  function ParseUnescaped(unesc: seq<Byte>, raw: seq<Byte>): ParseResult {
    var h := ParseHeader(unesc);
    if h.None? then Malformed(ShortFrame, raw)
    else if h.value.frameLength != |unesc| then Malformed(FrameLengthMismatch, raw)
    else if h.value.tor == TOR_PASSING then PassingOf(Fields(TlvBytes(unesc)), raw)
    else if h.value.tor == TOR_STATUS then StatusOf(Fields(TlvBytes(unesc)))
    else Unknown(h.value.tor, raw)
  }

  function Parse(frame: seq<Byte>): ParseResult {
    if |frame| >= 2 && Dangling(Body(frame)) then Malformed(InvalidEscape, frame)
    else ParseUnescaped(Unescaped(frame), frame)
  }

  /** The frame has no dangling escape and, unescaped, is long enough for a header. */
  predicate HasHeader(frame: seq<Byte>) {
    !(|frame| >= 2 && Dangling(Body(frame))) && |Unescaped(frame)| >= 10
  }

  /** The length field is true and the type is this. */
  predicate Announces(frame: seq<Byte>, tor: nat) {
    HasHeader(frame) &&
    var u := Unescaped(frame);
    GetLE(u[2..4]) == |u| && GetLE(u[8..10]) == tor
  }

  /** Each kind of result has its cause in the header, and only that. */
  lemma ParseIff(frame: seq<Byte>)
    ensures var r, u := Parse(frame), Unescaped(frame);
            && (r == Malformed(ShortFrame, frame)
                <==> !(|frame| >= 2 && Dangling(Body(frame))) && |Unescaped(frame)| < 10)
            && (r == Malformed(FrameLengthMismatch, frame) <==> HasHeader(frame) && GetLE(u[2..4]) != |u|)
            && (Announces(frame, 1) ==> r == PassingOf(Fields(TlvBytes(u)), frame))
            && (r.Passing? ==> Announces(frame, 1))
            && (r.Status? <==> Announces(frame, 2))
            && (Announces(frame, 2) ==> r == StatusOf(Fields(TlvBytes(u))))
            && (forall tor :: r == Unknown(tor, frame) <==> Announces(frame, tor) && tor != 1 && tor != 2)
            && (r.Unknown? ==> r.unknownRaw == frame)
  {
    hide PassingOf, Dangling, Unescaped, Fields, GetLE, TlvBytes;
  }

  function ParseAll(frames: seq<seq<Byte>>): seq<ParseResult> {
    seq(|frames|, i requires 0 <= i < |frames| => Parse(frames[i]))
  }

  lemma ParseAllAppend(a: seq<seq<Byte>>, b: seq<seq<Byte>>)
    ensures ParseAll(a + b) == ParseAll(a) + ParseAll(b)
  {}

  method ParseFrame(frame: seq<Byte>) returns (r: ParseResult)
    ensures r == Parse(frame)
  {
    var unesc, danglingOffset := UnescapeChecked(frame);
    if danglingOffset.Some? {
      return Malformed(InvalidEscape, frame);
    }
    var h := ParseHeader(unesc);
    if h.None? {
      return Malformed(ShortFrame, frame);
    }
    if h.value.frameLength != |unesc| {
      return Malformed(FrameLengthMismatch, frame);
    }
    if h.value.tor == TOR_PASSING {
      r := DecodePassing(unesc, frame);
    } else if h.value.tor == TOR_STATUS {
      r := DecodeStatus(unesc);
    } else {
      r := Unknown(h.value.tor, frame);
    }
  }

  method ParseFrames(frames: seq<seq<Byte>>) returns (results: seq<ParseResult>)
    ensures results == ParseAll(frames)
  {
    results := [];
    for i := 0 to |frames|
      invariant results == ParseAll(frames[..i])
    {
      var r := ParseFrame(frames[i]);
      TakeNext(frames, i);
      ParseAllAppend(frames[..i], [frames[i]]);
      results := results + [r];
    }
    assert frames[..|frames|] == frames;
  }

  // ---- The streaming decoder ----

  /** Everything a fresh decoder reports for a byte stream. */
  function Decode(s: seq<Byte>): seq<ParseResult> {
    ParseAll(ScanFrom(true, [], s).frames)
  }

  class Decoder {
    const stream: FrameStream
    ghost var results: seq<ParseResult>   // reported since the last reset

    ghost predicate Valid()
      reads this, stream
    {
      stream.Valid() && results == ParseAll(stream.emitted)
    }

    constructor ()
      ensures Valid() && fresh(stream) && stream.history == []
    {
      stream := new FrameStream();
      results := [];
    }

    method Push(chunk: seq<Byte>) returns (out: seq<ParseResult>)
      requires Valid()
      modifies this, stream
      ensures Valid()
      ensures stream.history == old(stream.history) + chunk
      ensures out == ParseAll(ScanFrom(true, old(stream.buf), chunk).frames)
      ensures stream.buf == ScanFrom(true, old(stream.buf), chunk).cur
      ensures results == old(results) + out && results == Decode(stream.history)
    {
      ghost var before := stream.emitted;
      var frames := stream.Push(chunk);
      ParseAllAppend(before, frames);
      out := ParseFrames(frames);
      results := results + out;
    }

    method Reset()
      requires Valid()
      modifies this, stream
      ensures Valid() && stream.buf == [] && stream.history == [] && results == []
    {
      stream.Reset();
      results := [];
    }
  }

  function DecodeChunks(cur: seq<Byte>, chunks: seq<seq<Byte>>): seq<ParseResult>
    decreases |chunks|
  {
    if chunks == [] then []
    else
      var r := ScanFrom(true, cur, chunks[0]);
      ParseAll(r.frames) + DecodeChunks(r.cur, chunks[1..])
  }

  /** The results of any sequence of pushes into a fresh decoder are those of one push of it all. */
  lemma DecodingIgnoresChunking(chunks: seq<seq<Byte>>)
    ensures DecodeChunks([], chunks) == Decode(Concat(chunks))
  {
    DecodeChunksIsScan([], chunks);
    ChunkingIndependence(true, [], chunks);
  }

  lemma {:induction false} DecodeChunksIsScan(cur: seq<Byte>, chunks: seq<seq<Byte>>)
    ensures DecodeChunks(cur, chunks) == ParseAll(ScanChunks(true, cur, chunks).frames)
    decreases |chunks|
  {
    if chunks == [] {
    } else {
      var r := ScanFrom(true, cur, chunks[0]);
      DecodeChunksIsScan(r.cur, chunks[1..]);
      ParseAllAppend(r.frames, ScanChunks(true, r.cur, chunks[1..]).frames);
    }
  }

  lemma ParseUnescapedReason(unesc: seq<Byte>, raw: seq<Byte>)
    ensures var r := ParseUnescaped(unesc, raw); r.Malformed? ==> r.reason != InvalidEscape
  {}

  lemma OnlyDanglingIsInvalid(frame: seq<Byte>)
    ensures Parse(frame).Malformed? && Parse(frame).reason == InvalidEscape
            <==> |frame| >= 2 && Dangling(Body(frame))
  {
    if |frame| < 2 || !Dangling(Body(frame)) {
      ParseUnescapedReason(Unescaped(frame), frame);
    }
  }

  /** On no stream does the decoder report an invalid escape. */
  lemma InvalidEscapeUnreachable(s: seq<Byte>)
    ensures forall r :: r in Decode(s) ==> !(r.Malformed? && r.reason == InvalidEscape)
  {
    var frames := ScanFrom(true, [], s).frames;
    AwareFramesNeverDangle(s);
    forall i | 0 <= i < |frames| ensures var r := Parse(frames[i]); !(r.Malformed? && r.reason == InvalidEscape) {
      assert frames[i] in frames;
      OnlyDanglingIsInvalid(frames[i]);
    }
    assert forall i :: 0 <= i < |frames| ==> Decode(s)[i] == Parse(frames[i]);
  }
}

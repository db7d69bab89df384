/**
 * What a forced reconnect in the middle of a frame can make of two honest records: the beginning of
 * one and the end of the other pass for a record that was never sent.
 */
module Stitching {
  import opened Bytes
  import opened Wire
  import opened Tlv
  import opened Framing
  import opened Records
  import opened Encoder
  import opened WsClient
  import opened Session

  /** The header of a PASSING frame behind its SOR, for a body of n bytes. */
  function HeaderBytes(n: nat): seq<Byte> {
    [VERSION] + PutLE(HEADER_SIZE + n + 1, 2) + [0, 0, 0, 0] + PutLE(TOR_PASSING, 2)
  }

  function BodySize(a: PassingArgs): nat { |EncodeFields(PassingFields(a))| }

  /** The wire bytes up to and including the transponder field. */
  function Beginning(a: PassingArgs): seq<Byte> {
    [SOR] + EscapeBody(HeaderBytes(BodySize(a)) + EncodeFields(PassingFields(a)[..2]))
  }

  /** The wire bytes behind it. */
  function Ending(a: PassingArgs): seq<Byte> {
    EscapeBody(EncodeFields(PassingFields(a)[2..])) + [EOR]
  }

  /** Number and transponder of a, everything else of b. */
  function Mixed(a: PassingArgs, b: PassingArgs): PassingArgs {
    PassingArgs(a.passingNumber, a.transponder, b.rtcTimeUs, b.strength, b.hits, b.flags, b.decoderId)
  }

  lemma {:induction false} SameWidthsSameSize(fs: seq<Field>, gs: seq<Field>)
    requires |fs| == |gs|
    requires forall i :: 0 <= i < |fs| ==> |fs[i].value| == |gs[i].value| < 0x100
    ensures |EncodeFields(fs)| == |EncodeFields(gs)|
  {
    if fs == [] {
    } else {
      SameWidthsSameSize(fs[1..], gs[1..]);
    }
  }

  lemma JoinedHalves(n: nat, fs: seq<Field>, gs: seq<Field>)
    requires forall f :: f in fs ==> |f.value| < 0x100
    requires forall g :: g in gs ==> |g.value| < 0x100
    requires n == |EncodeFields(fs + gs)|
    ensures ([SOR] + EscapeBody(HeaderBytes(n) + EncodeFields(fs))) + (EscapeBody(EncodeFields(gs)) + [EOR])
            == Escaped(Assembled(TOR_PASSING, EncodeFields(fs + gs)))
  {
    var x, y := HeaderBytes(n) + EncodeFields(fs), EncodeFields(gs);
    EncodeFieldsAppend(fs, gs);
    EscapeBodyAppend(x, y);
    Assoc(HeaderBytes(n), EncodeFields(fs), EncodeFields(gs));
    AssembledBytes(EncodeFields(fs + gs));
    hide *;
    EscapedBrackets(x + y);
    FourParts([SOR], EscapeBody(x), EscapeBody(y), [EOR]);
  }

  lemma FourParts(a: seq<Byte>, b: seq<Byte>, c: seq<Byte>, d: seq<Byte>)
    ensures (a + b) + (c + d) == a + (b + c) + d
  {}

  lemma AssembledBytes(body: seq<Byte>)
    ensures Assembled(TOR_PASSING, body) == [SOR] + (HeaderBytes(|body|) + body) + [EOR]
  {}

  lemma EscapedBrackets(z: seq<Byte>)
    ensures Escaped([SOR] + z + [EOR]) == [SOR] + EscapeBody(z) + [EOR]
  {
    assert Body([SOR] + z + [EOR]) == z;
  }

  /** The beginning of one record and the end of another are, byte for byte, a third record. */
  lemma HalvesJoin(a: PassingArgs, b: PassingArgs)
    ensures Beginning(a) + Ending(b) == PassingWire(Mixed(a, b))
  {
    var fs, gs := PassingFields(a)[..2], PassingFields(b)[2..];
    assert PassingFields(Mixed(a, b)) == fs + gs;
    SameWidthsSameSize(PassingFields(a), PassingFields(Mixed(a, b)));
    JoinedHalves(BodySize(a), fs, gs);
  }

  /** Both really are halves of what was sent. */
  lemma HalvesOfOne(a: PassingArgs)
    ensures Beginning(a) + Ending(a) == PassingWire(a)
  {
    HalvesJoin(a, a);
  }

  lemma BeginningIsOpen(a: PassingArgs)
    ensures IsOpen(true, Beginning(a))
  {
    var inner := HeaderBytes(BodySize(a)) + EncodeFields(PassingFields(a)[..2]);
    UnescapeEscapeBody(inner);
    CanonicalIsOpen(true, EscapeBody(inner));
    assert Beginning(a)[1..] == EscapeBody(inner);
  }

  lemma EndingFinishes(a: PassingArgs, b: PassingArgs)
    ensures ScanFrom(true, Beginning(a), Ending(b)) == Scan([PassingWire(Mixed(a, b))], [])
  {
    BeginningIsOpen(a);
    HalvesJoin(a, b);
    PassingRoundTrip(Mixed(a, b));
    hide *;
    ScanOpen(true, Beginning(a));
    ScanFrame(true, PassingWire(Mixed(a, b)));
    ScanAppend(true, [], Beginning(a), Ending(b));
    NoFramesBefore(ScanFrom(true, Beginning(a), Ending(b)));
  }

  lemma NoFramesBefore(r: Scan)
    ensures Scan([] + r.frames, r.cur) == r
  {
    assert [] + r.frames == r.frames;
  }

  /** Start, connect, and receive the beginning of one record. */
  function Before(a: PassingArgs, target: nat): seq<Input> {
    [StartStore, On(Connect, None), On(Received(0, Binary(Beginning(a))), Some(target))]
  }

  lemma RunSnoc(cfg: Config, inputs: seq<Input>, input: Input)
    ensures RunFrom(cfg, BEGIN, inputs + [input]) == Next(cfg, RunFrom(cfg, BEGIN, inputs), input)
  {
    assert (inputs + [input])[..|inputs|] == inputs;
  }

  lemma StateBefore(cfg: Config, a: PassingArgs, target: nat)
    ensures var st := RunFrom(cfg, BEGIN, Before(a, target));
            && Session.Inv(cfg, st) && st.ws.active && |st.ws.sockets| == 1
            && st.cur == Beginning(a) && st.frames == []
  {
    var connect, receive := On(Connect, None), On(Received(0, Binary(Beginning(a))), Some(target));
    RunSnoc(cfg, [], StartStore);
    RunSnoc(cfg, [] + [StartStore], connect);
    RunSnoc(cfg, [] + [StartStore] + [connect], receive);
    assert [] + [StartStore] + [connect] + [receive] == Before(a, target);
    assert RunFrom(cfg, BEGIN, []) == BEGIN;
    hide RunFrom, Beginning;
    var st1 := Next(cfg, BEGIN, StartStore);
    OneOut(cfg, st1, Connect, None);
    NextKeeps(cfg, st1, connect);
    var st2 := Next(cfg, st1, connect);
    hide Next;
    ReceiveBeginning(cfg, st2, a, target);
  }

  lemma ReceiveBeginning(cfg: Config, st: State, a: PassingArgs, target: nat)
    requires Session.Inv(cfg, st) && st.started && st.ws.active && |st.ws.sockets| == 1 && st.ws.socket == Some(0)
    requires st.cur == [] && st.from == [] && st.frames == []
    ensures var st' := Next(cfg, st, On(Received(0, Binary(Beginning(a))), Some(target)));
            && Session.Inv(cfg, st') && st'.ws == st.ws && st'.cur == Beginning(a) && st'.frames == []
  {
    BeginningIsOpen(a);
    hide Beginning, Next, Step;
    Delivered(cfg, st, 0, Beginning(a), target);
    NextKeeps(cfg, st, On(Received(0, Binary(Beginning(a))), Some(target)));
    ScanOpen(true, Beginning(a));
    TagScanErases([], [], Beginning(a), 0, st.at);
    assert |Erased(TagScanFrom([], [], Beginning(a), 0, st.at).frames)| == 0;
  }

  /** With the beginning of one record in its buffer, the decoder takes the end of any other for the rest of it. */
  lemma ResumedForges(cfg: Config, st: State, a: PassingArgs, b: PassingArgs, target: nat)
    requires WsClient.Inv(cfg, st.ws) && st.cur == Beginning(a) && st.frames == []
    ensures var st' := ResumeAnd(cfg, st, Ending(b), target);
            |st'.frames| == 1 && Parse(st'.frames[0].frame) == Passing(PassingRecordOf(Mixed(a, b)))
  {
    hide Resume, ResumeAnd;
    ResumedMessage(cfg, st, Ending(b), target);
    var s, at := Resume(cfg, st).ws.socket.value, Resume(cfg, st).at;
    TagScanErases(st.cur, st.from, Ending(b), s, at);
    EndingFinishes(a, b);
    PassingRoundTrip(Mixed(a, b));
    hide *;
    OneErased(TagScanFrom(st.cur, st.from, Ending(b), s, at).frames, PassingWire(Mixed(a, b)));
  }

  /**
   * For any two records: a forced reconnect between the beginning of one and the end of the other
   * makes the decoder report a record with the transponder of the first and the time of the second.
   */
  lemma ForcedReconnectForges(cfg: Config, a: PassingArgs, b: PassingArgs, target: nat)
    requires cfg.hasVisibility
    ensures var st := AfterForceAnd(cfg, RunFrom(cfg, BEGIN, Before(a, target)), Ending(b), target);
            && |st.frames| == 1
            && Parse(st.frames[0].frame) == Passing(PassingRecordOf(Mixed(a, b)))
  {
    var st := RunFrom(cfg, BEGIN, Before(a, target));
    StateBefore(cfg, a, target);
    hide RunFrom, AfterForce, ResumeAnd, Beginning;
    ForceKeepsBuffer(cfg, st);
    ResumedForges(cfg, AfterForce(cfg, st), a, b, target);
  }

  /** The same without a forced reconnect, when the connection is lost while the store is stopped. */
  lemma StoppedStoreForges(cfg: Config, a: PassingArgs, b: PassingArgs, target: nat, draw: real)
    ensures var st := RunFrom(cfg, BEGIN, Before(a, target));
            var st' := ResumeAnd(cfg, Next(cfg, Next(cfg, st, StopStore), On(Closed(0, draw), None)), Ending(b), target);
            && |st'.frames| == 1
            && Parse(st'.frames[0].frame) == Passing(PassingRecordOf(Mixed(a, b)))
  {
    var st := RunFrom(cfg, BEGIN, Before(a, target));
    StateBefore(cfg, a, target);
    hide RunFrom, ResumeAnd, Beginning;
    var st1 := Next(cfg, st, StopStore);
    OneOut(cfg, st1, Closed(0, draw), None);
    StepKeeps(cfg, st1.ws, Closed(0, draw));
    ResumedForges(cfg, Next(cfg, st1, On(Closed(0, draw), None)), a, b, target);
  }

  /**
   * And on one connection, when the settings hold no target while the rest of one record and the start
   * of another pass by.
   */
  lemma NoTargetForges(cfg: Config, a: PassingArgs, b: PassingArgs, target: nat)
    ensures var st := RunFrom(cfg, BEGIN, Before(a, target));
            var missed := Received(0, Binary(Ending(a) + Beginning(b)));
            var st' := ResumeAnd(cfg, Next(cfg, st, On(missed, None)), Ending(b), target);
            && |st'.frames| == 1
            && Parse(st'.frames[0].frame) == Passing(PassingRecordOf(Mixed(a, b)))
  {
    var st := RunFrom(cfg, BEGIN, Before(a, target));
    StateBefore(cfg, a, target);
    hide RunFrom, ResumeAnd, Beginning, Ending;
    var event := Received(0, Binary(Ending(a) + Beginning(b)));
    OneOut(cfg, st, event, None);
    StepKeeps(cfg, st.ws, event);
    ResumedForges(cfg, Next(cfg, st, On(event, None)), a, b, target);
  }

  lemma OneErased(frames: seq<TaggedFrame>, w: seq<Byte>)
    requires Erased(frames) == [w]
    ensures |frames| == 1 && frames[0].frame == w && [] + frames == frames
  {
    assert |Erased(frames)| == |frames|;
    assert Erased(frames)[0] == frames[0].frame;
  }
}

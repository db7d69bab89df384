/**
 * Client, store and decoder together (web/src/transport/wsClient.ts,
 * web/src/features/laps/passingsStore.ts, web/src/protocol/frame.ts): which bytes of which socket a
 * frame is made of. The store drops the decoder's buffer on a close or a disconnect, provided that it
 * is started; a forced reconnect only announces a new connection.
 */
module Session {
  import opened Bytes
  import opened Wire
  import opened Framing
  import opened WsClient

  // ---- Scanning with provenance ----

  /** Byte number at of the binary data that a socket delivered. */
  datatype Tag = Tag(socket: SocketId, at: nat)

  /** A frame and, byte by byte, where it came from. */
  datatype TaggedFrame = TaggedFrame(frame: seq<Byte>, from: seq<Tag>)

  datatype TagScan = TagScan(frames: seq<TaggedFrame>, cur: seq<Byte>, from: seq<Tag>)

  function TagAdvance(cur: seq<Byte>, from: seq<Tag>, b: Byte, t: Tag): TagScan {
    if cur == [] then TagScan([], if b == SOR then [b] else [], if b == SOR then [t] else [])
    else if Closes(true, cur, b) then TagScan([TaggedFrame(cur + [b], from + [t])], [], [])
    else TagScan([], cur + [b], from + [t])
  }

  /** The scanner of Framing on bytes of socket s from byte number at on. */
  function TagScanFrom(cur: seq<Byte>, from: seq<Tag>, bytes: seq<Byte>, s: SocketId, at: nat): TagScan
    decreases |bytes|
  {
    if bytes == [] then TagScan([], cur, from)
    else
      var first := TagAdvance(cur, from, bytes[0], Tag(s, at));
      var rest := TagScanFrom(first.cur, first.from, bytes[1..], s, at + 1);
      TagScan(first.frames + rest.frames, rest.cur, rest.from)
  }

  function Erased(frames: seq<TaggedFrame>): seq<seq<Byte>> {
    seq(|frames|, i requires 0 <= i < |frames| => frames[i].frame)
  }

  /** Without the provenance it is the scanner of Framing. */
  lemma {:induction false} TagScanErases(cur: seq<Byte>, from: seq<Tag>, bytes: seq<Byte>, s: SocketId, at: nat)
    ensures var r := TagScanFrom(cur, from, bytes, s, at);
            Scan(Erased(r.frames), r.cur) == ScanFrom(true, cur, bytes)
    decreases |bytes|
  {
    if bytes == [] {
    } else {
      var first := TagAdvance(cur, from, bytes[0], Tag(s, at));
      TagScanErases(first.cur, first.from, bytes[1..], s, at + 1);
      ErasedAppend(first.frames, TagScanFrom(first.cur, first.from, bytes[1..], s, at + 1).frames);
    }
  }

  lemma ErasedAppend(a: seq<TaggedFrame>, b: seq<TaggedFrame>)
    ensures Erased(a + b) == Erased(a) + Erased(b)
  {}

  predicate AllFrom(from: seq<Tag>, s: SocketId) {
    forall t :: t in from ==> t.socket == s
  }

  /** Consecutive bytes of socket s, the last of them just before byte number end. */
  predicate Stretch(from: seq<Tag>, s: SocketId, end: nat) {
    |from| <= end && forall i :: 0 <= i < |from| ==> from[i] == Tag(s, end - |from| + i)
  }

  predicate SingleSocket(f: TaggedFrame) {
    && |f.from| == |f.frame|
    && forall i, j :: 0 <= i < |f.from| && 0 <= j < |f.from| ==> f.from[i].socket == f.from[j].socket
  }

  /** A stretch of consecutive bytes of one socket. */
  predicate Contiguous(f: TaggedFrame) {
    && |f.from| == |f.frame|
    && forall i :: 0 <= i < |f.from| ==> f.from[i] == Tag(f.from[0].socket, f.from[0].at + i)
  }

  lemma {:induction false} OneSocketScan(cur: seq<Byte>, from: seq<Tag>, bytes: seq<Byte>, s: SocketId, at: nat)
    requires |from| == |cur| && AllFrom(from, s)
    ensures var r := TagScanFrom(cur, from, bytes, s, at);
            && |r.from| == |r.cur| && AllFrom(r.from, s)
            && forall f :: f in r.frames ==> SingleSocket(f)
    decreases |bytes|
  {
    if bytes == [] {
    } else {
      var first := TagAdvance(cur, from, bytes[0], Tag(s, at));
      OneSocketScan(first.cur, first.from, bytes[1..], s, at + 1);
      var longer := from + [Tag(s, at)];
      forall i | 0 <= i < |longer| ensures longer[i].socket == s {
        assert i < |from| ==> longer[i] in from;
      }
      assert forall f :: f in first.frames ==> f.from == longer;
    }
  }

  lemma {:induction false} OneStretchScan(cur: seq<Byte>, from: seq<Tag>, bytes: seq<Byte>, s: SocketId, at: nat)
    requires |from| == |cur| && Stretch(from, s, at)
    ensures var r := TagScanFrom(cur, from, bytes, s, at);
            && |r.from| == |r.cur| && Stretch(r.from, s, at + |bytes|)
            && forall f :: f in r.frames ==> Contiguous(f)
    decreases |bytes|
  {
    if bytes == [] {
    } else {
      var first := TagAdvance(cur, from, bytes[0], Tag(s, at));
      var longer := from + [Tag(s, at)];
      assert Stretch(longer, s, at + 1);
      OneStretchScan(first.cur, first.from, bytes[1..], s, at + 1);
      assert forall f :: f in first.frames ==> f.from == longer && Contiguous(f);
    }
  }

  // ---- The session ----

  datatype State = State(
    ws: Ws,
    started: bool,                 // the store is subscribed to the client
    at: nat,                       // binary bytes the current socket has delivered
    cur: seq<Byte>,                // the decoder's buffer
    from: seq<Tag>,                // where its bytes came from
    frames: seq<TaggedFrame>)      // every frame the decoder has cut

  /** An event, with the target transponder in the settings when it is handled; or a call of the store. */
  datatype Input = On(event: Event, target: Option<nat>) | StartStore | StopStore | ResetStore

  const BEGIN := State(START, false, 0, [], [], [])

  /** The handlers of a started store. */
  function Handle(st: State, out: Out, target: Option<nat>): State {
    match out
    case Disconnected => st.(cur := [], from := [])
    case Reconnecting(_, _) => st.(cur := [], from := [])
    case Message(s, Binary(bytes)) =>
      if target.None? then st
      else
        var r := TagScanFrom(st.cur, st.from, bytes, s, st.at);
        st.(cur := r.cur, from := r.from, frames := st.frames + r.frames)
    case _ => st
  }

  function BytesOf(out: Out): nat {
    if out.Message? && out.data.Binary? then |out.data.bytes| else 0
  }

  function HandleAll(st: State, outs: seq<Out>, target: Option<nat>): State
    decreases |outs|
  {
    if outs == [] then st
    else
      var handled := if st.started then Handle(st, outs[0], target) else st;
      HandleAll(handled.(at := st.at + BytesOf(outs[0])), outs[1..], target)
  }

  /** Neither starting nor stopping the store touches the decoder. */
  function Next(cfg: Config, st: State, input: Input): State {
    match input
    case StartStore => st.(started := true)
    case StopStore => st.(started := false)
    case ResetStore => st.(cur := [], from := [])
    case On(event, target) =>
      var (ws, outs) := Step(cfg, st.ws, event);
      HandleAll(st.(ws := ws, at := if ws.socket == st.ws.socket then st.at else 0), outs, target)
  }

  function RunFrom(cfg: Config, st: State, inputs: seq<Input>): State {
    if inputs == [] then st else Next(cfg, RunFrom(cfg, st, inputs[..|inputs| - 1]), inputs[|inputs| - 1])
  }

  /** The client gives up its socket, and says so. */
  predicate Leaves(w: Ws, e: Event) {
    e.Disconnect? || (e.Closed? && w.socket == Some(e.socket))
  }

  /** While the decoder holds an unfinished frame, the socket changes without the store resetting. */
  predicate Stitches(cfg: Config, st: State, input: Input) {
    input.On? && st.cur != [] && (Forces(cfg, st.ws, input.event) || (!st.started && Leaves(st.ws, input.event)))
  }

  /** While the decoder holds an unfinished frame, the current socket delivers bytes that do not reach it. */
  predicate Skips(st: State, input: Input) {
    && input.On? && st.cur != []
    && input.event.Received? && st.ws.socket == Some(input.event.socket)
    && input.event.data.Binary? && input.event.data.bytes != []
    && !(st.started && input.target.Some?)
  }

  predicate NeverStitches(cfg: Config, inputs: seq<Input>) {
    inputs == [] ||
    (NeverStitches(cfg, inputs[..|inputs| - 1])
     && !Stitches(cfg, RunFrom(cfg, BEGIN, inputs[..|inputs| - 1]), inputs[|inputs| - 1]))
  }

  predicate NeverSkips(cfg: Config, inputs: seq<Input>) {
    inputs == [] ||
    (NeverSkips(cfg, inputs[..|inputs| - 1])
     && !Skips(RunFrom(cfg, BEGIN, inputs[..|inputs| - 1]), inputs[|inputs| - 1]))
  }

  // ---- One socket per frame ----

  /** What is buffered came from the current socket, and every frame so far from one socket. */
  ghost predicate Inv(cfg: Config, st: State) {
    && WsClient.Inv(cfg, st.ws)
    && |st.from| == |st.cur|
    && IsResidue(true, st.cur)
    && (st.cur != [] ==> st.ws.socket.Some? && AllFrom(st.from, st.ws.socket.value))
    && (forall f :: f in st.frames ==> SingleSocket(f))
  }

  /** One event of the client, spelled out. */
  function OnOne(st: State, ws: Ws, outs: seq<Out>, target: Option<nat>): State {
    var st' := st.(ws := ws, at := if ws.socket == st.ws.socket then st.at else 0);
    if outs == [] then st'
    else (if st.started then Handle(st', outs[0], target) else st').(at := st'.at + BytesOf(outs[0]))
  }

  lemma OneOut(cfg: Config, st: State, e: Event, target: Option<nat>)
    ensures var (ws, outs) := Step(cfg, st.ws, e);
            |outs| <= 1 && Next(cfg, st, On(e, target)) == OnOne(st, ws, outs, target)
  {
    SocketsGrow(cfg, st.ws, e);
    var (ws, outs) := Step(cfg, st.ws, e);
    hide Step;
    if outs != [] {
      assert outs[1..] == [];
      assert HandleAll(OnOne(st, ws, outs, target), [], target) == OnOne(st, ws, outs, target);
    }
  }

  /** The client leaves its socket by a forced reconnect or by saying so. */
  lemma SocketChanges(cfg: Config, w: Ws, e: Event)
    requires WsClient.Inv(cfg, w) && w.socket.Some? && !Forces(cfg, w, e)
    ensures var (w', outs) := Step(cfg, w, e);
            if Leaves(w, e) then w'.socket == None && |outs| == 1 && (outs[0].Disconnected? || outs[0].Reconnecting?)
            else w'.socket == w.socket
  {}

  lemma PushKeeps(st: State, s: SocketId, bytes: seq<Byte>)
    requires |st.from| == |st.cur| && AllFrom(st.from, s) && IsResidue(true, st.cur)
    requires forall f :: f in st.frames ==> SingleSocket(f)
    ensures var st' := Handle(st, Message(s, Binary(bytes)), Some(0));
            && |st'.from| == |st'.cur| && AllFrom(st'.from, s) && IsResidue(true, st'.cur)
            && forall f :: f in st'.frames ==> SingleSocket(f)
  {
    OneSocketScan(st.cur, st.from, bytes, s, st.at);
    TagScanErases(st.cur, st.from, bytes, s, st.at);
    ScanWellFormed(true, st.cur, bytes);
  }

  lemma NextKeeps(cfg: Config, st: State, input: Input)
    requires Inv(cfg, st) && !Stitches(cfg, st, input)
    ensures Inv(cfg, Next(cfg, st, input))
  {
    if input.On? {
      var (ws, outs) := Step(cfg, st.ws, input.event);
      OneOut(cfg, st, input.event, input.target);
      StepKeeps(cfg, st.ws, input.event);
      if outs != [] && outs[0].Message? {
        MessageFromCurrent(cfg, st.ws, input.event, outs[0]);
        if outs[0].data.Binary? {
          PushKeeps(st, outs[0].socket, outs[0].data.bytes);
        }
      } else if st.cur != [] {
        SocketChanges(cfg, st.ws, input.event);
      }
    }
  }

  /**
   * On every run in which the socket never changes behind the store's back while the decoder holds an
   * unfinished frame, each frame consists of bytes of one socket.
   */
  lemma {:induction false} NoStitching(cfg: Config, inputs: seq<Input>)
    requires NeverStitches(cfg, inputs)
    ensures Inv(cfg, RunFrom(cfg, BEGIN, inputs))
    decreases |inputs|
  {
    if inputs == [] {
    } else {
      NoStitching(cfg, inputs[..|inputs| - 1]);
      NextKeeps(cfg, RunFrom(cfg, BEGIN, inputs[..|inputs| - 1]), inputs[|inputs| - 1]);
    }
  }

  /** The visibility hook forces no reconnect, and the store is not stopped. */
  predicate NeverForcedNorStopped(cfg: Config, inputs: seq<Input>) {
    inputs == [] ||
    (NeverForcedNorStopped(cfg, inputs[..|inputs| - 1])
     && inputs[|inputs| - 1] != StopStore
     && (inputs[|inputs| - 1].On? ==>
           !Forces(cfg, RunFrom(cfg, BEGIN, inputs[..|inputs| - 1]).ws, inputs[|inputs| - 1].event)))
  }

  /** In particular on every run without forced reconnects in which the store, once started, is not stopped. */
  lemma {:induction false} NoStitchingUnlessForced(cfg: Config, inputs: seq<Input>)
    requires NeverForcedNorStopped(cfg, inputs)
    ensures NeverStitches(cfg, inputs)
    ensures forall f :: f in RunFrom(cfg, BEGIN, inputs).frames ==> SingleSocket(f)
    ensures RunFrom(cfg, BEGIN, inputs).started || RunFrom(cfg, BEGIN, inputs).cur == []
    decreases |inputs|
  {
    if inputs == [] {
    } else {
      var before, input := RunFrom(cfg, BEGIN, inputs[..|inputs| - 1]), inputs[|inputs| - 1];
      NoStitchingUnlessForced(cfg, inputs[..|inputs| - 1]);
      if input.On? {
        OneOut(cfg, before, input.event, input.target);
      }
    }
    NoStitching(cfg, inputs);
  }

  // ---- Consecutive bytes ----

  /** What is buffered are the latest bytes of the current socket, and every frame a stretch of one socket's bytes. */
  ghost predicate Tight(st: State) {
    && (st.cur != [] && st.ws.socket.Some? ==> Stretch(st.from, st.ws.socket.value, st.at))
    && (forall f :: f in st.frames ==> Contiguous(f))
  }

  lemma NextTight(cfg: Config, st: State, input: Input)
    requires Inv(cfg, st) && Tight(st) && !Stitches(cfg, st, input) && !Skips(st, input)
    ensures Tight(Next(cfg, st, input))
  {
    if input.On? {
      var (ws, outs) := Step(cfg, st.ws, input.event);
      OneOut(cfg, st, input.event, input.target);
      if outs != [] && outs[0].Message? {
        MessageFromCurrent(cfg, st.ws, input.event, outs[0]);
        if outs[0].data.Binary? {
          OneStretchScan(st.cur, st.from, outs[0].data.bytes, outs[0].socket, st.at);
        }
      } else if st.cur != [] {
        SocketChanges(cfg, st.ws, input.event);
      }
    }
  }

  /** If besides no bytes are skipped inside a frame, each frame is a stretch of consecutive bytes of its socket. */
  lemma {:induction false} NoGaps(cfg: Config, inputs: seq<Input>)
    requires NeverStitches(cfg, inputs) && NeverSkips(cfg, inputs)
    ensures Inv(cfg, RunFrom(cfg, BEGIN, inputs)) && Tight(RunFrom(cfg, BEGIN, inputs))
    decreases |inputs|
  {
    NoStitching(cfg, inputs);
    if inputs == [] {
    } else {
      NoGaps(cfg, inputs[..|inputs| - 1]);
      NextTight(cfg, RunFrom(cfg, BEGIN, inputs[..|inputs| - 1]), inputs[|inputs| - 1]);
    }
  }

  // ---- When a frame is not from one socket, or not from consecutive bytes ----

  /** The store is started, the client connected, and the client's socket delivers these bytes. */
  function Resume(cfg: Config, st: State): State {
    Next(cfg, Next(cfg, st, StartStore), On(Connect, None))
  }

  function ResumeAnd(cfg: Config, st: State, bytes: seq<Byte>, target: nat): State {
    var st' := Resume(cfg, st);
    if st'.ws.socket.None? then st'
    else Next(cfg, st', On(Received(st'.ws.socket.value, Binary(bytes)), Some(target)))
  }

  lemma ResumeKeepsBuffer(cfg: Config, st: State)
    requires WsClient.Inv(cfg, st.ws)
    ensures var st' := Resume(cfg, st);
            && WsClient.Inv(cfg, st'.ws) && st'.started
            && st'.cur == st.cur && st'.from == st.from && st'.frames == st.frames
            && st'.ws.socket == Some(if st.ws.socket.Some? then st.ws.socket.value else |st.ws.sockets|)
            && st'.at == (if st.ws.socket.Some? then st.at else 0)
  {
    var st1 := Next(cfg, st, StartStore);
    OneOut(cfg, st1, Connect, None);
    StepKeeps(cfg, st1.ws, Connect);
  }

  /** What a binary message of the client's socket does while the store is started and has a target. */
  lemma Delivered(cfg: Config, st: State, s: SocketId, bytes: seq<Byte>, target: nat)
    requires WsClient.Inv(cfg, st.ws) && st.started && st.ws.socket == Some(s)
    ensures var r := TagScanFrom(st.cur, st.from, bytes, s, st.at);
            Next(cfg, st, On(Received(s, Binary(bytes)), Some(target)))
            == st.(at := st.at + |bytes|, cur := r.cur, from := r.from, frames := st.frames + r.frames)
  {
    OneOut(cfg, st, Received(s, Binary(bytes)), Some(target));
  }

  lemma ResumedMessage(cfg: Config, st: State, bytes: seq<Byte>, target: nat)
    requires WsClient.Inv(cfg, st.ws)
    ensures var st' := Resume(cfg, st);
            && st'.ws.socket.Some?
            && ResumeAnd(cfg, st, bytes, target).frames
               == st.frames + TagScanFrom(st.cur, st.from, bytes, st'.ws.socket.value, st'.at).frames
  {
    ResumeKeepsBuffer(cfg, st);
    hide Resume, Next;
    var st' := Resume(cfg, st);
    Delivered(cfg, st', st'.ws.socket.value, bytes, target);
  }

  lemma EorCloses(cur: seq<Byte>, from: seq<Tag>, s: SocketId, at: nat)
    requires cur != [] && !Dangling(cur[1..])
    ensures TagScanFrom(cur, from, [EOR], s, at) == TagScan([TaggedFrame(cur + [EOR], from + [Tag(s, at)])], [], [])
  {
    var r := TagAdvance(cur, from, EOR, Tag(s, at));
    assert [EOR][1..] == [];
    assert TagScanFrom(r.cur, r.from, [], s, at + 1) == TagScan([], [], []);
  }

  lemma TaggedFinish(cur: seq<Byte>, from: seq<Tag>, s: SocketId, at: nat)
    requires IsOpen(true, cur)
    ensures TagScanFrom(cur, from, Finish(cur), s, at).frames
            == [TaggedFrame(cur + Finish(cur),
                            from + (if Dangling(cur[1..]) then [Tag(s, at), Tag(s, at + 1)] else [Tag(s, at)]))]
  {
    if Dangling(cur[1..]) {
      var cur', from' := cur + [0], from + [Tag(s, at)];
      DanglingSnoc(cur[1..], 0);
      assert cur'[1..] == cur[1..] + [0];
      assert [0, EOR][1..] == [EOR];
      assert TagAdvance(cur, from, 0, Tag(s, at)) == TagScan([], cur', from');
      EorCloses(cur', from', s, at + 1);
      assert cur' + [EOR] == cur + [0, EOR] && from' + [Tag(s, at + 1)] == from + [Tag(s, at), Tag(s, at + 1)];
    } else {
      EorCloses(cur, from, s, at);
    }
  }

  /** A frame left unfinished can be finished with the next bytes of the socket the client ends up with. */
  lemma Finished(cfg: Config, st: State, target: nat) returns (f: TaggedFrame)
    requires WsClient.Inv(cfg, st.ws) && |st.from| == |st.cur| && IsOpen(true, st.cur)
    ensures f in ResumeAnd(cfg, st, Finish(st.cur), target).frames
    ensures var st' := Resume(cfg, st);
            && st'.ws.socket.Some? && |f.from| > |st.cur| && f.from[..|st.cur|] == st.from
            && f.from[|st.cur|] == Tag(st'.ws.socket.value, st'.at)
  {
    ResumeKeepsBuffer(cfg, st);
    ResumedMessage(cfg, st, Finish(st.cur), target);
    var st' := Resume(cfg, st);
    TaggedFinish(st.cur, st.from, st'.ws.socket.value, st'.at);
    hide ResumeAnd, Resume, TagScanFrom;
    f := TagScanFrom(st.cur, st.from, Finish(st.cur), st'.ws.socket.value, st'.at).frames[0];
  }

  /** The buffer belongs to a socket that is no longer the client's. */
  lemma Stitched(cfg: Config, st: State, s: SocketId, target: nat)
    requires WsClient.Inv(cfg, st.ws) && |st.from| == |st.cur| && IsOpen(true, st.cur)
    requires AllFrom(st.from, s) && s < |st.ws.sockets| && st.ws.socket != Some(s)
    ensures exists f :: f in ResumeAnd(cfg, st, Finish(st.cur), target).frames && !SingleSocket(f)
  {
    ResumeKeepsBuffer(cfg, st);
    var f := Finished(cfg, st, target);
    hide ResumeAnd, Resume;
    assert st.from[0] in st.from;
    assert f.from[0] == f.from[..|st.cur|][0];
    assert !SingleSocket(f);
  }

  lemma ResumedKeeps(cfg: Config, st: State, bytes: seq<Byte>, target: nat)
    requires Inv(cfg, st)
    ensures Inv(cfg, ResumeAnd(cfg, st, bytes, target))
    ensures Tight(st) ==> Tight(ResumeAnd(cfg, st, bytes, target))
  {
    ResumeKeepsBuffer(cfg, st);
    ResumedMessage(cfg, st, bytes, target);
    var st1 := Next(cfg, st, StartStore);
    NextKeeps(cfg, st1, On(Connect, None));
    var st' := Resume(cfg, st);
    NextKeeps(cfg, st', On(Received(st'.ws.socket.value, Binary(bytes)), Some(target)));
    if Tight(st) {
      NextTight(cfg, st1, On(Connect, None));
      NextTight(cfg, st', On(Received(st'.ws.socket.value, Binary(bytes)), Some(target)));
    }
  }

  lemma StitchesChanges(cfg: Config, st: State, input: Input)
    requires Inv(cfg, st) && Stitches(cfg, st, input)
    ensures var st' := Next(cfg, st, input);
            && WsClient.Inv(cfg, st'.ws) && st'.cur == st.cur && st'.from == st.from
            && |st'.ws.sockets| >= |st.ws.sockets| && st'.ws.socket != st.ws.socket
  {
    OneOut(cfg, st, input.event, input.target);
    StepKeeps(cfg, st.ws, input.event);
    SocketsGrow(cfg, st.ws, input.event);
  }

  /**
   * Exactly the inputs that change the socket behind the back of an unfinished frame make a frame
   * with bytes of two sockets possible, whatever state was reached without such inputs.
   */
  lemma StitchingIff(cfg: Config, inputs: seq<Input>, input: Input, target: nat)
    requires NeverStitches(cfg, inputs)
    ensures var st := RunFrom(cfg, BEGIN, inputs);
            Stitches(cfg, st, input)
            <==> exists bytes, f :: f in ResumeAnd(cfg, Next(cfg, st, input), bytes, target).frames && !SingleSocket(f)
  {
    var st := RunFrom(cfg, BEGIN, inputs);
    NoStitching(cfg, inputs);
    var st' := Next(cfg, st, input);
    if Stitches(cfg, st, input) {
      StitchesChanges(cfg, st, input);
      hide ResumeAnd, Stitches, Next, RunFrom;
      Stitched(cfg, st', st.ws.socket.value, target);
    } else {
      NextKeeps(cfg, st, input);
      hide ResumeAnd, Stitches, Next, RunFrom;
      forall bytes ensures forall f :: f in ResumeAnd(cfg, st', bytes, target).frames ==> SingleSocket(f) {
        ResumedKeeps(cfg, st', bytes, target);
      }
    }
  }

  lemma SkipLeavesGap(cfg: Config, st: State, input: Input, target: nat)
    requires Inv(cfg, st) && Tight(st) && Skips(st, input)
    ensures exists f :: f in ResumeAnd(cfg, Next(cfg, st, input), Finish(st.cur), target).frames && !Contiguous(f)
  {
    var st' := Next(cfg, st, input);
    OneOut(cfg, st, input.event, input.target);
    StepKeeps(cfg, st.ws, input.event);
    assert st' == st.(at := st.at + |input.event.data.bytes|);
    hide Next, Step;
    ResumeKeepsBuffer(cfg, st');
    var f := Finished(cfg, st', target);
    hide ResumeAnd, Resume;
    assert f.from[0] == f.from[..|st.cur|][0] == st.from[0];
    assert !Contiguous(f);
  }

  /** Exactly those inputs, and those that skip bytes inside a frame, make a frame possible that is not consecutive. */
  lemma GapIff(cfg: Config, inputs: seq<Input>, input: Input, target: nat)
    requires NeverStitches(cfg, inputs) && NeverSkips(cfg, inputs)
    ensures var st := RunFrom(cfg, BEGIN, inputs);
            Stitches(cfg, st, input) || Skips(st, input)
            <==> exists bytes, f :: f in ResumeAnd(cfg, Next(cfg, st, input), bytes, target).frames && !Contiguous(f)
  {
    var st := RunFrom(cfg, BEGIN, inputs);
    NoGaps(cfg, inputs);
    StitchingIff(cfg, inputs, input, target);
    var st' := Next(cfg, st, input);
    if Stitches(cfg, st, input) {
      hide ResumeAnd, Stitches, Next, RunFrom;
      var bytes, f :| f in ResumeAnd(cfg, st', bytes, target).frames && !SingleSocket(f);
      assert !Contiguous(f);
    } else if Skips(st, input) {
      hide ResumeAnd, Stitches, Next, RunFrom;
      SkipLeavesGap(cfg, st, input, target);
    } else {
      NextKeeps(cfg, st, input);
      NextTight(cfg, st, input);
      hide ResumeAnd, Stitches, Next, RunFrom;
      forall bytes ensures forall f :: f in ResumeAnd(cfg, st', bytes, target).frames ==> Contiguous(f) {
        ResumedKeeps(cfg, st', bytes, target);
      }
    }
  }

  // ---- Forced reconnects ----

  /** The page is hidden and shown again, just long enough to force a reconnect. */
  function AfterForce(cfg: Config, st: State): State {
    var since := if st.ws.lastHiddenAt.Some? then st.ws.lastHiddenAt.value else 0;
    var hidden := Next(cfg, st, On(VisibilityChanged(true, since), None));
    Next(cfg, hidden, On(VisibilityChanged(false, since + cfg.threshold), None))
  }

  /** Then the new socket delivers these bytes. */
  function AfterForceAnd(cfg: Config, st: State, bytes: seq<Byte>, target: nat): State {
    ResumeAnd(cfg, AfterForce(cfg, st), bytes, target)
  }

  lemma Hiding(cfg: Config, st: State, since: int)
    requires Inv(cfg, st) && st.ws.active && cfg.hasVisibility
    requires st.ws.lastHiddenAt.Some? ==> st.ws.lastHiddenAt.value == since
    ensures Next(cfg, st, On(VisibilityChanged(true, since), None)) == st.(ws := st.ws.(lastHiddenAt := Some(since)))
  {
    OneOut(cfg, st, VisibilityChanged(true, since), None);
  }

  lemma Showing(cfg: Config, st: State, now: int)
    requires WsClient.Inv(cfg, st.ws) && Forces(cfg, st.ws, VisibilityChanged(false, now))
    ensures var st' := Next(cfg, st, On(VisibilityChanged(false, now), None));
            && WsClient.Inv(cfg, st'.ws) && Current(st'.ws, |st.ws.sockets|) && st'.at == 0
            && st'.cur == st.cur && st'.from == st.from && st'.frames == st.frames
  {
    OneOut(cfg, st, VisibilityChanged(false, now), None);
    StepKeeps(cfg, st.ws, VisibilityChanged(false, now));
  }

  lemma ForceKeepsBuffer(cfg: Config, st: State)
    requires Inv(cfg, st) && st.ws.active && cfg.hasVisibility
    ensures var st' := AfterForce(cfg, st);
            && WsClient.Inv(cfg, st'.ws) && Current(st'.ws, |st.ws.sockets|) && st'.at == 0
            && st'.cur == st.cur && st'.from == st.from && st'.frames == st.frames
  {
    var since := if st.ws.lastHiddenAt.Some? then st.ws.lastHiddenAt.value else 0;
    Hiding(cfg, st, since);
    hide Next;
    Showing(cfg, st.(ws := st.ws.(lastHiddenAt := Some(since))), since + cfg.threshold);
  }

  lemma MessageAfterForce(cfg: Config, st: State, bytes: seq<Byte>, target: nat)
    requires Inv(cfg, st) && st.ws.active && cfg.hasVisibility
    ensures AfterForceAnd(cfg, st, bytes, target).frames
            == st.frames + TagScanFrom(st.cur, st.from, bytes, |st.ws.sockets|, 0).frames
  {
    ForceKeepsBuffer(cfg, st);
    hide AfterForce;
    ResumeKeepsBuffer(cfg, AfterForce(cfg, st));
    ResumedMessage(cfg, AfterForce(cfg, st), bytes, target);
  }

  /**
   * In any state reached without stitches, forcing a reconnect now can lead to a frame with bytes of two
   * sockets exactly when the decoder holds an unfinished frame.
   */
  lemma StitchingPossibleIff(cfg: Config, inputs: seq<Input>, target: nat)
    requires NeverStitches(cfg, inputs) && cfg.hasVisibility && RunFrom(cfg, BEGIN, inputs).ws.active
    ensures var st := RunFrom(cfg, BEGIN, inputs);
            (exists bytes, f :: f in AfterForceAnd(cfg, st, bytes, target).frames && !SingleSocket(f)) <==> st.cur != []
  {
    NoStitching(cfg, inputs);
    var st := RunFrom(cfg, BEGIN, inputs);
    hide RunFrom, NeverStitches, Inv, AfterForceAnd;
    if st.cur == [] {
      NothingToStitch(cfg, st, target);
    } else {
      ForceStitches(cfg, st, target);
    }
  }

  lemma NothingToStitch(cfg: Config, st: State, target: nat)
    requires Inv(cfg, st) && st.ws.active && cfg.hasVisibility && st.cur == []
    ensures forall bytes, f :: f in AfterForceAnd(cfg, st, bytes, target).frames ==> SingleSocket(f)
  {
    hide AfterForceAnd;
    forall bytes, f | f in AfterForceAnd(cfg, st, bytes, target).frames ensures SingleSocket(f) {
      MessageAfterForce(cfg, st, bytes, target);
      OneSocketScan([], [], bytes, |st.ws.sockets|, 0);
    }
  }

  lemma ForceStitches(cfg: Config, st: State, target: nat)
    requires Inv(cfg, st) && st.ws.active && cfg.hasVisibility && st.cur != []
    ensures exists f :: f in AfterForceAnd(cfg, st, Finish(st.cur), target).frames && !SingleSocket(f)
  {
    ForceKeepsBuffer(cfg, st);
    hide AfterForce, ResumeAnd;
    Stitched(cfg, AfterForce(cfg, st), st.ws.socket.value, target);
  }
}

/**
 * From the source to the phone: the read loop (gateway/cmd/gateway/main.go) feeds recorder and hub,
 * the hub drops whole messages, each delivered message is one push into the web client's decoder.
 */
module Pipeline {
  import opened Bytes
  import opened Framing
  import opened Records
  import opened Recording
  import opened HubProtocol
  import Hub
  import LapStore
  import Mock
  import Encoder
  import Stitching

  // ---- Losing whole messages ----

  ghost predicate AllComplete(msgs: seq<seq<Byte>>) {
    forall m :: m in msgs ==> Complete(m)
  }

  ghost predicate OneFrameEach(msgs: seq<seq<Byte>>) {
    forall m :: m in msgs ==> IsFrame(true, m)
  }

  predicate Within(at: seq<nat>, n: nat) {
    forall i :: 0 <= i < |at| ==> at[i] < n
  }

  /** The records of each message by itself, one message after the other. */
  function DecodeEach(msgs: seq<seq<Byte>>): seq<ParseResult> {
    if msgs == [] then [] else Decode(msgs[0]) + DecodeEach(msgs[1..])
  }

  lemma {:induction false} CompleteThenAny(msgs: seq<seq<Byte>>, rest: seq<seq<Byte>>)
    requires AllComplete(msgs)
    ensures DecodeChunks([], msgs + rest) == DecodeEach(msgs) + DecodeChunks([], rest)
    decreases |msgs|
  {
    hide ScanFrom, Parse;
    if msgs == [] {
      assert [] + rest == rest;
      assert [] + DecodeChunks([], rest) == DecodeChunks([], rest);
    } else {
      assert msgs[0] in msgs;
      CompleteThenAny(msgs[1..], rest);
      assert (msgs + rest)[1..] == msgs[1..] + rest;
      Assoc(Decode(msgs[0]), DecodeEach(msgs[1..]), DecodeChunks([], rest));
    }
  }

  lemma SelectComplete(msgs: seq<seq<Byte>>, at: seq<nat>)
    requires AllComplete(msgs) && Within(at, |msgs|)
    ensures AllComplete(Select(msgs, at))
  {
    forall m | m in Select(msgs, at) ensures Complete(m) {
      var i :| 0 <= i < |at| && Select(msgs, at)[i] == m;
      assert msgs[at[i]] in msgs;
    }
  }

  /** Pushing any selection of complete messages reports exactly the records of the selected ones. */
  lemma SurvivorsDecode(msgs: seq<seq<Byte>>, at: seq<nat>)
    requires AllComplete(msgs) && Within(at, |msgs|)
    ensures DecodeChunks([], Select(msgs, at)) == DecodeEach(Select(msgs, at))
  {
    SelectComplete(msgs, at);
    hide AllComplete;
    var survivors := Select(msgs, at);
    CompleteThenAny(survivors, []);
    assert survivors + [] == survivors;
    assert DecodeEach(survivors) + DecodeChunks([], []) == DecodeEach(survivors);
  }

  lemma OneChunk(t: seq<Byte>)
    ensures DecodeChunks([], [t]) == Decode(t)
  {
    DecodingIgnoresChunking([t]);
    ConcatOne(t);
  }

  lemma IncompleteExposed(m: seq<Byte>)
    requires !Complete(m)
    ensures var t := Finish(ScanFrom(true, [], m).cur); DecodeChunks([], [m] + [t]) != DecodeEach([m]) + Decode(t)
  {
    var t := Finish(ScanFrom(true, [], m).cur);
    FinishExposes(m);
    DecodingIgnoresChunking([m] + [t]);
    ConcatAppend([m], [t]);
    ConcatOne(m);
    ConcatOne(t);
    assert [m][1..] == [];
    assert DecodeEach([m]) == Decode(m) + DecodeEach([]);
  }

  /**
   * Exactly the lists of complete messages can lose any of their messages, whatever message comes
   * next, without changing what the others are decoded to.
   */
  lemma SurvivorsDecodeIff(msgs: seq<seq<Byte>>)
    ensures (forall at, t :: Within(at, |msgs|) ==>
               DecodeChunks([], Select(msgs, at) + [t]) == DecodeEach(Select(msgs, at)) + Decode(t))
            <==> AllComplete(msgs)
  {
    hide ScanFrom, Parse, Decode, DecodeChunks, DecodeEach, Complete;
    if AllComplete(msgs) {
      forall at, t | Within(at, |msgs|)
        ensures DecodeChunks([], Select(msgs, at) + [t]) == DecodeEach(Select(msgs, at)) + Decode(t)
      {
        SelectComplete(msgs, at);
        CompleteThenAny(Select(msgs, at), [t]);
        OneChunk(t);
      }
    } else {
      var i :| 0 <= i < |msgs| && !Complete(msgs[i]);
      IncompleteExposed(msgs[i]);
      assert Within([i], |msgs|) && Select(msgs, [i]) == [msgs[i]];
    }
  }

  lemma OneFrameComplete(msgs: seq<seq<Byte>>)
    requires OneFrameEach(msgs)
    ensures AllComplete(msgs)
    ensures DecodeEach(msgs) == ParseAll(msgs)
    decreases |msgs|
  {
    hide IsFrame, Parse;
    forall m | m in msgs ensures Complete(m) && Decode(m) == [Parse(m)] {
      ScanFrame(true, m);
      assert ParseAll([m]) == [Parse(m)];
    }
    if msgs == [] {
    } else {
      assert msgs[0] in msgs;
      OneFrameComplete(msgs[1..]);
      hide Decode;
      assert ParseAll(msgs) == [Parse(msgs[0])] + ParseAll(msgs[1..]);
    }
  }

  lemma SelectedFrames(msgs: seq<seq<Byte>>, at: seq<nat>)
    requires OneFrameEach(msgs) && Within(at, |msgs|)
    ensures DecodeEach(Select(msgs, at)) == Select(ParseAll(msgs), at)
  {
    hide IsFrame, Parse, DecodeEach;
    forall m | m in Select(msgs, at) ensures IsFrame(true, m) {
      var i :| 0 <= i < |at| && Select(msgs, at)[i] == m;
      assert msgs[at[i]] in msgs;
    }
    OneFrameComplete(Select(msgs, at));
    assert ParseAll(Select(msgs, at)) == Select(ParseAll(msgs), at);
  }

  /**
   * In every interleaving of broadcasts, drops, receives, joins and removals: what a subscriber's
   * decoder has reported are the records of the messages delivered to it, in the order they were sent.
   */
  lemma SubscriberSeesWholeRecords(maxClients: int, bufferLen: int, steps: seq<Step>, id: ClientId, msgs: seq<seq<Byte>>)
    requires AllComplete(msgs) && id in Exec(New(maxClients, bufferLen), steps).clients
    requires |msgs| == Exec(New(maxClients, bufferLen), steps).total
    ensures var delivered := Exec(New(maxClients, bufferLen), steps).clients[id].delivered;
            && Increasing(delivered) && Within(delivered, |msgs|)
            && DecodeChunks([], Select(msgs, delivered)) == DecodeEach(Select(msgs, delivered))
            && (OneFrameEach(msgs) ==> DecodeEach(Select(msgs, delivered)) == Select(ParseAll(msgs), delivered))
  {
    DeliveryGuarantee(maxClients, bufferLen, steps, id);
    hide Exec, OneFrameEach, AllComplete, DecodeEach;
    var c := Exec(New(maxClients, bufferLen), steps).clients[id];
    IncreasingPrefix(c.delivered, c.queue);
    DeliveredWithin(c, |msgs|);
    SurvivorsDecode(msgs, c.delivered);
    if OneFrameEach(msgs) {
      SelectedFrames(msgs, c.delivered);
    }
  }

  /**
   * The lap history behind a phone's display is what filtering the surviving records for its
   * transponder gives; with LapsTelescope, dropped passings merge laps but never lose time between
   * the first and the last passing shown.
   */
  lemma PhoneHistory(maxClients: int, bufferLen: int, steps: seq<Step>, id: ClientId, msgs: seq<seq<Byte>>, target: nat)
    requires AllComplete(msgs) && id in Exec(New(maxClients, bufferLen), steps).clients
    requires |msgs| == Exec(New(maxClients, bufferLen), steps).total
    ensures var delivered := Exec(New(maxClients, bufferLen), steps).clients[id].delivered;
            && Within(delivered, |msgs|)
            && LapStore.HistoryOf([], Select(msgs, delivered), target)
               == LapStore.Matching(DecodeEach(Select(msgs, delivered)), target)
  {
    hide Exec, AllComplete, LapStore.HistoryOf, LapStore.Matching, DecodeEach;
    SubscriberSeesWholeRecords(maxClients, bufferLen, steps, id, msgs);
    LapStore.HistoryIsFilter([], Select(msgs, Exec(New(maxClients, bufferLen), steps).clients[id].delivered), target);
  }

  lemma IncreasingPrefix(a: seq<nat>, b: seq<nat>)
    requires Increasing(a + b)
    ensures Increasing(a)
  {
    forall i, j | 0 <= i < j < |a| ensures a[i] < a[j] {
      assert (a + b)[i] < (a + b)[j];
    }
  }

  lemma DeliveredWithin(c: Client, total: nat)
    requires forall n :: n in c.delivered + c.queue ==> n in c.attempted
    requires forall n :: n in c.attempted ==> n < total
    ensures Within(c.delivered, total)
  {
    forall i | 0 <= i < |c.delivered| ensures c.delivered[i] < total {
      var all := c.delivered + c.queue;
      assert all[i] == c.delivered[i];
      assert all[i] in all;
    }
  }

  /**
   * The mock source through the hub: whatever is dropped and whenever a phone joins, it gets passings
   * only, each of the transponder whose turn it was, and no malformed result.
   */
  lemma MockRaceIsNeverMalformed(maxClients: int, bufferLen: int, steps: seq<Step>, id: ClientId,
                                 c: Mock.Config, ws: seq<Mock.World>)
    requires id in Exec(New(maxClients, bufferLen), steps).clients
    requires |c.roster| > 1 && c.lapMs > 0 && forall w :: w in ws ==> Mock.Drawn(c, w)
    requires |Mock.Frames(c, Mock.Initial(c), ws)| == Exec(New(maxClients, bufferLen), steps).total
    ensures var msgs := Mock.Frames(c, Mock.Initial(c), ws);
            var delivered := Exec(New(maxClients, bufferLen), steps).clients[id].delivered;
            var slots, draws := Mock.Initial(c).slots, Mock.Steps(c, Mock.Initial(c), ws);
            var emitting := Mock.Emitting(c, Mock.Initial(c), ws);
            && Within(delivered, |msgs|) && |draws| == |emitting| == |msgs|
            && var seen := DecodeChunks([], Select(msgs, delivered));
               && |seen| == |delivered|
               && forall i :: 0 <= i < |seen| ==>
                    seen[i].Passing?
                    && Mock.RecordInTurn(seen[i].record, c.boot, slots, draws, emitting[delivered[i]], delivered[i])
  {
    var msgs := Mock.Frames(c, Mock.Initial(c), ws);
    Mock.FramesFollowTimetable(c, Mock.Initial(c), ws);
    var slots, draws := Mock.Initial(c).slots, Mock.Steps(c, Mock.Initial(c), ws);
    var emitting := Mock.Emitting(c, Mock.Initial(c), ws);
    InTurnIsOneFrameEach(msgs, c.boot, slots, draws, emitting);
    OneFrameComplete(msgs);
    SubscriberSeesWholeRecords(maxClients, bufferLen, steps, id, msgs);
    hide Exec, Mock.Frames, Mock.Steps, Mock.Exec, Mock.After, Mock.Pick, IsFrame, Parse, DecodeChunks,
         DecodeEach, AllComplete, OneFrameEach, Mock.Emitting, Mock.RecordInTurn;
    var delivered := Exec(New(maxClients, bufferLen), steps).clients[id].delivered;
    forall i | 0 <= i < |delivered|
      ensures var r := Select(ParseAll(msgs), delivered)[i];
              r.Passing? && Mock.RecordInTurn(r.record, c.boot, slots, draws, emitting[delivered[i]], delivered[i])
    {
      assert Mock.FrameInTurn(msgs[delivered[i]], c.boot, slots, draws, emitting[delivered[i]], delivered[i]);
    }
  }

  lemma InTurnIsOneFrameEach(msgs: seq<seq<Byte>>, boot: int, slots: seq<Mock.Slot>, draws: seq<int>, ws: seq<Mock.World>)
    requires Mock.InTurn(msgs, boot, slots, draws, ws)
    ensures OneFrameEach(msgs)
  {
    hide IsFrame, Parse, Mock.RecordInTurn;
    forall m | m in msgs ensures IsFrame(true, m) {
      var k :| 0 <= k < |msgs| && msgs[k] == m;
      assert Mock.FrameInTurn(msgs[k], boot, slots, draws, ws[k], k);
    }
  }

  // ---- Messages that are not whole frames ----

  /** One broadcast to the only client, whose queue has room. */
  lemma ToEmptyQueue(h0: HubProtocol.Hub, steps: seq<Step>) returns (longer: seq<Step>)
    requires Alone(Exec(h0, steps)) && Exec(h0, steps).clients[0].queue == []
    ensures Alone(Exec(h0, longer)) && Exec(h0, longer).total == Exec(h0, steps).total + 1
    ensures Exec(h0, longer).clients[0].queue == [Exec(h0, steps).total]
    ensures Exec(h0, longer).clients[0].delivered == Exec(h0, steps).clients[0].delivered
  {
    hide Exec;
    longer := BeginSend(h0, steps);
    Extend(h0, longer, SendStep);
    longer := longer + [SendStep];
  }

  /** One broadcast to the only client, whose queue is full. */
  lemma ToFullQueue(h0: HubProtocol.Hub, steps: seq<Step>) returns (longer: seq<Step>)
    requires Alone(Exec(h0, steps)) && |Exec(h0, steps).clients[0].queue| == 1
    ensures Alone(Exec(h0, longer)) && Exec(h0, longer).total == Exec(h0, steps).total + 1
    ensures Exec(h0, longer).clients[0].queue == [Exec(h0, steps).total]
    ensures Exec(h0, longer).clients[0].delivered == Exec(h0, steps).clients[0].delivered
  {
    hide Exec;
    longer := BeginSend(h0, steps);
    Extend(h0, longer, SendStep);
    longer := longer + [SendStep];
    Extend(h0, longer, SendStep);
    longer := longer + [SendStep];
    Extend(h0, longer, SendStep);
    longer := longer + [SendStep];
    Extend(h0, longer, SendStep);
    longer := longer + [SendStep];
  }

  ghost predicate Alone(h: HubProtocol.Hub) {
    && h.caster.Idle? && h.registered == {0} && 0 in h.clients
    && !h.clients[0].done && h.clients[0].cap == 1
  }

  lemma Take1(h0: HubProtocol.Hub, steps: seq<Step>) returns (longer: seq<Step>)
    requires Alone(Exec(h0, steps)) && |Exec(h0, steps).clients[0].queue| == 1
    ensures Alone(Exec(h0, longer)) && Exec(h0, longer).total == Exec(h0, steps).total
    ensures Exec(h0, longer).clients[0].queue == []
    ensures Exec(h0, longer).clients[0].delivered == Exec(h0, steps).clients[0].delivered + Exec(h0, steps).clients[0].queue
  {
    hide Exec;
    Extend(h0, steps, Receive(0));
    longer := steps + [Receive(0)];
    var queue := Exec(h0, steps).clients[0].queue;
    assert [queue[0]] == queue;
  }

  /** A slow subscriber with room for one message gets the first and the last of four. */
  lemma FirstAndLast() returns (steps: seq<Step>)
    ensures var h := Exec(New(1, 1), steps);
            h.total == 4 && 0 in h.clients && h.clients[0].delivered == [0, 3]
  {
    var h0 := New(1, 1);
    assert Exec(h0, []) == h0;
    hide Exec;
    Extend(h0, [], Add(0));
    steps := [] + [Add(0)];
    steps := ToEmptyQueue(h0, steps);
    steps := Take1(h0, steps);
    steps := ToEmptyQueue(h0, steps);
    steps := ToFullQueue(h0, steps);
    steps := ToFullQueue(h0, steps);
    steps := Take1(h0, steps);
  }

  /**
   * Complete messages are needed: when two records reach the hub as halves, a slow subscriber's
   * decoder may report a third record that was never sent.
   */
  lemma HalvesMayForge(a: Encoder.PassingArgs, b: Encoder.PassingArgs) returns (steps: seq<Step>, msgs: seq<seq<Byte>>)
    ensures Concat(msgs) == Encoder.PassingWire(a) + Encoder.PassingWire(b)
    ensures var h := Exec(New(1, 1), steps);
            && h.total == |msgs| && 0 in h.clients && Within(h.clients[0].delivered, |msgs|)
            && DecodeChunks([], Select(msgs, h.clients[0].delivered))
               == [Passing(Encoder.PassingRecordOf(Stitching.Mixed(a, b)))]
  {
    steps := FirstAndLast();
    var begin, end, begin', end' := Stitching.Beginning(a), Stitching.Ending(a), Stitching.Beginning(b), Stitching.Ending(b);
    msgs := [begin, end, begin', end'];
    Stitching.HalvesOfOne(a);
    Stitching.HalvesOfOne(b);
    Stitching.HalvesJoin(a, b);
    var forged := Encoder.PassingWire(Stitching.Mixed(a, b));
    Encoder.PassingRoundTrip(Stitching.Mixed(a, b));
    hide *;
    FourMessages(begin, end, begin', end');
    TwoHalves(msgs, forged);
  }

  lemma FourMessages(a: seq<Byte>, b: seq<Byte>, c: seq<Byte>, d: seq<Byte>)
    ensures Concat([a, b, c, d]) == (a + b) + (c + d)
  {
    assert [a, b, c, d] == [a, b] + [c, d];
    ConcatAppend([a, b], [c, d]);
    ConcatPair(a, b);
    ConcatPair(c, d);
  }

  lemma ConcatPair(a: seq<Byte>, b: seq<Byte>)
    ensures Concat([a, b]) == a + b
  {
    assert [a, b][1..] == [b];
    ConcatOne(b);
  }

  lemma TwoHalves(msgs: seq<seq<Byte>>, forged: seq<Byte>)
    requires |msgs| == 4 && IsFrame(true, forged) && msgs[0] + msgs[3] == forged
    ensures Within([0, 3], |msgs|) && DecodeChunks([], Select(msgs, [0, 3])) == [Parse(forged)]
  {
    var got := Select(msgs, [0, 3]);
    assert got == [msgs[0], msgs[3]];
    DecodingIgnoresChunking(got);
    ConcatPair(msgs[0], msgs[3]);
    ScanFrame(true, forged);
    hide IsFrame, Parse, ScanFrom, DecodeChunks;
    assert ParseAll([forged]) == [Parse(forged)];
  }

  // ---- The read loop ----

  datatype UpstreamState = Connecting | Connected | MockSource | ReplaySource | Finished

  /** What the source's Read returns; a chunk comes with how the recorder's files take it. */
  datatype Input = Got(entry: Entry) | ContextDone | EndOfStream | OtherError

  predicate Ends(i: Input) { i.ContextDone? || i.EndOfStream? }

  function EntriesOf(inputs: seq<Input>): seq<Entry>
    decreases |inputs|
  {
    if inputs == [] then []
    else
      var i := inputs[|inputs| - 1];
      EntriesOf(inputs[..|inputs| - 1]) + if i.Got? then [i.entry] else []
  }

  lemma EntriesLast(inputs: seq<Input>)
    requires inputs != []
    ensures var i := inputs[|inputs| - 1];
            EntriesOf(inputs) == EntriesOf(inputs[..|inputs| - 1]) + if i.Got? then [i.entry] else []
  {}

  /** The entries are exactly the chunks read, in order. */
  lemma {:induction false} EntriesMeaning(inputs: seq<Input>) returns (at: seq<nat>)
    ensures Increasing(at) && |EntriesOf(inputs)| == |at|
    ensures forall i :: 0 <= i < |at| ==> at[i] < |inputs| && inputs[at[i]] == Got(EntriesOf(inputs)[i])
    ensures forall k :: 0 <= k < |inputs| ==> (k in at <==> inputs[k].Got?)
    decreases |inputs|
  {
    if inputs == [] {
      at := [];
    } else {
      var n := |inputs| - 1;
      var before := inputs[..n];
      at := EntriesMeaning(before);
      assert forall k :: 0 <= k < n ==> before[k] == inputs[k];
      hide Increasing, EntriesOf;
      EntriesLast(inputs);
      if inputs[n].Got? {
        IncreasingSnoc(at, n);
        at := at + [n];
      }
    }
  }

  lemma EntriesNext(inputs: seq<Input>, i: nat)
    requires i < |inputs|
    ensures EntriesOf(inputs[..i + 1]) == EntriesOf(inputs[..i]) + if inputs[i].Got? then [inputs[i].entry] else []
  {
    assert inputs[..i + 1][..i] == inputs[..i];
  }

  lemma NoEntries(started: int, queue: seq<seq<Byte>>, cap: nat)
    ensures Record(started, []) == Blank() && OfferAll(queue, cap, ChunksOf([])) == queue
  {}

  lemma RecordNext(started: int, es: seq<Entry>, e: Entry)
    ensures Record(started, es + [e]) == WriteOnce(Record(started, es), started, e)
  {
    assert (es + [e])[..|es|] == es;
  }

  lemma OfferNext(queue: seq<seq<Byte>>, cap: nat, es: seq<Entry>, e: Entry)
    ensures OfferAll(queue, cap, ChunksOf(es + [e])) == Offer(OfferAll(queue, cap, ChunksOf(es)), cap, e.chunk)
  {
    assert ChunksOf(es + [e]) == ChunksOf(es) + [e.chunk];
    assert (ChunksOf(es) + [e.chunk])[..|es|] == ChunksOf(es);
  }

  /** Messages that do not fit beside those a queue holds already. */
  function Excess(held: nat, more: nat, cap: nat): nat {
    if held + more <= cap then 0 else held + more - cap
  }

  lemma NothingExceeds(held: nat, cap: nat)
    requires held <= cap
    ensures Excess(held, 0, cap) == 0
  {}

  lemma ExcessNext<T>(queue: seq<T>, cap: nat, xs: seq<T>)
    requires 1 <= cap && |queue| <= cap
    ensures Excess(|queue|, |xs| + 1, cap)
            == Excess(|queue|, |xs|, cap) + if |OfferAll(queue, cap, xs)| == cap then 1 else 0
  {
    KeepsNewest(queue, cap, xs);
  }

  /**
   * Recorder and subscribers get the same chunks in the same order, up to the end of the source; other
   * errors of the source, failed writes and full queues stop nothing.
   */
  method ReadLoop(inputs: seq<Input>, rec: Recorder?, hub: Hub.Fanout, initial: UpstreamState)
    returns (n: nat, state: UpstreamState)
    requires hub.Valid() && (rec != null ==> rec.Now() == Blank())
    modifies hub.clients, if rec == null then {} else {rec}
    ensures hub.Valid()
    ensures n <= |inputs| && (forall k :: 0 <= k < n ==> !Ends(inputs[k])) && (n < |inputs| ==> Ends(inputs[n]))
    ensures var es := EntriesOf(inputs[..n]);
            && (rec != null ==> rec.Now() == Record(rec.started, es))
            && (forall c :: c in hub.clients ==> c.queue == OfferAll(old(c.queue), c.cap, ChunksOf(es)))
            && (forall c :: c in hub.clients ==>
                  c.dropped == old(c.dropped) + Excess(|old(c.queue)|, |es|, c.cap))
            && state == if n < |inputs| && inputs[n] == EndOfStream then Finished
                        else if es != [] && initial == Connecting then Connected else initial
  {
    hide WriteOnce, Offer, Record, OfferAll, Excess;
    n, state := 0, initial;
    if rec != null {
      NoEntries(rec.started, [], 0);
    }
    forall c | c in hub.clients
      ensures OfferAll(c.queue, c.cap, ChunksOf([])) == c.queue && Excess(|c.queue|, 0, c.cap) == 0
    {
      NoEntries(0, c.queue, c.cap);
      NothingExceeds(|c.queue|, c.cap);
    }
    ghost var es := [];
    while n < |inputs|
      invariant n <= |inputs| && (forall k :: 0 <= k < n ==> !Ends(inputs[k]))
      invariant hub.Valid() && es == EntriesOf(inputs[..n])
      invariant rec != null ==> rec.Now() == Record(rec.started, es)
      invariant forall c :: c in hub.clients ==> c.queue == OfferAll(old(c.queue), c.cap, ChunksOf(es))
      invariant forall c :: c in hub.clients ==> c.dropped == old(c.dropped) + Excess(|old(c.queue)|, |es|, c.cap)
      invariant state == if es != [] && initial == Connecting then Connected else initial
    {
      EntriesNext(inputs, n);
      match inputs[n]
      case ContextDone =>
        return;
      case EndOfStream =>
        state := Finished;
        return;
      case OtherError =>
        n := n + 1;
      case Got(entry) =>
        if initial == Connecting {
          state := Connected;
        }
        if rec != null {
          RecordNext(rec.started, es, entry);
          rec.Write(entry);
        }
        forall c | c in hub.clients
          ensures OfferAll(old(c.queue), c.cap, ChunksOf(es + [entry])) == Offer(c.queue, c.cap, entry.chunk)
          ensures Excess(|old(c.queue)|, |es| + 1, c.cap)
                  == Excess(|old(c.queue)|, |es|, c.cap) + if |c.queue| == c.cap then 1 else 0
        {
          ExcessNext(old(c.queue), c.cap, ChunksOf(es));
          OfferNext(old(c.queue), c.cap, es, entry);
        }
        hub.Broadcast(entry.chunk);
        es := es + [entry];
        n := n + 1;
    }
  }
}

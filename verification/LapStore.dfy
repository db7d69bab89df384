/**
 * The lap store (web/src/features/laps/passingsStore.ts): a bounded list of passings, lap times and
 * the best lap, all proved to be functions of the full history of matching records since the last
 * reset.
 */
module LapStore {
  import opened Bytes
  import opened Framing
  import opened Records
  import WsClient

  datatype Entry = Entry(record: PassingRecord, lapTimeUs: Option<int>)

  // ---- The history ----

  function RtcOf(r: PassingRecord): int { r.rtcTimeUs }

  /** Time between record i and the one before it; none for the first. */
  function Lap(history: seq<PassingRecord>, i: nat): Option<int>
    requires i < |history|
  {
    if i == 0 then None else Some(RtcOf(history[i]) - RtcOf(history[i - 1]))
  }

  /** The records with the target's transponder, in order. */
  function Matching(results: seq<ParseResult>, target: nat): seq<PassingRecord> {
    if results == [] then []
    else
      var r := results[|results| - 1];
      Matching(results[..|results| - 1], target)
      + if r.Passing? && r.record.transponder == target then [r.record] else []
  }

  /** Smallest lap of the history. */
  function Best(history: seq<PassingRecord>): (best: Option<int>)
    ensures best.Some? <==> |history| >= 2
    ensures best.Some? ==> exists i :: 0 <= i < |history| && Lap(history, i) == best
    ensures forall i :: 0 <= i < |history| && Lap(history, i).Some? ==> best.Some? && best.value <= Lap(history, i).value
  {
    if |history| < 2 then None
    else
      var n := |history| - 1;
      var earlier, last := Best(history[..n]), Lap(history, n);
      assert forall i :: 0 <= i < n ==> Lap(history, i) == Lap(history[..n], i);
      if earlier.Some? && earlier.value <= last.value then
        var i :| 0 <= i < n && Lap(history[..n], i) == earlier;
        assert Lap(history, i) == earlier;
        earlier
      else
        assert Lap(history, n) == last;
        last
  }

  /** The newest entries first, as many as fit. */
  function Newest(history: seq<PassingRecord>, limit: nat): seq<Entry> {
    seq(if |history| < limit then |history| else limit,
        k requires 0 <= k < |history| =>
          Entry(history[|history| - 1 - k], Lap(history, |history| - 1 - k)))
  }

  function LapSum(history: seq<PassingRecord>): int {
    if |history| < 2 then 0 else LapSum(history[..|history| - 1]) + Lap(history, |history| - 1).value
  }

  /** The laps add up to the time between the first and the last passing. */
  lemma {:induction false} LapsTelescope(history: seq<PassingRecord>)
    requires history != []
    ensures LapSum(history) == history[|history| - 1].rtcTimeUs - history[0].rtcTimeUs
    decreases |history|
  {
    if |history| >= 2 {
      LapsTelescope(history[..|history| - 1]);
    }
  }

  /**
   * What the list shows: the newest passing first, and with each the time since the one shown below it,
   * or since the one that fell off the end.
   */
  lemma ShownLaps(history: seq<PassingRecord>, limit: nat)
    ensures var es, n := Newest(history, limit), |history|;
            && |es| == Min(n, limit)
            && (forall k :: 0 <= k < |es| ==> es[k].record == history[n - 1 - k])
            && (forall k :: 0 <= k < |es| - 1 ==>
                  es[k].lapTimeUs == Some(es[k].record.rtcTimeUs - es[k + 1].record.rtcTimeUs))
            && (0 < |es| == n ==> es[n - 1].lapTimeUs == None)
            && (0 < |es| < n ==> es[|es| - 1].lapTimeUs
                                 == Some(es[|es| - 1].record.rtcTimeUs - history[n - 1 - |es|].rtcTimeUs))
  {
    forall k | 0 <= k < |Newest(history, limit)|
      ensures Newest(history, limit)[k] == Entry(history[|history| - 1 - k], Lap(history, |history| - 1 - k))
    {
    }
  }

  function Min(a: nat, b: nat): nat { if a <= b then a else b }

  /** The filter keeps exactly the passings of the target, in order. */
  lemma {:induction false} MatchingMeaning(results: seq<ParseResult>, target: nat) returns (at: seq<nat>)
    ensures Increasing(at) && |Matching(results, target)| == |at|
    ensures forall i :: 0 <= i < |at| ==>
              at[i] < |results| && results[at[i]] == Passing(Matching(results, target)[i])
    ensures forall k :: 0 <= k < |results| ==>
              (k in at <==> results[k].Passing? && results[k].record.transponder == target)
    decreases |results|
  {
    if results == [] {
      at := [];
    } else {
      var n := |results| - 1;
      at := MatchingMeaning(results[..n], target);
      if results[n].Passing? && results[n].record.transponder == target {
        IncreasingSnoc(at, n);
        at := at + [n];
      }
    }
  }

  lemma NewestSnoc(history: seq<PassingRecord>, r: PassingRecord, limit: nat)
    ensures var all := [Entry(r, Lap(history + [r], |history|))] + Newest(history, limit);
            Newest(history + [r], limit) == if |all| <= limit then all else all[..limit]
  {
    var h' := history + [r];
    forall i | 0 <= i < |history| ensures Lap(h', i) == Lap(history, i) {}
  }

  lemma {:induction false} MatchingAppend(a: seq<ParseResult>, b: seq<ParseResult>, target: nat)
    ensures Matching(a + b, target) == Matching(a, target) + Matching(b, target)
    decreases |b|
  {
    if b == [] {
      assert a + b == a;
    } else {
      var b', r := b[..|b| - 1], b[|b| - 1];
      MatchingAppend(a, b', target);
      assert (a + b)[..|a + b| - 1] == a + b';
      Assoc(Matching(a, target), Matching(b', target),
            if r.Passing? && r.record.transponder == target then [r.record] else []);
    }
  }

  // ---- The store ----

  /** What subscribers are told. */
  datatype Snapshot = Snapshot(target: Option<nat>, passings: seq<Entry>, bestLapUs: Option<int>)

  /** The first elements up to an index that, if negative, counts from the end. */
  function Slice<T>(s: seq<T>, end: int): seq<T> {
    if end < 0 then (if |s| + end < 0 then [] else s[..|s| + end])
    else if |s| <= end then s else s[..end]
  }

  function Room(limit: int): nat { if limit < 0 then 0 else limit }

  class Store {
    const decoder: Decoder
    const limit: int
    var started: bool
    var target: Option<nat>
    var passings: seq<Entry>
    var bestLapUs: Option<int>
    var previousPassing: Option<PassingRecord>
    var emitted: seq<Snapshot>                // everything subscribers have been told
    ghost var history: seq<PassingRecord>     // matching records since the last reset

    ghost predicate Valid()
      reads this, decoder, decoder.stream
    {
      && decoder.Valid()
      && Shows()
    }

    /** What the store shows is a function of its history. */
    ghost predicate Shows()
      reads this
    {
      && passings == Newest(history, Room(limit))
      && bestLapUs == Best(history)
      && previousPassing == (if history == [] then None else Some(history[|history| - 1]))
    }

    function Shown(): Snapshot
      reads this
    {
      Snapshot(target, passings, bestLapUs)
    }

    constructor (limit: int, loaded: Option<nat>)
      ensures Valid() && this.limit == limit && target == loaded && history == [] && decoder.stream.history == []
      ensures !started && emitted == []
      ensures fresh(decoder) && fresh(decoder.stream)
    {
      decoder := new Decoder();
      this.limit := limit;
      target, started := loaded, false;
      passings, bestLapUs, previousPassing, history := [], None, None, [];
      emitted := [];
    }

    /** Loads the target and subscribes; the decoder keeps what it holds. */
    method Start(loaded: Option<nat>)
      requires Valid()
      modifies this`started, this`target, this`emitted
      ensures Valid() && started
      ensures if old(started) then target == old(target) && emitted == old(emitted)
              else target == loaded && emitted == old(emitted) + [Shown()]
    {
      if started {
        return;
      }
      target := loaded;
      emitted := emitted + [Shown()];
      started := true;
    }

    method Stop()
      modifies this`started
      ensures !started
    {
      started := false;
    }

    method Reset()
      requires Valid()
      modifies this, decoder, decoder.stream
      ensures Valid() && history == [] && target == old(target) && started == old(started)
      ensures decoder.stream.history == [] && decoder.stream.buf == []
      ensures emitted == old(emitted) + [Snapshot(target, [], None)]
    {
      decoder.Reset();
      passings := [];
      bestLapUs := None;
      previousPassing := None;
      history := [];
      emitted := emitted + [Shown()];
    }

    method HandleState(state: WsClient.Out)
      requires Valid()
      modifies this, decoder, decoder.stream
      ensures Valid() && target == old(target) && started == old(started)
      ensures state.Disconnected? || state.Reconnecting? ==>
                history == [] && decoder.stream.history == [] && emitted == old(emitted) + [Snapshot(target, [], None)]
      ensures !(state.Disconnected? || state.Reconnecting?) ==>
                history == old(history) && decoder.stream.history == old(decoder.stream.history)
                && decoder.stream.buf == old(decoder.stream.buf) && emitted == old(emitted)
    {
      if state.Disconnected? || state.Reconnecting? {
        Reset();
      }
    }

    /** Adds one matching record to what is shown. */
    method Record(r: PassingRecord)
      requires Shows()
      modifies this`passings, this`bestLapUs, this`previousPassing, this`history
      ensures Shows() && history == old(history) + [r]
    {
      NewestSnoc(history, r, Room(limit));
      ghost var history' := history + [r];
      ghost var n := |history|;
      assert history'[..n] == history;
      var lap := if previousPassing.None? then None else Some(RtcOf(r) - RtcOf(previousPassing.value));
      assert lap == Lap(history', n);
      previousPassing := Some(r);
      var all := [Entry(r, lap)] + passings;
      passings := Slice(all, limit);
      if lap.Some? && (bestLapUs.None? || lap.value < bestLapUs.value) {
        bestLapUs := lap;
      }
      history := history';
    }

    /** loaded is the target transponder in the settings when the message arrives. */
    method HandleMessage(data: WsClient.Data, loaded: Option<nat>) returns (changed: bool)
      requires Valid()
      modifies this, decoder, decoder.stream
      ensures Valid() && started == old(started)
      ensures target == if data.Binary? then loaded else old(target)
      ensures emitted == old(emitted) + if changed then [Shown()] else []
      ensures !(data.Binary? && loaded.Some?) ==>
                !changed && history == old(history) && decoder.stream.history == old(decoder.stream.history)
      ensures data.Binary? && loaded.Some? ==>
                && decoder.stream.history == old(decoder.stream.history) + data.bytes
                && decoder.stream.buf == ScanFrom(true, old(decoder.stream.buf), data.bytes).cur
                && history == old(history)
                     + Matching(ParseAll(ScanFrom(true, old(decoder.stream.buf), data.bytes).frames), loaded.value)
                && (changed <==> |history| > |old(history)|)
    {
      hide ScanFrom, Matching, Best, Newest, ParseAll;
      if !data.Binary? {
        return false;
      }
      target := loaded;
      if target.None? {
        return false;
      }
      var results := decoder.Push(data.bytes);
      changed := ShowResults(results);
      if changed {
        emitted := emitted + [Shown()];
      }
    }

    method ShowResults(results: seq<ParseResult>) returns (changed: bool)
      requires Shows() && target.Some?
      modifies this`passings, this`bestLapUs, this`previousPassing, this`history
      ensures Shows() && history == old(history) + Matching(results, target.value)
      ensures changed <==> |history| > |old(history)|
    {
      changed := false;
      assert results[..0] == [];
      for i := 0 to |results|
        invariant Shows()
        invariant history == old(history) + Matching(results[..i], target.value)
        invariant changed <==> |history| > |old(history)|
      {
        var r := results[i];
        assert results[..i + 1][..i] == results[..i];
        if !r.Passing? || r.record.transponder != target.value {
          continue;
        }
        Assoc(old(history), Matching(results[..i], target.value), [r.record]);
        Record(r.record);
        changed := true;
      }
      assert results[..|results|] == results;
    }
  }

  // ---- A session with one target ----

  /** History after a list of messages, all read with the same target. */
  function HistoryOf(cur: seq<Byte>, chunks: seq<seq<Byte>>, target: nat): seq<PassingRecord>
    decreases |chunks|
  {
    if chunks == [] then []
    else
      var r := ScanFrom(true, cur, chunks[0]);
      Matching(ParseAll(r.frames), target) + HistoryOf(r.cur, chunks[1..], target)
  }

  lemma {:induction false} HistoryIsFilter(cur: seq<Byte>, chunks: seq<seq<Byte>>, target: nat)
    ensures HistoryOf(cur, chunks, target) == Matching(DecodeChunks(cur, chunks), target)
    decreases |chunks|
  {
    if chunks == [] {
    } else {
      var r := ScanFrom(true, cur, chunks[0]);
      HistoryIsFilter(r.cur, chunks[1..], target);
      MatchingAppend(ParseAll(r.frames), DecodeChunks(r.cur, chunks[1..]), target);
    }
  }

  /**
   * With one target since the last reset, the history is what filtering the decoded stream gives,
   * however the stream was split into messages.
   */
  lemma HistoryIgnoresChunking(chunks: seq<seq<Byte>>, target: nat)
    ensures HistoryOf([], chunks, target) == Matching(Decode(Concat(chunks)), target)
  {
    HistoryIsFilter([], chunks, target);
    DecodingIgnoresChunking(chunks);
  }
}

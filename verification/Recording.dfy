/**
 * Recording the byte stream (gateway/internal/recorder/recorder.go): the chunks go to one file, a row
 * with offset and length of each chunk to another. Whether a write succeeds is a parameter.
 */
module Recording {
  import opened Bytes
  import opened Decimal
  import opened Durations

  /** The fields of one line of the timing file. */
  type Row = seq<string>

  const HEADER: Row := ["offset_ms", "length_bytes"]

  datatype Tape = Tape(bin: seq<Byte>, rows: seq<Row>, broken: bool, failures: nat)

  /** How the two writers take one chunk. */
  datatype Outcome = Outcome(
    binFails: bool,
    written: nat,          // bytes that reach the file although the write fails
    timingFails: bool,
    torn: Option<Row>)     // what a reader makes of a row of which only a part was written

  datatype Entry = Entry(chunk: seq<Byte>, now: int, outcome: Outcome)

  function Blank(): Tape { Tape([], [HEADER], false, 0) }

  function OffsetMs(started: int, now: int): (ms: Int64) {
    Quot(Elapsed(started, now), NANOS_PER_MILLI)
  }

  function RowFor(offset: Int64, length: nat): Row {
    [FormatInt(offset), FormatInt(length)]
  }

  /** A failed timing write is remembered by the buffered writer, which fails from then on. */
  function WriteOnce(t: Tape, started: int, e: Entry): Tape {
    var o := e.outcome;
    if o.binFails then t.(bin := t.bin + e.chunk[..if o.written <= |e.chunk| then o.written else |e.chunk|],
                          failures := t.failures + 1)
    else
      var t' := t.(bin := t.bin + e.chunk);
      if t.broken then t'.(failures := t.failures + 1)
      else if o.timingFails then
        t'.(broken := true, failures := t.failures + 1, rows := t.rows + if o.torn.Some? then [o.torn.value] else [])
      else t'.(rows := t.rows + [RowFor(OffsetMs(started, e.now), |e.chunk|)])
  }

  function Record(started: int, es: seq<Entry>): Tape
    decreases |es|
  {
    if es == [] then Blank() else WriteOnce(Record(started, es[..|es| - 1]), started, es[|es| - 1])
  }

  predicate Succeeds(t: Tape, e: Entry) {
    !e.outcome.binFails && !t.broken && !e.outcome.timingFails
  }

  /** The writes without a failure. */
  function Kept(started: int, es: seq<Entry>): seq<Entry>
    decreases |es|
  {
    if es == [] then []
    else
      var before, e := es[..|es| - 1], es[|es| - 1];
      Kept(started, before) + if Succeeds(Record(started, before), e) then [e] else []
  }

  /** Every chunk is either recorded or counted as a failure; none is reported to the caller. */
  lemma {:induction false} EveryChunkAccountedFor(started: int, es: seq<Entry>)
    ensures |Kept(started, es)| + Record(started, es).failures == |es|
    decreases |es|
  {
    if es == [] {
    } else {
      EveryChunkAccountedFor(started, es[..|es| - 1]);
    }
  }

  // ---- What a recording holds ----

  function ChunksOf(es: seq<Entry>): seq<seq<Byte>> {
    seq(|es|, i requires 0 <= i < |es| => es[i].chunk)
  }

  function RowsOf(started: int, es: seq<Entry>): seq<Row> {
    seq(|es|, i requires 0 <= i < |es| => RowFor(OffsetMs(started, es[i].now), |es[i].chunk|))
  }

  /** A failed write of which some bytes reach the file. */
  predicate LeavesBytes(e: Entry) {
    e.outcome.binFails && e.outcome.written > 0 && e.chunk != []
  }

  predicate Dirty(es: seq<Entry>)
    decreases |es|
  {
    es != [] && (Dirty(es[..|es| - 1]) || LeavesBytes(es[|es| - 1]))
  }

  /** No failed write that leaves bytes behind is followed by a recorded chunk that has bytes. */
  predicate Harmless(started: int, es: seq<Entry>)
    decreases |es|
  {
    es == [] ||
    var before, e := es[..|es| - 1], es[|es| - 1];
    Harmless(started, before) && !(Dirty(before) && Succeeds(Record(started, before), e) && e.chunk != [])
  }

  lemma {:induction false} DirtyMeaning(es: seq<Entry>)
    ensures Dirty(es) <==> exists i :: 0 <= i < |es| && LeavesBytes(es[i])
    decreases |es|
  {
    if es == [] {
    } else {
      var before := es[..|es| - 1];
      DirtyMeaning(before);
      assert forall i :: 0 <= i < |before| ==> before[i] == es[i];
    }
  }

  /** Write i left bytes behind, and the later write j recorded some. */
  predicate Harm(started: int, es: seq<Entry>, i: nat, j: nat)
    requires i < j < |es|
  {
    LeavesBytes(es[i]) && Succeeds(Record(started, es[..j]), es[j]) && es[j].chunk != []
  }

  lemma HarmInPrefix(started: int, es: seq<Entry>, n: nat, i: nat, j: nat)
    requires i < j < n <= |es|
    ensures Harm(started, es[..n], i, j) == Harm(started, es, i, j)
  {
    assert es[..n][..j] == es[..j];
  }

  lemma {:induction false} HarmlessMeaning(started: int, es: seq<Entry>)
    ensures Harmless(started, es) <==> forall i, j :: 0 <= i < j < |es| ==> !Harm(started, es, i, j)
    decreases |es|
  {
    if es == [] {
    } else {
      var n := |es| - 1;
      HarmlessMeaning(started, es[..n]);
      DirtyMeaning(es[..n]);
      forall i, j | 0 <= i < j < n ensures Harm(started, es[..n], i, j) == Harm(started, es, i, j) {
        HarmInPrefix(started, es, n, i, j);
      }
      forall i | 0 <= i < n
        ensures Harm(started, es, i, n)
                <==> LeavesBytes(es[..n][i]) && Succeeds(Record(started, es[..n]), es[n]) && es[n].chunk != []
      {
      }
      hide Harm, Record, Succeeds, Dirty, LeavesBytes;
    }
  }

  /** What a torn timing write left in the file; nothing is written behind it. */
  function Torn(started: int, es: seq<Entry>): seq<Row>
    decreases |es|
  {
    if es == [] then []
    else
      var before, o := es[..|es| - 1], es[|es| - 1].outcome;
      Torn(started, before)
      + if !o.binFails && !Record(started, before).broken && o.timingFails && o.torn.Some? then [o.torn.value] else []
  }

  /**
   * The rows are those of the kept chunks, and a torn one. Their bytes come first in the file; others
   * come behind them only after a write that left bytes, or a timing failure.
   */
  ghost predicate Holds(t: Tape, started: int, kept: seq<Entry>, torn: seq<Row>, dirty: bool) {
    && t.rows == [HEADER] + RowsOf(started, kept) + torn
    && Concat(ChunksOf(kept)) <= t.bin
    && (!t.broken && !dirty ==> Concat(ChunksOf(kept)) == t.bin)
    && (!t.broken ==> torn == [])
  }

  lemma KeepOne(started: int, kept: seq<Entry>, e: Entry)
    ensures Concat(ChunksOf(kept + [e])) == Concat(ChunksOf(kept)) + e.chunk
    ensures RowsOf(started, kept + [e]) == RowsOf(started, kept) + [RowFor(OffsetMs(started, e.now), |e.chunk|)]
  {
    hide RowFor, OffsetMs;
    assert ChunksOf(kept + [e]) == ChunksOf(kept) + [e.chunk];
    ConcatAppend(ChunksOf(kept), [e.chunk]);
    ConcatOne(e.chunk);
  }

  lemma HoldsNext(t: Tape, started: int, kept: seq<Entry>, torn: seq<Row>, dirty: bool, e: Entry)
    requires Holds(t, started, kept, torn, dirty)
    requires dirty && Succeeds(t, e) ==> e.chunk == []
    ensures Holds(WriteOnce(t, started, e), started, if Succeeds(t, e) then kept + [e] else kept,
                  torn + (if !e.outcome.binFails && !t.broken && e.outcome.timingFails && e.outcome.torn.Some?
                          then [e.outcome.torn.value] else []),
                  dirty || LeavesBytes(e))
  {
    hide RowFor, OffsetMs, ChunksOf, RowsOf, Concat;
    var t' := WriteOnce(t, started, e);
    PrefixTrans(Concat(ChunksOf(kept)), t.bin, t'.bin);
    if Succeeds(t, e) {
      KeepOne(started, kept, e);
      Assoc([HEADER], RowsOf(started, kept), [RowFor(OffsetMs(started, e.now), |e.chunk|)]);
      assert Concat(ChunksOf(kept)) + [] == Concat(ChunksOf(kept));
    } else {
      assert torn + [] == torn && t.rows + [] == t.rows;
    }
  }

  lemma {:induction false} RecordingHolds(started: int, es: seq<Entry>)
    requires Harmless(started, es)
    ensures Holds(Record(started, es), started, Kept(started, es), Torn(started, es), Dirty(es))
    decreases |es|
  {
    if es == [] {
      assert ChunksOf([]) == [] && RowsOf(started, []) == [];
    } else {
      var before, e := es[..|es| - 1], es[|es| - 1];
      RecordingHolds(started, before);
      hide Holds, LeavesBytes;
      HoldsNext(Record(started, before), started, Kept(started, before), Torn(started, before), Dirty(before), e);
      assert Kept(started, before) + [] == Kept(started, before);
      assert Torn(started, before) + [] == Torn(started, before);
    }
  }

  // ---- The same writes with other contents ----

  /** The same times, lengths and outcomes. */
  predicate SameShape(es: seq<Entry>, fs: seq<Entry>) {
    && |es| == |fs|
    && forall i :: 0 <= i < |es| ==> fs[i].now == es[i].now && fs[i].outcome == es[i].outcome
                                     && |fs[i].chunk| == |es[i].chunk|
  }

  predicate SameFiles(t: Tape, u: Tape) {
    u.rows == t.rows && u.broken == t.broken && |u.bin| == |t.bin|
  }

  lemma SameWrite(t: Tape, u: Tape, started: int, e: Entry, f: Entry)
    requires SameFiles(t, u) && f.now == e.now && f.outcome == e.outcome && |f.chunk| == |e.chunk|
    ensures SameFiles(WriteOnce(t, started, e), WriteOnce(u, started, f))
  {}

  lemma {:induction false} ShapeDecidesFiles(started: int, es: seq<Entry>, fs: seq<Entry>)
    requires SameShape(es, fs)
    ensures SameFiles(Record(started, es), Record(started, fs))
    decreases |es|
  {
    if es == [] {
    } else {
      var n := |es| - 1;
      ShapeDecidesFiles(started, es[..n], fs[..n]);
      hide WriteOnce, SameFiles;
      SameWrite(Record(started, es[..n]), Record(started, fs[..n]), started, es[n], fs[n]);
    }
  }

  lemma {:induction false} ShapeDecidesKept(started: int, es: seq<Entry>, fs: seq<Entry>)
    requires SameShape(es, fs)
    ensures SameShape(Kept(started, es), Kept(started, fs)) && Torn(started, fs) == Torn(started, es)
    decreases |es|
  {
    if es == [] {
    } else {
      var n := |es| - 1;
      ShapeDecidesKept(started, es[..n], fs[..n]);
      ShapeDecidesFiles(started, es[..n], fs[..n]);
      hide Record;
    }
  }

  lemma {:induction false} ShapeDecidesHarm(started: int, es: seq<Entry>, fs: seq<Entry>)
    requires SameShape(es, fs)
    ensures Dirty(fs) == Dirty(es) && Harmless(started, fs) == Harmless(started, es)
    decreases |es|
  {
    if es == [] {
    } else {
      var n := |es| - 1;
      ShapeDecidesHarm(started, es[..n], fs[..n]);
      ShapeDecidesFiles(started, es[..n], fs[..n]);
      hide Record;
    }
  }

  lemma {:induction false} ShapeLength(es: seq<Entry>, fs: seq<Entry>)
    requires SameShape(es, fs)
    ensures |Concat(ChunksOf(es))| == |Concat(ChunksOf(fs))|
    decreases |es|
  {
    if es == [] {
    } else {
      ShapeLength(es[1..], fs[1..]);
      assert ChunksOf(es)[1..] == ChunksOf(es[1..]) && ChunksOf(fs)[1..] == ChunksOf(fs[1..]);
    }
  }

  /** Failing writes write zeros, the others ones. */
  function Marked(es: seq<Entry>): (fs: seq<Entry>)
    ensures SameShape(es, fs) && IsMarked(fs)
  {
    seq(|es|, i requires 0 <= i < |es| =>
      es[i].(chunk := seq(|es[i].chunk|, _ => if es[i].outcome.binFails then 0 else 1)))
  }

  predicate IsMarked(es: seq<Entry>) {
    forall i :: 0 <= i < |es| ==> forall b :: b in es[i].chunk ==> b == if es[i].outcome.binFails then 0 else 1
  }

  lemma {:induction false} KeptAreOnes(started: int, es: seq<Entry>)
    requires IsMarked(es)
    ensures forall b :: b in Concat(ChunksOf(Kept(started, es))) ==> b == 1
    decreases |es|
  {
    if es == [] {
    } else {
      var before, e := es[..|es| - 1], es[|es| - 1];
      KeptAreOnes(started, before);
      KeepOne(started, Kept(started, before), e);
      assert Kept(started, before) + [] == Kept(started, before);
    }
  }

  /** A zero somewhere in the file, not behind the first n bytes of it. */
  ghost predicate ZeroWithin(bin: seq<Byte>, n: nat) {
    exists p :: 0 <= p < |bin| && p <= n && bin[p] == 0
  }

  lemma ZeroStays(bin: seq<Byte>, longer: seq<Byte>, n: nat, m: nat)
    requires ZeroWithin(bin, n) && bin <= longer && n <= m
    ensures ZeroWithin(longer, m)
  {
    var p :| 0 <= p < |bin| && p <= n && bin[p] == 0;
    assert longer[p] == 0;
  }

  lemma NotDirtyHarmless(started: int, es: seq<Entry>)
    requires !Dirty(es)
    ensures Harmless(started, es)
    decreases |es|
  {
    if es == [] {
    } else {
      NotDirtyHarmless(started, es[..|es| - 1]);
    }
  }

  function KeptBytes(started: int, es: seq<Entry>): nat {
    |Concat(ChunksOf(Kept(started, es)))|
  }

  lemma KeptBytesNext(started: int, es: seq<Entry>)
    requires es != []
    ensures var before, e := es[..|es| - 1], es[|es| - 1];
            KeptBytes(started, es)
            == KeptBytes(started, before) + if Succeeds(Record(started, before), e) then |e.chunk| else 0
  {
    var before, e := es[..|es| - 1], es[|es| - 1];
    KeepOne(started, Kept(started, before), e);
    assert Kept(started, before) + [] == Kept(started, before);
  }

  /** With marked contents, bytes left behind lie before what is recorded later. */
  lemma {:induction false} DirtyZero(started: int, es: seq<Entry>)
    requires IsMarked(es) && Dirty(es) && !Record(started, es).broken
    ensures ZeroWithin(Record(started, es).bin, KeptBytes(started, es))
    decreases |es|
  {
    var before, e := es[..|es| - 1], es[|es| - 1];
    KeptBytesNext(started, es);
    if Dirty(before) {
      DirtyZero(started, before);
      ZeroStays(Record(started, before).bin, Record(started, es).bin, KeptBytes(started, before), KeptBytes(started, es));
    } else {
      NotDirtyHarmless(started, before);
      RecordingHolds(started, before);
      var bin, bin' := Record(started, before).bin, Record(started, es).bin;
      assert e.chunk[0] in e.chunk;
      assert bin'[|bin|] == 0;
    }
  }

  lemma {:induction false} HarmZero(started: int, es: seq<Entry>)
    requires IsMarked(es) && !Harmless(started, es)
    ensures KeptBytes(started, es) > 0 && ZeroWithin(Record(started, es).bin, KeptBytes(started, es) - 1)
    decreases |es|
  {
    var before, e := es[..|es| - 1], es[|es| - 1];
    KeptBytesNext(started, es);
    var bin, bin' := Record(started, before).bin, Record(started, es).bin;
    if !Harmless(started, before) {
      HarmZero(started, before);
      ZeroStays(bin, bin', KeptBytes(started, before) - 1, KeptBytes(started, es) - 1);
    } else {
      DirtyZero(started, before);
      ZeroStays(bin, bin', KeptBytes(started, before), KeptBytes(started, es) - 1);
    }
  }

  class Recorder {
    const started: int
    var bin: seq<Byte>
    var rows: seq<Row>
    var broken: bool       // the sticky error of the buffered timing writer
    var failures: nat

    function Now(): Tape
      reads this
    {
      Tape(bin, rows, broken, failures)
    }

    constructor (now: int)
      ensures started == now && Now() == Blank()
    {
      started, bin, rows, broken, failures := now, [], [HEADER], false, 0;
    }

    /** Opening fails exactly when the header row cannot be written. */
    static method Open(now: int, headerFails: bool) returns (rec: Recorder?)
      ensures rec == null <==> headerFails
      ensures rec != null ==> fresh(rec) && rec.started == now && rec.Now() == Blank()
    {
      if headerFails {
        return null;
      }
      rec := new Recorder(now);
    }

    method WriteRow(row: Row, fails: bool, torn: Option<Row>) returns (ok: bool)
      modifies this`rows, this`broken
      ensures ok == (!old(broken) && !fails)
      ensures broken == (old(broken) || fails)
      ensures rows == old(rows) + if old(broken) then [] else if !fails then [row]
                                  else if torn.Some? then [torn.value] else []
    {
      if broken {
        return false;
      }
      if fails {
        broken := true;
        if torn.Some? {
          rows := rows + [torn.value];
        }
        return false;
      }
      rows := rows + [row];
      ok := true;
    }

    /** Errors are counted, never returned. */
    method Write(e: Entry)
      modifies this
      ensures Now() == WriteOnce(old(Now()), started, e)
    {
      var offset := OffsetMs(started, e.now);
      if e.outcome.binFails {
        bin := bin + e.chunk[..if e.outcome.written <= |e.chunk| then e.outcome.written else |e.chunk|];
        failures := failures + 1;
        return;
      }
      bin := bin + e.chunk;
      var ok := WriteRow(RowFor(offset, |e.chunk|), e.outcome.timingFails, e.outcome.torn);
      if !ok {
        failures := failures + 1;
      }
    }
  }
}

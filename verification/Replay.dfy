/**
 * Playing a recording back (gateway/internal/source/replay/replay.go), and what comes back of what was
 * recorded. The clock, the sleeps and the cancellation of the context are parameters of each read.
 */
module Replay {
  import opened Bytes
  import opened Decimal
  import opened Durations
  import opened Recording

  const FAST_SPEEDUP_FACTOR := 10

  datatype Speed = Realtime | Fast | Instant

  function NormalizeSpeed(s: string): Speed {
    if s == "fast" then Fast else if s == "instant" then Instant else Realtime
  }

  datatype Config = Config(bin: seq<Byte>, rows: Option<seq<Row>>, speed: Speed)

  /** Without timing file the whole recording is one chunk, and nothing waits. */
  function Opened(bin: seq<Byte>, rows: Option<seq<Row>>, speed: string): Config {
    Config(bin, rows, if rows.None? then Instant else NormalizeSpeed(speed))
  }

  /** Unknown speeds are real time. */
  lemma SpeedIff(bin: seq<Byte>, rows: Option<seq<Row>>, speed: string)
    ensures var c := Opened(bin, rows, speed);
            && (c.speed == Instant <==> rows.None? || speed == "instant")
            && (c.speed == Fast <==> rows.Some? && speed == "fast")
  {}

  datatype State = State(pos: nat, next: nat, headerRow: bool, finished: bool, started: Option<int>)

  const INITIAL := State(0, 0, false, false, None)

  datatype World = World(
    cancelled: bool,    // the context is cancelled before the read
    first: int,         // the clock when the first row has been read
    before: int,        // the clock when the sleep is computed
    sleepFails: bool,   // the sleep, if there is one, is cancelled
    readFails: Option<nat>,    // after how many bytes reading the recording fails, if it does
    after: int)         // the clock when the chunk is returned

  datatype ReadResult = Chunk(bytes: seq<Byte>) | Eof | Cancelled | SleepError | RowError | BinError

  datatype Timing = Timing(offsetMs: Int64, length: nat)

  datatype RowResult = Data(timing: Timing) | RowsEnd | BadRow

  predicate Sound(c: Config, st: State) {
    st.pos <= |c.bin| && (c.rows.Some? ==> st.next <= |c.rows.value|)
  }

  // ---- One read ----

  /** Offset and length, if the row has two fields that parse. */
  function Parsed(row: Row): (r: Option<(Int64, Int64)>)
    ensures r.Some? ==> |row| == 2
  {
    if |row| != 2 then None
    else
      var offset, length := ParseInt(row[0]), ParseInt(row[1]);
      if offset.None? || length.None? then None else Some((offset.value, length.value))
  }

  /** The loop over the rows: header and rows without bytes are skipped. */
  function NextRow(rows: seq<Row>, i: nat, headerRow: bool): (r: (nat, bool, RowResult))
    requires i <= |rows|
    ensures i <= r.0 <= |rows| && (r.2.Data? ==> i < r.0 && r.1 && r.2.timing.length > 0)
    decreases |rows| - i
  {
    if i == |rows| then (i, headerRow, RowsEnd)
    else
      var row := rows[i];
      if |row| != 2 then (i + 1, headerRow, BadRow)
      else if !headerRow && row[0] == "offset_ms" then NextRow(rows, i + 1, true)
      else
        var t := Parsed(row);
        if t.None? then (i + 1, true, BadRow)
        else if t.value.1 <= 0 then NextRow(rows, i + 1, true)
        else (i + 1, true, Data(Timing(t.value.0, t.value.1)))
  }

  function Scaled(speed: Speed, offsetMs: Int64): Int64 {
    if speed == Fast then Quot(Millis(offsetMs), FAST_SPEEDUP_FACTOR) else Millis(offsetMs)
  }

  function Started(st: State, w: World): int { if st.started.Some? then st.started.value else w.first }

  /** What is left to wait for. */
  function Delay(speed: Speed, started: int, offsetMs: Int64, now: int): Int64 {
    if speed == Instant then 0 else Elapsed(now, started + Scaled(speed, offsetMs))
  }

  /** The bytes a read can get before the file ends or fails. */
  function Available(c: Config, st: State, readFails: Option<nat>): (n: nat)
    requires Sound(c, st)
    ensures st.pos + n <= |c.bin|
  {
    if readFails.Some? && readFails.value < |c.bin| - st.pos then readFails.value else |c.bin| - st.pos
  }

  /** The next bytes of the recording; one that is truncated, or cannot be read further, ends the replay. */
  function TakeBytes(c: Config, st: State, length: nat, readFails: Option<nat>): (State, ReadResult)
    requires Sound(c, st)
  {
    var n := Available(c, st, readFails);
    if length <= n then (st.(pos := st.pos + length), Chunk(c.bin[st.pos..st.pos + length]))
    else (st.(pos := st.pos + n, finished := true), if n == 0 then Eof else Chunk(c.bin[st.pos..st.pos + n]))
  }

  function WholeBin(c: Config, st: State, readFails: Option<nat>): (State, ReadResult)
    requires Sound(c, st)
  {
    if readFails.Some? && readFails.value <= |c.bin| - st.pos then (st.(finished := true), BinError)
    else (st.(pos := |c.bin|, finished := true), if st.pos == |c.bin| then Eof else Chunk(c.bin[st.pos..]))
  }

  function TimedRead(c: Config, st: State, w: World): (State, ReadResult)
    requires Sound(c, st) && c.rows.Some?
  {
    var (next, headerRow, row) := NextRow(c.rows.value, st.next, st.headerRow);
    var st' := st.(next := next, headerRow := headerRow);
    match row
    case RowsEnd => (st'.(finished := true), Eof)
    case BadRow => (st'.(finished := true), RowError)
    case Data(t) =>
      var st'' := st'.(started := Some(Started(st, w)));
      if Delay(c.speed, Started(st, w), t.offsetMs, w.before) > 0 && w.sleepFails then (st'', SleepError)
      else TakeBytes(c, st'', t.length, w.readFails)
  }

  function ReadOnce(c: Config, st: State, w: World): (r: (State, ReadResult))
    requires Sound(c, st)
    ensures Sound(c, r.0)
  {
    if w.cancelled then (st, Cancelled)
    else if st.finished then (st, Eof)
    else if c.rows.None? then WholeBin(c, st, w.readFails)
    else TimedRead(c, st, w)
  }

  // ---- Runs ----

  /** The chunks that a run of reads returns. */
  function Chunks(c: Config, st: State, ws: seq<World>): seq<seq<Byte>>
    requires Sound(c, st)
    decreases |ws|
  {
    if ws == [] then []
    else
      var (st', r) := ReadOnce(c, st, ws[0]);
      (if r.Chunk? then [r.bytes] else []) + Chunks(c, st', ws[1..])
  }

  function OneOrNone(r: ReadResult): seq<seq<Byte>> { if r.Chunk? then [r.bytes] else [] }

  lemma ReadOncePrefix(c: Config, st: State, w: World)
    requires Sound(c, st)
    ensures var (st', r) := ReadOnce(c, st, w);
            st.pos <= st'.pos && Concat(OneOrNone(r)) == c.bin[st.pos..st'.pos]
  {
    hide NextRow, Delay;
    var r := ReadOnce(c, st, w).1;
    if r.Chunk? {
      ConcatOne(r.bytes);
    }
  }

  lemma Rejoin(b: seq<Byte>, i: nat, j: nat, t: seq<Byte>)
    requires i <= j <= |b| && t <= b[j..]
    ensures b[i..j] + t <= b[i..]
  {
    assert b[i..] == b[i..j] + b[j..];
  }

  /**
   * For any rows, any bytes and any run, disturbed or not, what was replayed so far is a prefix of the
   * recording, and the rest of it is still there.
   */
  lemma {:induction false} ReplayIsPrefix(c: Config, st: State, ws: seq<World>)
    requires Sound(c, st)
    ensures Concat(Chunks(c, st, ws)) <= c.bin[st.pos..]
    decreases |ws|
  {
    if ws == [] {
    } else {
      var (st', r) := ReadOnce(c, st, ws[0]);
      ReadOncePrefix(c, st, ws[0]);
      ReplayIsPrefix(c, st', ws[1..]);
      hide ReadOnce, Concat;
      ConcatAppend(OneOrNone(r), Chunks(c, st', ws[1..]));
      Rejoin(c.bin, st.pos, st'.pos, Concat(Chunks(c, st', ws[1..])));
    }
  }

  /** Once a read says the recording is over, every later read says so, unless its context is cancelled. */
  lemma EndIsFinal(c: Config, st: State, w: World, later: World)
    requires Sound(c, st) && !later.cancelled
    requires ReadOnce(c, st, w).1.Eof? || ReadOnce(c, st, w).1.RowError? || ReadOnce(c, st, w).1.BinError?
    ensures var st' := ReadOnce(c, st, w).0; st'.finished && ReadOnce(c, st', later) == (st', Eof)
  {}

  // ---- What one read returns, and when ----

  /** The row the next read is about. */
  function UpNext(c: Config, st: State): RowResult
    requires Sound(c, st) && c.rows.Some?
  {
    NextRow(c.rows.value, st.next, st.headerRow).2
  }

  /** The read gets to the point of waiting for a row with bytes. */
  predicate Waits(c: Config, st: State, w: World)
    requires Sound(c, st)
  {
    !w.cancelled && !st.finished && c.rows.Some? && UpNext(c, st).Data?
  }

  lemma DelayIff(speed: Speed, started: int, offsetMs: Int64, now: int)
    ensures Delay(speed, started, offsetMs, now) > 0 <==> speed != Instant && now < started + Scaled(speed, offsetMs)
  {
    hide Scaled;
  }

  /** Each kind of failure has its cause, and only that. */
  lemma FailureIff(c: Config, st: State, w: World)
    requires Sound(c, st)
    ensures var r := ReadOnce(c, st, w).1;
            && (r.Cancelled? <==> w.cancelled)
            && (r.SleepError? <==>
                  Waits(c, st, w) && w.sleepFails && c.speed != Instant
                  && w.before < Started(st, w) + Scaled(c.speed, UpNext(c, st).timing.offsetMs))
            && (r.RowError? <==> !w.cancelled && !st.finished && c.rows.Some? && UpNext(c, st).BadRow?)
            && (r.BinError? <==> !w.cancelled && !st.finished && c.rows.None?
                                 && w.readFails.Some? && w.readFails.value <= |c.bin| - st.pos)
  {
    hide NextRow, Delay, Scaled;
    if Waits(c, st, w) {
      DelayIff(c.speed, Started(st, w), UpNext(c, st).timing.offsetMs, w.before);
    }
  }

  /** A cancelled read costs nothing, a cancelled sleep the row that was waited for, and neither a byte. */
  lemma FailureCosts(c: Config, st: State, w: World)
    requires Sound(c, st)
    ensures var (st', r) := ReadOnce(c, st, w);
            && (r.Cancelled? ==> st' == st)
            && (r.SleepError? ==> st' == st.(next := NextRow(c.rows.value, st.next, st.headerRow).0, headerRow := true,
                                             started := Some(Started(st, w))))
  {
    hide NextRow, Delay;
  }

  /** A chunk has the length of its row, unless the file ends or fails before that. */
  lemma ChunkLength(c: Config, st: State, w: World)
    requires Sound(c, st) && Waits(c, st, w) && !ReadOnce(c, st, w).1.SleepError?
    ensures var r, length := ReadOnce(c, st, w).1, UpNext(c, st).timing.length;
            var n := Min(length, Min(|c.bin| - st.pos, if w.readFails.Some? then w.readFails.value else length));
            && r == (if n == 0 then Eof else Chunk(c.bin[st.pos..st.pos + n]))
            && (ReadOnce(c, st, w).0.finished <==> n < length)
  {
    hide NextRow, Delay;
  }

  /** The sleep lasts exactly as long as asked for. */
  predicate ExactSleep(w: World, delay: int) { w.after == w.before + Max(0, delay) }

  /** The wait is what is missing to the target, so with exact sleeps a chunk leaves then, or at once when it is late. */
  lemma LeavesOnTime(speed: Speed, started: int, offsetMs: Int64, w: World)
    requires speed != Instant && ExactSleep(w, Delay(speed, started, offsetMs, w.before))
    requires started + Scaled(speed, offsetMs) - w.before < LIMIT63
    ensures w.after == Max(w.before, started + Scaled(speed, offsetMs))
  {
    hide Scaled;
  }

  // ---- What the rows promise ----

  /** The rows with bytes, up to the first that does not parse. */
  function Timings(rows: seq<Row>): (ts: seq<Timing>)
    ensures forall t :: t in ts ==> t.length > 0
    decreases |rows|
  {
    if rows == [] || Parsed(rows[0]).None? then []
    else
      var (offset, length) := Parsed(rows[0]).value;
      (if length > 0 then [Timing(offset, length)] else []) + Timings(rows[1..])
  }

  predicate IsHeader(row: Row) { |row| == 2 && row[0] == "offset_ms" }

  function Plan(rows: seq<Row>): seq<Timing> {
    if rows != [] && IsHeader(rows[0]) then Timings(rows[1..]) else Timings(rows)
  }

  /** The rows not read yet promise these chunks. */
  function Promised(rows: seq<Row>, next: nat, headerRow: bool): seq<Timing>
    requires next <= |rows|
  {
    if headerRow then Timings(rows[next..]) else Plan(rows[next..])
  }

  lemma PromisedRow(rows: seq<Row>, i: nat, headerRow: bool)
    requires i < |rows|
    ensures Promised(rows, i, headerRow) ==
            if !headerRow && IsHeader(rows[i]) then Promised(rows, i + 1, true)
            else if Parsed(rows[i]).None? then []
            else
              var (offset, length) := Parsed(rows[i]).value;
              (if length > 0 then [Timing(offset, length)] else []) + Promised(rows, i + 1, true)
  {
    hide Parsed;
    assert rows[i..][1..] == rows[i + 1..] && rows[i..][0] == rows[i];
  }

  predicate Skips(row: Row, headerRow: bool) {
    (!headerRow && IsHeader(row)) || (Parsed(row).Some? && Parsed(row).value.1 <= 0)
  }

  lemma SkippedRow(rows: seq<Row>, i: nat, headerRow: bool)
    requires i < |rows| && Skips(rows[i], headerRow)
    ensures NextRow(rows, i, headerRow) == NextRow(rows, i + 1, true)
    ensures Promised(rows, i, headerRow) == Promised(rows, i + 1, true)
  {
    PromisedRow(rows, i, headerRow);
    hide Promised;
    assert [] + Promised(rows, i + 1, true) == Promised(rows, i + 1, true);
  }

  lemma KeptRow(rows: seq<Row>, i: nat, headerRow: bool)
    requires i < |rows| && !Skips(rows[i], headerRow)
    ensures var (j, h, r) := NextRow(rows, i, headerRow);
            Promised(rows, i, headerRow) == if r.Data? then [r.timing] + Promised(rows, j, h) else []
  {
    hide Promised, Parsed;
    PromisedRow(rows, i, headerRow);
    var row := rows[i];
    var r := NextRow(rows, i, headerRow);
    if Parsed(row).None? {
      assert r.2 == BadRow;
    } else {
      assert r == (i + 1, true, Data(Timing(Parsed(row).value.0, Parsed(row).value.1)));
    }
  }

  /** The loop stops at the first row that is not skipped, and says whether that one parses. */
  lemma NextRowStops(rows: seq<Row>, i: nat, headerRow: bool)
    requires i <= |rows|
    ensures var (j, _, r) := NextRow(rows, i, headerRow);
            if r.RowsEnd? then
              j == |rows| && forall k :: i <= k < |rows| ==> Skips(rows[k], headerRow || k > i)
            else
              && i < j && (forall k :: i <= k < j - 1 ==> Skips(rows[k], headerRow || k > i))
              && !Skips(rows[j - 1], headerRow || j - 1 > i)
              && (if r.BadRow? then Parsed(rows[j - 1]).None?
                  else Parsed(rows[j - 1]) == Some((r.timing.offsetMs, r.timing.length)))
    decreases |rows| - i
  {
    hide ParseInt;
    if i < |rows| && Skips(rows[i], headerRow) {
      SkippedRow(rows, i, headerRow);
      NextRowStops(rows, i + 1, true);
    }
  }

  lemma NextRowIsPromised(rows: seq<Row>, i: nat, headerRow: bool)
    requires i <= |rows|
    ensures var (j, h, r) := NextRow(rows, i, headerRow);
            Promised(rows, i, headerRow) == if r.Data? then [r.timing] + Promised(rows, j, h) else []
    decreases |rows| - i
  {
    if i < |rows| {
      hide *;
      if Skips(rows[i], headerRow) {
        SkippedRow(rows, i, headerRow);
        NextRowIsPromised(rows, i + 1, true);
      } else {
        KeptRow(rows, i, headerRow);
      }
    }
  }

  /** The recording cut at the promised lengths, as far as it reaches. */
  function Cut(bin: seq<Byte>, ts: seq<Timing>): seq<seq<Byte>>
    decreases |ts|
  {
    if ts == [] || bin == [] then []
    else if ts[0].length <= |bin| then [bin[..ts[0].length]] + Cut(bin[ts[0].length..], ts[1..])
    else [bin]
  }

  function Expected(c: Config): seq<seq<Byte>> {
    if c.rows.Some? then Cut(c.bin, Plan(c.rows.value)) else if c.bin == [] then [] else [c.bin]
  }

  function Total(ts: seq<Timing>): nat
    decreases |ts|
  {
    if ts == [] then 0 else ts[0].length + Total(ts[1..])
  }

  lemma {:induction false} CutReaches(bin: seq<Byte>, ts: seq<Timing>)
    ensures Concat(Cut(bin, ts)) == bin[..Min(Total(ts), |bin|)]
    decreases |ts|
  {
    if ts != [] && bin != [] {
      var n := ts[0].length;
      if n <= |bin| {
        CutReaches(bin[n..], ts[1..]);
        var m := Min(Total(ts[1..]), |bin| - n);
        assert bin[..n] + bin[n..][..m] == bin[..n + m];
      } else {
        ConcatOne(bin);
      }
    }
  }

  /** The whole recording is replayed exactly when the rows cover it. */
  lemma ReplayCoversIff(c: Config)
    ensures Concat(Expected(c)) == c.bin <==> c.rows.None? || Total(Plan(c.rows.value)) >= |c.bin|
  {
    hide Plan;
    if c.rows.Some? {
      CutReaches(c.bin, Plan(c.rows.value));
    } else if c.bin != [] {
      ConcatOne(c.bin);
    }
  }

  /** No cancellation, neither between the reads nor in a sleep, and no read error. */
  predicate Calm(w: World) { !w.cancelled && !w.sleepFails && w.readFails.None? }

  function Take<T>(s: seq<T>, n: nat): seq<T> { if n <= |s| then s[..n] else s }

  lemma {:induction false} FinishedReturnsNothing(c: Config, st: State, ws: seq<World>)
    requires Sound(c, st) && st.finished
    ensures Chunks(c, st, ws) == []
    decreases |ws|
  {
    if ws == [] {
    } else {
      FinishedReturnsNothing(c, st, ws[1..]);
    }
  }

  /** The chunks still to come. */
  function Remaining(c: Config, st: State): seq<seq<Byte>>
    requires Sound(c, st) && c.rows.Some?
  {
    if st.finished then [] else Cut(c.bin[st.pos..], Promised(c.rows.value, st.next, st.headerRow))
  }

  lemma CalmStep(c: Config, st: State, w: World)
    requires Sound(c, st) && c.rows.Some? && Calm(w)
    ensures var (st', r) := ReadOnce(c, st, w);
            if Remaining(c, st) == [] then !r.Chunk? && Remaining(c, st') == []
            else r == Chunk(Remaining(c, st)[0]) && Remaining(c, st') == Remaining(c, st)[1..]
  {
    hide Promised, NextRow, Delay;
    if !st.finished {
      var rows := c.rows.value;
      NextRowIsPromised(rows, st.next, st.headerRow);
      var r := NextRow(rows, st.next, st.headerRow).2;
      if r.Data? {
        TakeIsCut(c, st, r.timing, Promised(rows, NextRow(rows, st.next, st.headerRow).0, true));
      }
    }
  }

  lemma TakeIsCut(c: Config, st: State, t: Timing, ts: seq<Timing>)
    requires Sound(c, st) && t.length > 0
    ensures var rest := c.bin[st.pos..];
            var (st', r) := TakeBytes(c, st, t.length, None);
            if rest == [] then r == Eof && st'.finished && Cut(rest, [t] + ts) == []
            else if t.length > |rest| then r == Chunk(rest) && st'.finished && Cut(rest, [t] + ts) == [rest]
            else r == Chunk(rest[..t.length]) && st'.finished == st.finished
                 && Cut(rest, [t] + ts) == [rest[..t.length]] + Cut(c.bin[st'.pos..], ts)
  {
    assert ([t] + ts)[1..] == ts;
    var rest := c.bin[st.pos..];
    assert c.bin[st.pos..|c.bin|] == rest;
    if t.length <= |rest| {
      DropDrop(c.bin, st.pos, t.length);
      assert rest[..t.length] == c.bin[st.pos..st.pos + t.length];
    }
  }

  lemma {:induction false} CalmRun(c: Config, st: State, ws: seq<World>)
    requires Sound(c, st) && c.rows.Some? && forall w :: w in ws ==> Calm(w)
    ensures Chunks(c, st, ws) == Take(Remaining(c, st), |ws|)
    decreases |ws|
  {
    if ws == [] {
    } else {
      var (st', r) := ReadOnce(c, st, ws[0]);
      CalmStep(c, st, ws[0]);
      CalmRun(c, st', ws[1..]);
      hide ReadOnce, Remaining;
      var rest := Remaining(c, st);
      if rest != [] {
        assert Take(rest, |ws|) == [rest[0]] + Take(rest[1..], |ws| - 1);
      }
    }
  }

  /** Undisturbed, the k-th read returns the k-th promised piece of the recording, at every speed. */
  lemma ReplayIsCut(c: Config, ws: seq<World>)
    requires forall w :: w in ws ==> Calm(w)
    ensures Chunks(c, INITIAL, ws) == Take(Expected(c), |ws|)
  {
    if c.rows.Some? {
      CalmRun(c, INITIAL, ws);
      assert c.bin[0..] == c.bin && c.rows.value[0..] == c.rows.value;
    } else if ws != [] {
      var (st', r) := ReadOnce(c, INITIAL, ws[0]);
      assert ws[0] in ws;
      FinishedReturnsNothing(c, st', ws[1..]);
      assert c.bin[0..] == c.bin;
    }
  }

  // ---- Record, then replay ----

  /** The entries with bytes. */
  function Solid(es: seq<Entry>): seq<Entry>
    decreases |es|
  {
    if es == [] then [] else (if es[0].chunk == [] then [] else [es[0]]) + Solid(es[1..])
  }

  function TimingsOf(started: int, es: seq<Entry>): seq<Timing> {
    seq(|es|, i requires 0 <= i < |es| => Timing(OffsetMs(started, es[i].now), |es[i].chunk|))
  }

  lemma RowParses(offset: Int64, length: nat)
    requires length < LIMIT63
    ensures Parsed(RowFor(offset, length)) == Some((offset, length))
  {
    ParseFormat(offset);
    ParseFormat(length);
  }

  lemma TimingsCons(row: Row, rest: seq<Row>, offset: Int64, length: nat)
    requires length < LIMIT63 && Parsed(row) == Some((offset, length))
    ensures Timings([row] + rest) == (if length > 0 then [Timing(offset, length)] else []) + Timings(rest)
  {
    hide Parsed;
    assert ([row] + rest)[1..] == rest;
  }

  lemma FirstOf(started: int, es: seq<Entry>)
    requires es != []
    ensures RowsOf(started, es) == [RowFor(OffsetMs(started, es[0].now), |es[0].chunk|)] + RowsOf(started, es[1..])
    ensures TimingsOf(started, es) == [Timing(OffsetMs(started, es[0].now), |es[0].chunk|)] + TimingsOf(started, es[1..])
    ensures ChunksOf(es) == [es[0].chunk] + ChunksOf(es[1..])
  {
    hide RowFor, OffsetMs;
  }

  lemma {:induction false} RowsRead(started: int, es: seq<Entry>, tail: seq<Row>)
    requires forall e :: e in es ==> |e.chunk| < LIMIT63
    ensures Timings(RowsOf(started, es) + tail) == TimingsOf(started, Solid(es)) + Timings(tail)
    decreases |es|
  {
    if es == [] {
      assert RowsOf(started, es) + tail == tail;
      assert TimingsOf(started, []) + Timings(tail) == Timings(tail);
    } else {
      var e := es[0];
      assert e in es;
      hide Parsed, RowFor, OffsetMs, Timings, RowsOf, TimingsOf;
      var offset, length := OffsetMs(started, e.now), |e.chunk|;
      RowsRead(started, es[1..], tail);
      RowParses(offset, length);
      FirstOf(started, es);
      Assoc([RowFor(offset, length)], RowsOf(started, es[1..]), tail);
      TimingsCons(RowFor(offset, length), RowsOf(started, es[1..]) + tail, offset, length);
      var later := Solid(es[1..]);
      if e.chunk == [] {
        NothingBefore(TimingsOf(started, later) + Timings(tail));
        NothingBefore(later);
      } else {
        FirstOf(started, [e] + later);
        assert ([e] + later)[1..] == later;
        Assoc([Timing(offset, length)], TimingsOf(started, later), Timings(tail));
      }
    }
  }

  lemma NothingBefore<T>(s: seq<T>)
    ensures [] + s == s
  {}

  lemma {:induction false} SameBytes(es: seq<Entry>)
    ensures Concat(ChunksOf(Solid(es))) == Concat(ChunksOf(es))
    decreases |es|
  {
    if es == [] {
    } else {
      SameBytes(es[1..]);
      var chunks := ChunksOf(es);
      assert chunks[1..] == ChunksOf(es[1..]);
      assert Concat(chunks) == es[0].chunk + Concat(ChunksOf(es[1..]));
      if es[0].chunk == [] {
        assert [] + Concat(ChunksOf(es[1..])) == Concat(ChunksOf(es[1..]));
        assert [] + Solid(es[1..]) == Solid(es[1..]);
      } else {
        var solid := ChunksOf(Solid(es));
        assert solid[1..] == ChunksOf(Solid(es[1..])) && solid[0] == es[0].chunk;
      }
    }
  }

  lemma {:induction false} SolidHasBytes(es: seq<Entry>)
    ensures forall e :: e in Solid(es) ==> e.chunk != []
    decreases |es|
  {
    if es == [] {
    } else {
      SolidHasBytes(es[1..]);
    }
  }

  lemma {:induction false} CutRestores(started: int, es: seq<Entry>, extra: seq<Byte>, ts: seq<Timing>)
    requires forall e :: e in es ==> e.chunk != []
    ensures Cut(Concat(ChunksOf(es)) + extra, TimingsOf(started, es) + ts) == ChunksOf(es) + Cut(extra, ts)
    decreases |es|
  {
    if es == [] {
      assert Concat(ChunksOf(es)) + extra == extra && TimingsOf(started, es) + ts == ts;
      assert ChunksOf(es) + Cut(extra, ts) == Cut(extra, ts);
    } else {
      var e, rest := es[0], es[1..];
      CutRestores(started, rest, extra, ts);
      var chunks, all := ChunksOf(es), TimingsOf(started, es) + ts;
      assert chunks == [e.chunk] + ChunksOf(rest) && chunks[1..] == ChunksOf(rest);
      assert all[1..] == TimingsOf(started, rest) + ts && all[0].length == |e.chunk|;
      assert e in es;
      hide ChunksOf, TimingsOf;
      SplitAt(e.chunk, Concat(ChunksOf(rest)), extra);
      Assoc([e.chunk], ChunksOf(rest), Cut(extra, ts));
    }
  }

  lemma SplitAt(a: seq<Byte>, b: seq<Byte>, c: seq<Byte>)
    ensures (a + b + c)[..|a|] == a && (a + b + c)[|a|..] == b + c
  {}

  /** The recorder's files, opened for replay. */
  function ReplayOf(started: int, es: seq<Entry>, speed: Speed): Config {
    Config(Record(started, es).bin, Some(Record(started, es).rows), speed)
  }

  lemma BehindHeader(rows: seq<Row>, first: seq<Row>, last: seq<Row>)
    requires rows == [HEADER] + first + last
    ensures Plan(rows) == Timings(first + last)
  {
    assert rows[0] == HEADER && rows[1..] == first + last;
  }

  lemma RestOf<T>(s: seq<T>, start: seq<T>)
    requires start <= s
    ensures s == start + s[|start|..]
  {}

  lemma RecordedFiles(t: Tape, started: int, kept: seq<Entry>, torn: seq<Row>, dirty: bool)
    requires Holds(t, started, kept, torn, dirty) && forall e :: e in kept ==> |e.chunk| < LIMIT63
    ensures Plan(t.rows) == TimingsOf(started, Solid(kept)) + Timings(torn)
    ensures Cut(t.bin, Plan(t.rows)) == ChunksOf(Solid(kept)) + Cut(t.bin[|Concat(ChunksOf(kept))|..], Timings(torn))
  {
    hide Solid, Timings, Cut, Concat, ChunksOf, RowsOf, TimingsOf, Plan;
    RowsRead(started, kept, torn);
    SameBytes(kept);
    SolidHasBytes(kept);
    BehindHeader(t.rows, RowsOf(started, kept), torn);
    var bytes := Concat(ChunksOf(Solid(kept)));
    RestOf(t.bin, bytes);
    CutRestores(started, Solid(kept), t.bin[|bytes|..], Timings(torn));
  }

  /** A torn row does not promise bytes, or there are none behind the recorded chunks to give it. */
  predicate TornHarmless(started: int, es: seq<Entry>) {
    Timings(Torn(started, es)) == [] || |Record(started, es).bin| == KeptBytes(started, es)
  }

  /** What is replayed behind the recorded chunks. */
  lemma ReplayedBehind(started: int, es: seq<Entry>, speed: Speed)
    requires Harmless(started, es) && forall e :: e in es ==> |e.chunk| < LIMIT63
    ensures |Record(started, es).bin| >= KeptBytes(started, es)
    ensures Plan(ReplayOf(started, es, speed).rows.value)
            == TimingsOf(started, Solid(Kept(started, es))) + Timings(Torn(started, es))
    ensures Expected(ReplayOf(started, es, speed))
            == ChunksOf(Solid(Kept(started, es)))
               + Cut(Record(started, es).bin[KeptBytes(started, es)..], Timings(Torn(started, es)))
  {
    hide Harmless;
    RecordingHolds(started, es);
    KeptAreEntries(started, es);
    hide Kept, Record, Torn;
    RecordedFiles(Record(started, es), started, Kept(started, es), Torn(started, es), Dirty(es));
  }

  lemma CutIsEmpty(bin: seq<Byte>, ts: seq<Timing>)
    ensures Cut(bin, ts) == [] <==> bin == [] || ts == []
  {}

  /**
   * The replay returns exactly the chunks whose writes succeeded, with their boundaries and offsets,
   * except empty ones, although writes failed.
   */
  lemma RecordThenReplay(started: int, es: seq<Entry>, speed: Speed)
    requires Harmless(started, es) && TornHarmless(started, es) && forall e :: e in es ==> |e.chunk| < LIMIT63
    ensures var kept := Solid(Kept(started, es));
            && Expected(ReplayOf(started, es, speed)) == ChunksOf(kept)
            && TimingsOf(started, kept) <= Plan(ReplayOf(started, es, speed).rows.value)
            && (Torn(started, es) == [] ==> Plan(ReplayOf(started, es, speed).rows.value) == TimingsOf(started, kept))
  {
    ReplayedBehind(started, es, speed);
    hide Kept, Record, Torn, Solid, Harmless, KeptBytes, Plan, Expected, ChunksOf, TimingsOf, Cut;
    var kept := Solid(Kept(started, es));
    CutIsEmpty(Record(started, es).bin[KeptBytes(started, es)..], Timings(Torn(started, es)));
    assert ChunksOf(kept) + [] == ChunksOf(kept) && TimingsOf(started, kept) + [] == TimingsOf(started, kept);
  }

  lemma ExpectedIsPrefix(c: Config)
    ensures Concat(Expected(c)) <= c.bin
  {
    hide Plan;
    if c.rows.Some? {
      CutReaches(c.bin, Plan(c.rows.value));
    } else if c.bin != [] {
      ConcatOne(c.bin);
    }
  }

  lemma ZeroAgainstOnes(bytes: seq<Byte>, bin: seq<Byte>)
    requires bytes != [] && (forall b :: b in bytes ==> b == 1) && ZeroWithin(bin, |bytes| - 1)
    ensures !(bytes <= bin)
  {
    var p :| 0 <= p < |bin| && p <= |bytes| - 1 && bin[p] == 0;
    assert bytes[p] in bytes;
  }

  /** With marked contents, harmful writes show. */
  lemma HarmShows(started: int, es: seq<Entry>, speed: Speed)
    requires IsMarked(es) && !Harmless(started, es)
    ensures Expected(ReplayOf(started, es, speed)) != ChunksOf(Solid(Kept(started, es)))
  {
    HarmZero(started, es);
    KeptAreOnes(started, es);
    SameBytes(Kept(started, es));
    ExpectedIsPrefix(ReplayOf(started, es, speed));
    hide Kept, Record, Solid, Harmless, Expected, ChunksOf, Concat, IsMarked;
    ZeroAgainstOnes(Concat(ChunksOf(Kept(started, es))), Record(started, es).bin);
  }

  lemma TornShows(started: int, es: seq<Entry>, speed: Speed)
    requires Harmless(started, es) && !TornHarmless(started, es) && forall e :: e in es ==> |e.chunk| < LIMIT63
    ensures Expected(ReplayOf(started, es, speed)) != ChunksOf(Solid(Kept(started, es)))
  {
    ReplayedBehind(started, es, speed);
    hide Kept, Record, Torn, Solid, Harmless, KeptBytes, Expected, ChunksOf, Cut;
    CutIsEmpty(Record(started, es).bin[KeptBytes(started, es)..], Timings(Torn(started, es)));
  }

  lemma SameCondition(started: int, es: seq<Entry>, fs: seq<Entry>)
    requires SameShape(es, fs)
    ensures Harmless(started, fs) == Harmless(started, es) && TornHarmless(started, fs) == TornHarmless(started, es)
    ensures (forall e :: e in es ==> |e.chunk| < LIMIT63) ==> forall f :: f in fs ==> |f.chunk| < LIMIT63
  {
    ShapeDecidesFiles(started, es, fs);
    ShapeDecidesKept(started, es, fs);
    ShapeDecidesHarm(started, es, fs);
    ShapeLength(Kept(started, es), Kept(started, fs));
    hide Record, Kept, Torn, Harmless, Timings;
    if forall e :: e in es ==> |e.chunk| < LIMIT63 {
      forall f | f in fs ensures |f.chunk| < LIMIT63 {
        var i :| 0 <= i < |fs| && fs[i] == f;
        assert es[i] in es;
      }
    }
  }

  /**
   * For given times, lengths and outcomes of the writes: whatever the bytes are, exactly the recorded
   * chunks come back, if and only if no bytes left behind are followed by recorded ones and no torn
   * row promises bytes that are there.
   */
  lemma RecordThenReplayIff(started: int, es: seq<Entry>, speed: Speed)
    requires forall e :: e in es ==> |e.chunk| < LIMIT63
    ensures (forall fs :: SameShape(es, fs) ==>
               Expected(ReplayOf(started, fs, speed)) == ChunksOf(Solid(Kept(started, fs))))
            <==> Harmless(started, es) && TornHarmless(started, es)
  {
    hide Harmless, TornHarmless, Expected, ReplayOf, ChunksOf, Solid, Kept;
    if Harmless(started, es) && TornHarmless(started, es) {
      forall fs | SameShape(es, fs)
        ensures Expected(ReplayOf(started, fs, speed)) == ChunksOf(Solid(Kept(started, fs)))
      {
        SameCondition(started, es, fs);
        RecordThenReplay(started, fs, speed);
      }
    } else if !Harmless(started, es) {
      var fs := Marked(es);
      SameCondition(started, es, fs);
      hide SameShape, IsMarked;
      HarmShows(started, fs, speed);
    } else {
      assert SameShape(es, es);
      TornShows(started, es, speed);
    }
  }

  lemma {:induction false} KeptAreEntries(started: int, es: seq<Entry>)
    ensures forall e :: e in Kept(started, es) ==> e in es
    decreases |es|
  {
    if es == [] {
    } else {
      KeptAreEntries(started, es[..|es| - 1]);
    }
  }

  predicate Succeeding(e: Entry) { !e.outcome.binFails && !e.outcome.timingFails }

  lemma {:induction false} AllKept(started: int, es: seq<Entry>)
    requires forall e :: e in es ==> Succeeding(e)
    ensures Kept(started, es) == es && !Record(started, es).broken
    decreases |es|
  {
    if es == [] {
    } else {
      var before, e := es[..|es| - 1], es[|es| - 1];
      assert e in es;
      AllKept(started, before);
      hide RowFor, OffsetMs;
      assert es == before + [e];
    }
  }

  lemma {:induction false} NothingTorn(started: int, es: seq<Entry>)
    requires forall e :: e in es ==> Succeeding(e)
    ensures !Dirty(es) && Torn(started, es) == []
    decreases |es|
  {
    if es == [] {
    } else {
      assert es[|es| - 1] in es;
      NothingTorn(started, es[..|es| - 1]);
    }
  }

  /** Without write failures an undisturbed replay returns the recorded non-empty chunks, one per read. */
  lemma PerfectRecording(started: int, es: seq<Entry>, speed: Speed, ws: seq<World>)
    requires forall e :: e in es ==> Succeeding(e) && |e.chunk| < LIMIT63
    requires forall w :: w in ws ==> Calm(w)
    ensures Chunks(ReplayOf(started, es, speed), INITIAL, ws) == Take(ChunksOf(Solid(es)), |ws|)
  {
    AllKept(started, es);
    NothingTorn(started, es);
    NotDirtyHarmless(started, es);
    hide Kept, Record, Solid, Harmless, Torn, Dirty;
    RecordThenReplay(started, es, speed);
    ReplayIsCut(ReplayOf(started, es, speed), ws);
  }

  /** A write that fails half way shifts all later chunks: the replay returns a byte nobody recorded in that place. */
  lemma HalfWrittenChunkShifts(a: Byte, b: Byte, x: Byte)
    ensures var good := Outcome(false, 0, false, None);
            var es := [Entry([a, b], 0, Outcome(true, 1, false, None)), Entry([x], 0, good)];
            && ChunksOf(Kept(0, es)) == [[x]]
            && Expected(ReplayOf(0, es, Instant)) == [[a]]
  {
    var good := Outcome(false, 0, false, None);
    var half, whole := Entry([a, b], 0, Outcome(true, 1, false, None)), Entry([x], 0, good);
    var t := HalfWritten(a, b, x, half, whole);
    var row := t.rows[1];
    RowParses(OffsetMs(0, 0), 1);
    hide Parsed, RowFor, OffsetMs, Record, Kept;
    assert t.rows[1..] == [row] && [row][1..] == [];
    assert Timings([row]) == [Timing(OffsetMs(0, 0), 1)] + Timings([]);
    assert [a, x][..1] == [a];
    assert Cut([a, x], Plan(t.rows)) == [[a]] + Cut([a, x][1..], []);
  }

  lemma HalfWritten(a: Byte, b: Byte, x: Byte, half: Entry, whole: Entry) returns (t: Tape)
    requires half == Entry([a, b], 0, Outcome(true, 1, false, None))
    requires whole == Entry([x], 0, Outcome(false, 0, false, None))
    ensures t == Record(0, [half, whole]) && Kept(0, [half, whole]) == [whole]
    ensures t.bin == [a, x] && t.rows == [HEADER, RowFor(OffsetMs(0, 0), 1)]
  {
    hide RowFor, OffsetMs;
    var es := [half, whole];
    t := Record(0, es);
    assert es[..1] == [half] && [half][..0] == [];
    assert [a, b][..1] == [a];
    assert Record(0, [half]) == Tape([a], [HEADER], false, 1) && Kept(0, [half]) == [];
    assert [HEADER] + [RowFor(OffsetMs(0, 0), 1)] == [HEADER, RowFor(OffsetMs(0, 0), 1)];
  }

  // ---- Timed replay ----

  /** The clock does not go back, and a sleep that returns without error lasts long enough. */
  predicate Honest(w: World, started: int, delay: int) {
    started <= w.before <= w.after && (delay > 0 ==> w.after >= w.before + delay)
  }

  /** Conversion to nanoseconds is exact for offsets of up to 292 years, and for no others. */
  lemma ScaledExactIff(ms: Int64)
    ensures Scaled(Realtime, ms) == ms * NANOS_PER_MILLI <==> -LIMIT63 <= ms * NANOS_PER_MILLI < LIMIT63
  {}

  /** As long as it is, the fast mode takes exactly a tenth of the time. */
  lemma FastIsTenth(ms: Int64)
    requires -LIMIT63 <= ms * NANOS_PER_MILLI < LIMIT63
    ensures 10 * Scaled(Fast, ms) == Scaled(Realtime, ms)
  {
    ScaledExactIff(ms);
    assert ms * NANOS_PER_MILLI == 10 * (ms * 100_000);
  }

  /** A chunk recorded some time after the start is due that much after the start again, less than a millisecond off. */
  lemma CadenceKept(started: int, now: int)
    requires 0 <= now - started < LIMIT63
    ensures var due := Scaled(Realtime, OffsetMs(started, now)); due <= now - started < due + NANOS_PER_MILLI
  {
    var elapsed := now - started;
    var ms := elapsed / NANOS_PER_MILLI;
    assert Elapsed(started, now) == elapsed;
    assert OffsetMs(started, now) == ms;
    assert ms * NANOS_PER_MILLI <= elapsed < ms * NANOS_PER_MILLI + NANOS_PER_MILLI;
    ScaledExactIff(ms);
  }

  lemma DelayReachesTarget(speed: Speed, started: int, offsetMs: Int64, w: World)
    requires speed != Instant && Honest(w, started, Delay(speed, started, offsetMs, w.before))
    ensures w.after >= started + Scaled(speed, offsetMs)
  {
    hide Scaled;
  }

  /** The clock at the return of each chunk. */
  function Departures(c: Config, st: State, ws: seq<World>): seq<int>
    requires Sound(c, st)
    decreases |ws|
  {
    if ws == [] then []
    else
      var (st', r) := ReadOnce(c, st, ws[0]);
      (if r.Chunk? then [ws[0].after] else []) + Departures(c, st', ws[1..])
  }

  ghost predicate OnTime(departures: seq<int>, speed: Speed, started: int, ts: seq<Timing>) {
    && |departures| <= |ts|
    && forall k :: 0 <= k < |departures| ==> departures[k] >= started + Scaled(speed, ts[k].offsetMs)
  }

  /** The read is not cancelled and, if there is a row to wait for, its clock is honest about that wait. */
  ghost predicate Punctual(c: Config, st: State, w: World)
    requires Sound(c, st) && c.rows.Some?
  {
    var row := NextRow(c.rows.value, st.next, st.headerRow).2;
    Calm(w) && (row.Data? ==> Honest(w, Started(st, w), Delay(c.speed, Started(st, w), row.timing.offsetMs, w.before)))
  }

  ghost predicate PunctualRun(c: Config, st: State, ws: seq<World>)
    requires Sound(c, st) && c.rows.Some?
    decreases |ws|
  {
    ws == [] || (Punctual(c, st, ws[0]) && PunctualRun(c, ReadOnce(c, st, ws[0]).0, ws[1..]))
  }

  lemma OnTimeNext(departures: seq<int>, d: int, speed: Speed, started: int, t: Timing, ts: seq<Timing>)
    requires OnTime(departures, speed, started, ts) && d >= started + Scaled(speed, t.offsetMs)
    ensures OnTime([d] + departures, speed, started, [t] + ts)
  {
    hide Scaled;
  }

  lemma TimedStep(c: Config, st: State, w: World, started: int)
    requires Sound(c, st) && !st.finished && c.rows.Some? && c.speed != Instant && Started(st, w) == started
    requires Punctual(c, st, w)
    ensures var (st', r) := ReadOnce(c, st, w);
            var (j, h, row) := NextRow(c.rows.value, st.next, st.headerRow);
            && (r.Chunk? ==> row.Data? && w.after >= started + Scaled(c.speed, row.timing.offsetMs))
            && (!st'.finished ==> r.Chunk? && st'.next == j && st'.headerRow == h && st'.started == Some(started))
  {
    hide NextRow, Scaled;
    var row := NextRow(c.rows.value, st.next, st.headerRow).2;
    if row.Data? {
      DelayReachesTarget(c.speed, started, row.timing.offsetMs, w);
    }
  }

  lemma {:induction false} TimedRun(c: Config, st: State, ws: seq<World>, started: int)
    requires Sound(c, st) && !st.finished && c.rows.Some? && c.speed != Instant
    requires ws != [] ==> Started(st, ws[0]) == started
    requires PunctualRun(c, st, ws)
    ensures OnTime(Departures(c, st, ws), c.speed, started, Promised(c.rows.value, st.next, st.headerRow))
    decreases |ws|
  {
    hide Punctual, Promised, NextRow;
    if ws == [] {
    } else {
      var (st', r) := ReadOnce(c, st, ws[0]);
      var (j, h, row) := NextRow(c.rows.value, st.next, st.headerRow);
      TimedStep(c, st, ws[0], started);
      NextRowIsPromised(c.rows.value, st.next, st.headerRow);
      hide ReadOnce;
      if st'.finished {
        FinishedNeverDeparts(c, st', ws[1..]);
      } else {
        TimedRun(c, st', ws[1..], started);
      }
      if r.Chunk? {
        assert OnTime(Departures(c, st', ws[1..]), c.speed, started, Promised(c.rows.value, j, h));
        OnTimeNext(Departures(c, st', ws[1..]), ws[0].after, c.speed, started, row.timing, Promised(c.rows.value, j, h));
      }
    }
  }

  lemma {:induction false} FinishedNeverDeparts(c: Config, st: State, ws: seq<World>)
    requires Sound(c, st) && st.finished
    ensures Departures(c, st, ws) == []
    decreases |ws|
  {
    if ws == [] {
    } else {
      FinishedNeverDeparts(c, st, ws[1..]);
    }
  }

  /** In the timed modes no chunk leaves before the first read plus the chunk's scaled offset. */
  lemma NeverEarly(c: Config, ws: seq<World>)
    requires c.rows.Some? && c.speed != Instant && ws != []
    requires PunctualRun(c, INITIAL, ws)
    ensures OnTime(Departures(c, INITIAL, ws), c.speed, ws[0].first, Plan(c.rows.value))
  {
    TimedRun(c, INITIAL, ws, ws[0].first);
    assert c.rows.value[0..] == c.rows.value;
  }

  /** A chunk returned: the clock then, the clock the replay started at, and the row it was read with. */
  datatype Departure = Departure(clock: int, started: int, timing: Timing)

  function DepartureOf(c: Config, st: State, w: World): seq<Departure>
    requires Sound(c, st) && c.rows.Some?
  {
    var row := NextRow(c.rows.value, st.next, st.headerRow).2;
    if ReadOnce(c, st, w).1.Chunk? && row.Data? then [Departure(w.after, Started(st, w), row.timing)] else []
  }

  /** Every chunk a run returns, whatever reads and sleeps are cancelled in between. */
  function Departed(c: Config, st: State, ws: seq<World>): seq<Departure>
    requires Sound(c, st) && c.rows.Some?
    decreases |ws|
  {
    if ws == [] then [] else DepartureOf(c, st, ws[0]) + Departed(c, ReadOnce(c, st, ws[0]).0, ws[1..])
  }

  /** The clock is honest about the waits of the chunks that are returned. */
  ghost predicate HonestRun(c: Config, st: State, ws: seq<World>)
    requires Sound(c, st) && c.rows.Some?
    decreases |ws|
  {
    ws == [] ||
    ((forall d :: d in DepartureOf(c, st, ws[0]) ==>
        Honest(ws[0], d.started, Delay(c.speed, d.started, d.timing.offsetMs, ws[0].before)))
     && HonestRun(c, ReadOnce(c, st, ws[0]).0, ws[1..]))
  }

  lemma DepartureFacts(c: Config, st: State, w: World)
    requires Sound(c, st) && c.rows.Some?
    ensures var (st', r) := ReadOnce(c, st, w);
            && |DepartureOf(c, st, w)| == |OneOrNone(r)|
            && (st.started.Some? ==> st'.started == st.started)
            && forall d :: d in DepartureOf(c, st, w) ==> st'.started == Some(d.started)
  {
    hide NextRow, Delay;
  }

  ghost predicate NotEarly(d: Departure, speed: Speed) {
    d.clock >= d.started + Scaled(speed, d.timing.offsetMs)
  }

  /**
   * In any run, disturbed or not: each chunk returned leaves no earlier than the start of the replay plus
   * the scaled offset of the row it was read with, and all count from the same start.
   */
  lemma {:induction false} NoneEarly(c: Config, st: State, ws: seq<World>)
    requires Sound(c, st) && c.rows.Some? && c.speed != Instant && HonestRun(c, st, ws)
    ensures |Departed(c, st, ws)| == |Chunks(c, st, ws)|
    ensures forall d :: d in Departed(c, st, ws) ==> NotEarly(d, c.speed)
    ensures st.started.Some? ==> forall d :: d in Departed(c, st, ws) ==> d.started == st.started.value
    ensures forall d, e :: d in Departed(c, st, ws) && e in Departed(c, st, ws) ==> d.started == e.started
    decreases |ws|
  {
    if ws == [] {
    } else {
      var w, st' := ws[0], ReadOnce(c, st, ws[0]).0;
      DepartureFacts(c, st, w);
      forall d | d in DepartureOf(c, st, w) ensures NotEarly(d, c.speed) {
        assert d.clock == w.after;
        DelayReachesTarget(c.speed, d.started, d.timing.offsetMs, w);
      }
      hide ReadOnce, DepartureOf, NotEarly;
      NoneEarly(c, st', ws[1..]);
    }
  }

  // ---- The source ----

  class Source {
    const config: Config
    var pos: nat
    var next: nat
    var headerRow: bool
    var finished: bool
    var started: Option<int>

    function Now(): State
      reads this
    {
      State(pos, next, headerRow, finished, started)
    }

    ghost predicate Valid()
      reads this
    {
      Sound(config, Now())
    }

    constructor (bin: seq<Byte>, rows: Option<seq<Row>>, speed: string)
      ensures config == Opened(bin, rows, speed) && Now() == INITIAL && Valid()
    {
      config := Opened(bin, rows, speed);
      pos, next, headerRow, finished, started := 0, 0, false, false, None;
    }

    method NextTimingRow() returns (r: RowResult)
      requires Valid() && config.rows.Some?
      modifies this`next, this`headerRow
      ensures Valid() && (next, headerRow, r) == NextRow(config.rows.value, old(next), old(headerRow))
    {
      var rows := config.rows.value;
      while next < |rows|
        invariant next <= |rows|
        invariant NextRow(rows, next, headerRow) == NextRow(rows, old(next), old(headerRow))
      {
        hide ParseInt;
        var rec := rows[next];
        next := next + 1;
        if |rec| != 2 {
          return BadRow;
        }
        if !headerRow {
          headerRow := true;
          if rec[0] == "offset_ms" {
            continue;
          }
        }
        var offset := ParseInt(rec[0]);
        if offset.None? {
          return BadRow;
        }
        var length := ParseInt(rec[1]);
        if length.None? {
          return BadRow;
        }
        if length.value <= 0 {
          continue;
        }
        return Data(Timing(offset.value, length.value));
      }
      r := RowsEnd;
    }

    method ReadWholeBin(readFails: Option<nat>) returns (r: ReadResult)
      requires Valid()
      modifies this`pos, this`finished
      ensures (Now(), r) == WholeBin(config, old(Now()), readFails)
    {
      finished := true;
      if readFails.Some? && readFails.value <= |config.bin| - pos {
        return BinError;
      }
      var data := config.bin[pos..];
      pos := |config.bin|;
      r := if data == [] then Eof else Chunk(data);
    }

    /** ReadFull: all the bytes asked for, or those there are. */
    method ReadFull(length: nat, readFails: Option<nat>) returns (r: ReadResult)
      requires Valid() && length > 0
      modifies this`pos, this`finished
      ensures (Now(), r) == TakeBytes(config, old(Now()), length, readFails)
    {
      var n := Min(length, Available(config, Now(), readFails));
      var buf := config.bin[pos..pos + n];
      pos := pos + n;
      if n < length {
        finished := true;
        return if n == 0 then Eof else Chunk(buf);
      }
      r := Chunk(buf);
    }

    method Read(w: World) returns (r: ReadResult)
      requires Valid()
      modifies this
      ensures Valid() && (Now(), r) == ReadOnce(config, old(Now()), w)
    {
      hide NextRow, Elapsed;
      if w.cancelled {
        return Cancelled;
      }
      if finished {
        return Eof;
      }
      if config.rows.None? {
        r := ReadWholeBin(w.readFails);
        return;
      }
      var row := NextTimingRow();
      if !row.Data? {
        finished := true;
        return if row == RowsEnd then Eof else RowError;
      }
      if started.None? {
        started := Some(w.first);
      }
      if config.speed != Instant {
        var offset := Millis(row.timing.offsetMs);
        if config.speed == Fast {
          offset := Quot(offset, FAST_SPEEDUP_FACTOR);
        }
        if Elapsed(w.before, started.value + offset) > 0 {
          if w.sleepFails {
            return SleepError;
          }
        }
      }
      r := ReadFull(row.timing.length, w.readFails);
    }
  }
}

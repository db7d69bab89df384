/**
 * The TCP source's reconnect loop (gateway/internal/source/real/real.go) as a protocol: one reader,
 * whose Read and connect loops are cut at every lock, dial, sleep and socket read, interleaved with
 * ApplyUpstream, ApplyBackoff, Close, cancellation and the watcher goroutines.
 */
module RealSource {
  import opened Bytes

  type Addr = string
  type ConnId = nat

  /** One dialled connection, with what the proof keeps track of. */
  datatype Conn = Conn(
    addr: Addr,            // the address it was dialled to
    updates: seq<Addr>,    // ApplyUpstream calls between the re-read of the address and the install
    closed: bool,
    chunks: nat,           // chunks read from it
    taken: bool,           // ApplyUpstream, Close or a read error took it out of the source
    late: nat)             // chunks of it returned after that

  /** Where the reader is. The names say what it does next. */
  datatype Reader =
    | Outside                                           // no Read call in progress
    | AtLoop                                            // look at the connection, top of Read
    | AtConnect                                         // look at attempt and backoff, top of connect
    | Sleeping(attempt: nat, backoff: nat)              // waits backoff.Next(attempt)
    | BeforeDial                                        // count the attempt and re-read the address
    | Dialing(addr: Addr, updates: seq<Addr>)
    | Installing(conn: ConnId)
    | AfterConnect                                      // look at the connection again
    | Reading(conn: ConnId)
    | Returning(conn: ConnId, chunk: nat)
    | Failed(conn: ConnId)                              // close it
    | Clearing(conn: ConnId)                            // forget it unless it was replaced

  datatype Chunk = Chunk(conn: ConnId, number: nat)

  datatype Source = Source(
    addr: Addr,
    backoff: nat,                 // which backoff strategy is installed
    conn: Option<ConnId>,
    attempt: nat,
    reader: Reader,
    conns: seq<Conn>,             // every connection ever dialled
    closing: set<ConnId>,         // taken out by ApplyUpstream or Close, whose call to close it is still due
    cancelled: bool,
    failures: nat,                // dials failed since the last success
    returned: seq<Chunk>)         // what Read has returned

  datatype Step =
    | CallRead
    | Look                        // the next locked section of the reader
    | Wake
    | GiveUp                      // the sleep or the dial ends with the context
    | DialFails
    | DialSucceeds
    | ReadData
    | ReadFails
    | Return
    | CloseFailed
    | ApplyUpstream(newAddr: Addr)
    | ApplyBackoff(newBackoff: nat)
    | Close
    | FinishClose(conn: ConnId)
    | Cancel
    | WatcherCloses(conn: ConnId)

  function New(addr: Addr): Source {
    Source(addr, 0, None, 0, Outside, [], {}, false, 0, [])
  }

  predicate Enabled(s: Source, step: Step) {
    match step
    case CallRead => s.reader.Outside?
    case Look => s.reader.AtLoop? || s.reader.AtConnect? || s.reader.BeforeDial? || s.reader.AfterConnect?
                 || (s.reader.Installing? && s.reader.conn < |s.conns|)
                 || (s.reader.Clearing? && s.reader.conn < |s.conns|)
    case Wake => s.reader.Sleeping?
    case GiveUp => s.cancelled && (s.reader.Sleeping? || s.reader.Dialing?)
    case DialFails => s.reader.Dialing?
    case DialSucceeds => s.reader.Dialing?
    case ReadData => s.reader.Reading? && s.reader.conn < |s.conns| && !s.conns[s.reader.conn].closed
    case ReadFails => s.reader.Reading? && s.reader.conn < |s.conns|
    case Return => s.reader.Returning? && s.reader.conn < |s.conns|
    case CloseFailed => s.reader.Failed? && s.reader.conn < |s.conns|
    case ApplyUpstream(_) => true
    case ApplyBackoff(_) => true
    case Close => true
    case FinishClose(c) => c in s.closing && c < |s.conns|
    case Cancel => true
    case WatcherCloses(c) => s.cancelled && c < |s.conns|
  }

  function Closed(s: Source, c: ConnId): seq<Conn>
    requires c < |s.conns|
  {
    s.conns[c := s.conns[c].(closed := true)]
  }

  /** The source without its connection, which its new owner is going to close. */
  function TakeConn(s: Source): Source {
    if s.conn.Some? && s.conn.value < |s.conns| then
      var c := s.conn.value;
      s.(conn := None, closing := s.closing + {c}, conns := s.conns[c := s.conns[c].(taken := true)])
    else s.(conn := None)
  }

  /** An address update is remembered by the dial it overtakes. */
  function NoteUpdate(s: Source, a: Addr): Source {
    match s.reader
    case Dialing(addr, updates) => s.(reader := Dialing(addr, updates + [a]))
    case Installing(c) =>
      if c < |s.conns| then s.(conns := s.conns[c := s.conns[c].(updates := s.conns[c].updates + [a])]) else s
    case _ => s
  }

  function LookStep(s: Source): Source
    requires Enabled(s, Look)
  {
    match s.reader
    case AtLoop => s.(reader := if s.conn.Some? then Reading(s.conn.value) else AtConnect)
    case AtConnect => s.(reader := if s.attempt > 0 then Sleeping(s.attempt - 1, s.backoff) else BeforeDial)
    case BeforeDial => s.(attempt := s.attempt + 1, reader := Dialing(s.addr, []))
    case Installing(c) => s.(conn := Some(c), attempt := 0, failures := 0, reader := AfterConnect)
    case AfterConnect => s.(reader := if s.conn.Some? then Reading(s.conn.value) else AtLoop)
    case Clearing(c) =>
      s.(conn := if s.conn == Some(c) then None else s.conn,
         conns := s.conns[c := s.conns[c].(taken := true)],
         reader := if s.cancelled then Outside else AtLoop)
  }

  function Apply(s: Source, step: Step): Source
    requires Enabled(s, step)
  {
    match step
    case CallRead => s.(reader := AtLoop)
    case Look => LookStep(s)
    case Wake => s.(reader := BeforeDial)
    case GiveUp => s.(reader := Outside, failures := if s.reader.Dialing? then s.failures + 1 else s.failures)
    case DialFails => s.(reader := AtConnect, failures := s.failures + 1)
    case DialSucceeds =>
      s.(conns := s.conns + [Conn(s.reader.addr, s.reader.updates, false, 0, false, 0)],
         reader := Installing(|s.conns|))
    case ReadData =>
      var c := s.reader.conn;
      s.(conns := s.conns[c := s.conns[c].(chunks := s.conns[c].chunks + 1)],
         reader := Returning(c, s.conns[c].chunks))
    case ReadFails => s.(reader := Failed(s.reader.conn))
    case Return =>
      var c := s.reader.conn;
      s.(conns := if s.conns[c].taken then s.conns[c := s.conns[c].(late := s.conns[c].late + 1)] else s.conns,
         returned := s.returned + [Chunk(c, s.reader.chunk)],
         reader := Outside)
    case CloseFailed => s.(conns := Closed(s, s.reader.conn), reader := Clearing(s.reader.conn))
    case ApplyUpstream(a) => TakeConn(NoteUpdate(s, a)).(addr := a)
    case ApplyBackoff(b) => s.(backoff := b)
    case Close => TakeConn(s)
    case FinishClose(c) => s.(conns := Closed(s, c), closing := s.closing - {c})
    case Cancel => s.(cancelled := true)
    case WatcherCloses(c) => s.(conns := Closed(s, c))
  }

  function Exec(s: Source, steps: seq<Step>): Source {
    if steps == [] then s
    else
      var before := Exec(s, steps[..|steps| - 1]);
      var step := steps[|steps| - 1];
      if Enabled(before, step) then Apply(before, step) else before
  }

  // ---- The invariant ----

  /** Inside connect: between finding no connection and installing a new one. */
  predicate Connecting(r: Reader) {
    r.AtConnect? || r.Sleeping? || r.BeforeDial? || r.Dialing? || r.Installing?
  }

  /** The reader works with a connection. */
  predicate Holding(r: Reader) {
    r.Installing? || r.Reading? || r.Returning? || r.Failed? || r.Clearing?
  }

  /** The address after a re-read and some updates. */
  function AfterUpdates(addr: Addr, updates: seq<Addr>): Addr {
    if updates == [] then addr else updates[|updates| - 1]
  }

  predicate Follows(next: Chunk, previous: Chunk) {
    (next.conn == previous.conn && next.number == previous.number + 1) || (next.conn > previous.conn && next.number == 0)
  }

  /** What is true of connection c. */
  predicate ConnOk(s: Source, c: ConnId)
    requires c < |s.conns|
  {
    var k := s.conns[c];
    && (k.closed || s.conn == Some(c) || c in s.closing || s.reader == Installing(c) || s.reader == Failed(c))
    && (s.conn == Some(c) || s.reader == Installing(c) ==> s.addr == AfterUpdates(k.addr, k.updates))
    && (k.taken <==> s.conn != Some(c) && s.reader != Installing(c))
    && (s.reader == Installing(c) ==> k.chunks == 0)
    && (s.reader == Clearing(c) ==> k.closed)
    && (!k.taken ==> k.late == 0)
    && k.late <= 1
    && (k.late == 1 ==> s.reader != Reading(c) && !(s.reader.Returning? && s.reader.conn == c))
    && (s.reader.Returning? && s.reader.conn == c ==> k.chunks == s.reader.chunk + 1)
    && (if s.returned != [] && LastOf(s.returned).conn == c then Handed(s, c) == LastOf(s.returned).number + 1
        else s.returned == [] || c > LastOf(s.returned).conn ==> Handed(s, c) == 0)
  }

  function LastOf(log: seq<Chunk>): Chunk
    requires log != []
  {
    log[|log| - 1]
  }

  /** Chunks of connection c that Read has returned, as far as the reader is concerned. */
  function Handed(s: Source, c: ConnId): int
    requires c < |s.conns|
  {
    s.conns[c].chunks - if s.reader.Returning? && s.reader.conn == c then 1 else 0
  }

  /** Each entry of the log is the next chunk of the same connection, or the first of a later one. */
  predicate InOrder(log: seq<Chunk>) {
    && (forall i :: 0 <= i < |log| - 1 ==> Follows(log[i + 1], log[i]))
    && (log != [] ==> log[0].number == 0)
  }

  predicate Inv(s: Source) {
    && (s.conn.Some? ==> s.conn.value == |s.conns| - 1)
    && (forall c :: c in s.closing ==> c < |s.conns|)
    && (Connecting(s.reader) ==> s.conn.None?)
    && (Holding(s.reader) ==> s.reader.conn == |s.conns| - 1)
    && (s.reader.Dialing? ==> s.addr == AfterUpdates(s.reader.addr, s.reader.updates))
    && s.attempt == s.failures + (if s.reader.Dialing? || s.reader.Installing? then 1 else 0)
    && (s.reader.Sleeping? ==> s.reader.attempt + 1 == s.failures)
    && (forall c :: 0 <= c < |s.conns| ==> ConnOk(s, c))
    && InOrder(s.returned)
    && (s.returned != [] ==> LastOf(s.returned).conn < |s.conns|)
  }

  lemma LookForConnKeeps(s: Source)
    requires Inv(s) && Enabled(s, Look) && (s.reader.AtLoop? || s.reader.AfterConnect?)
    ensures Inv(Apply(s, Look))
  {
    var s' := Apply(s, Look);
    forall c | 0 <= c < |s'.conns| ensures ConnOk(s', c) {
      assert ConnOk(s, c);
    }
  }

  lemma LookForDialKeeps(s: Source)
    requires Inv(s) && Enabled(s, Look) && (s.reader.AtConnect? || s.reader.BeforeDial?)
    ensures Inv(Apply(s, Look))
  {
    var s' := Apply(s, Look);
    forall c | 0 <= c < |s'.conns| ensures ConnOk(s', c) {
      assert ConnOk(s, c);
    }
  }

  lemma InstallKeeps(s: Source)
    requires Inv(s) && Enabled(s, Look) && (s.reader.Installing?)
    ensures Inv(Apply(s, Look))
  {
    var s' := Apply(s, Look);
    forall c | 0 <= c < |s'.conns| ensures ConnOk(s', c) {
      assert ConnOk(s, c);
    }
  }

  lemma ClearKeeps(s: Source)
    requires Inv(s) && Enabled(s, Look) && (s.reader.Clearing?)
    ensures Inv(Apply(s, Look))
  {
    var s' := Apply(s, Look);
    forall c | 0 <= c < |s'.conns| ensures ConnOk(s', c) {
      assert ConnOk(s, c);
    }
  }

  lemma ReadKeeps(s: Source, step: Step)
    requires Inv(s) && Enabled(s, step)
    requires step.CallRead? || step.ReadData? || step.ReadFails? || step.CloseFailed?
    ensures Inv(Apply(s, step))
  {
    var s' := Apply(s, step);
    forall c | 0 <= c < |s'.conns| ensures ConnOk(s', c) {
      assert c < |s.conns| ==> ConnOk(s, c);
    }
  }

  lemma ReturnKeeps(s: Source)
    requires Inv(s) && Enabled(s, Return)
    ensures Inv(Apply(s, Return))
  {
    var s' := Apply(s, Return);
    forall c | 0 <= c < |s'.conns| ensures ConnOk(s', c) {
      assert c < |s.conns| ==> ConnOk(s, c);
    }
    assert ConnOk(s, s.reader.conn);
    assert s.returned != [] ==> ConnOk(s, LastOf(s.returned).conn);
  }

  lemma DialKeeps(s: Source, step: Step)
    requires Inv(s) && Enabled(s, step)
    requires step.Wake? || step.GiveUp? || step.DialFails? || step.DialSucceeds?
    ensures Inv(Apply(s, step))
  {
    var s' := Apply(s, step);
    forall c | 0 <= c < |s'.conns| ensures ConnOk(s', c) {
      assert c < |s.conns| ==> ConnOk(s, c);
    }
  }

  lemma TakeKeeps(s: Source)
    requires Inv(s)
    ensures Inv(TakeConn(s)) && TakeConn(s).conn.None?
  {
    var s' := TakeConn(s);
    forall c | 0 <= c < |s'.conns| ensures ConnOk(s', c) {
      assert ConnOk(s, c);
    }
  }

  lemma UpdateDuringDialKeeps(s: Source, a: Addr)
    requires Inv(s) && (s.reader.Dialing?)
    ensures Inv(Apply(s, ApplyUpstream(a)))
  {
    var s' := Apply(s, ApplyUpstream(a));
    forall c | 0 <= c < |s'.conns| ensures ConnOk(s', c) {
      assert ConnOk(s, c);
    }
  }

  lemma UpdateBeforeInstallKeeps(s: Source, a: Addr)
    requires Inv(s) && (s.reader.Installing?)
    ensures Inv(Apply(s, ApplyUpstream(a)))
  {
    var s' := Apply(s, ApplyUpstream(a));
    forall c | 0 <= c < |s'.conns| ensures ConnOk(s', c) {
      assert ConnOk(s, c);
    }
  }

  lemma UpdateKeeps(s: Source, a: Addr)
    requires Inv(s) && (!s.reader.Dialing? && !s.reader.Installing?)
    ensures Inv(Apply(s, ApplyUpstream(a)))
  {
    TakeKeeps(s);
    assert Apply(s, ApplyUpstream(a)) == TakeConn(s).(addr := a);
    hide TakeConn;
    AddrKeeps(TakeConn(s), a);
  }

  lemma AddrKeeps(s: Source, a: Addr)
    requires Inv(s) && s.conn.None? && !s.reader.Dialing? && !s.reader.Installing?
    ensures Inv(s.(addr := a))
  {
    var s' := s.(addr := a);
    forall c | 0 <= c < |s'.conns| ensures ConnOk(s', c) {
      assert ConnOk(s, c);
    }
  }

  lemma SettingKeeps(s: Source, step: Step)
    requires Inv(s) && Enabled(s, step) && (step.ApplyBackoff? || step.Cancel?)
    ensures Inv(Apply(s, step))
  {
    var s' := Apply(s, step);
    forall c | 0 <= c < |s'.conns| ensures ConnOk(s', c) {
      assert ConnOk(s, c);
    }
  }

  lemma ClosingKeeps(s: Source, step: Step)
    requires Inv(s) && Enabled(s, step) && (step.FinishClose? || step.WatcherCloses?)
    ensures Inv(Apply(s, step))
  {
    var s' := Apply(s, step);
    forall c | 0 <= c < |s'.conns| ensures ConnOk(s', c) {
      assert ConnOk(s, c);
    }
  }

  lemma StepKeeps(s: Source, step: Step)
    requires Inv(s) && Enabled(s, step)
    ensures Inv(Apply(s, step))
  {
    match step
    case Look =>
      match s.reader {
        case Installing(_) => InstallKeeps(s);
        case Clearing(_) => ClearKeeps(s);
        case AtConnect => LookForDialKeeps(s);
        case BeforeDial => LookForDialKeeps(s);
        case _ => LookForConnKeeps(s);
      }
    case CallRead => ReadKeeps(s, step);
    case ReadData => ReadKeeps(s, step);
    case ReadFails => ReadKeeps(s, step);
    case CloseFailed => ReadKeeps(s, step);
    case Return => ReturnKeeps(s);
    case Wake => DialKeeps(s, step);
    case GiveUp => DialKeeps(s, step);
    case DialFails => DialKeeps(s, step);
    case DialSucceeds => DialKeeps(s, step);
    case ApplyUpstream(a) =>
      if s.reader.Dialing? {
        UpdateDuringDialKeeps(s, a);
      } else if s.reader.Installing? {
        UpdateBeforeInstallKeeps(s, a);
      } else {
        UpdateKeeps(s, a);
      }
    case Close => TakeKeeps(s);
    case FinishClose(_) => ClosingKeeps(s, step);
    case WatcherCloses(_) => ClosingKeeps(s, step);
    case _ => SettingKeeps(s, step);
  }

  lemma {:induction false} AlwaysInv(addr: Addr, steps: seq<Step>)
    ensures Inv(Exec(New(addr), steps))
    decreases |steps|
  {
    if steps == [] {
    } else {
      AlwaysInv(addr, steps[..|steps| - 1]);
      var before := Exec(New(addr), steps[..|steps| - 1]);
      if Enabled(before, steps[|steps| - 1]) {
        StepKeeps(before, steps[|steps| - 1]);
      }
    }
  }

  // ---- What every interleaving guarantees ----

  /** No connection leaks: each is closed, installed, or held by a step that installs or closes it. */
  lemma NoConnectionLeaks(addr: Addr, steps: seq<Step>, c: ConnId)
    requires c < |Exec(New(addr), steps).conns|
    ensures var s := Exec(New(addr), steps);
            s.conns[c].closed || s.conn == Some(c) || c in s.closing || s.reader == Installing(c) || s.reader == Failed(c)
  {
    AlwaysInv(addr, steps);
    assert ConnOk(Exec(New(addr), steps), c);
  }

  /** An install finds no connection to overwrite, and what it installs is new. */
  lemma InstallOverwritesNothing(addr: Addr, steps: seq<Step>)
    requires Exec(New(addr), steps).reader.Installing?
    ensures var s := Exec(New(addr), steps);
            s.conn.None? && s.reader.conn == |s.conns| - 1
            && forall c :: 0 <= c < |s.conns| - 1 ==> s.conns[c].taken
  {
    AlwaysInv(addr, steps);
    var s := Exec(New(addr), steps);
    forall c | 0 <= c < |s.conns| - 1 ensures s.conns[c].taken {
      assert ConnOk(s, c);
    }
  }

  /** Chunks come out in order, without gaps within a connection, and never go back to an older one. */
  lemma ChunksInOrder(addr: Addr, steps: seq<Step>)
    ensures InOrder(Exec(New(addr), steps).returned)
  {
    AlwaysInv(addr, steps);
  }

  /** The delay before a dial is that of the number of dials failed in a row, and there is none before the first. */
  lemma WaitsCountFailures(addr: Addr, steps: seq<Step>)
    ensures var s := Exec(New(addr), steps);
            && (s.reader.Sleeping? ==> s.reader.attempt + 1 == s.failures)
            && (s.reader.Dialing? ==> s.attempt == s.failures + 1)
            && (s.conn.Some? ==> s.attempt == s.failures)
  {
    AlwaysInv(addr, steps);
  }

  /** ApplyUpstream and Close take the connection away at once, and its closing is then due. */
  lemma TakesAway(addr: Addr, steps: seq<Step>, step: Step)
    requires step.ApplyUpstream? || step.Close?
    ensures var s := Exec(New(addr), steps);
            var s' := Apply(s, step);
            && s'.conn == None
            && (s.conn.Some? ==> s.conn.value < |s'.conns| && s'.conns[s.conn.value].taken && s.conn.value in s'.closing)
            && s.closing <= s'.closing
  {
    AlwaysInv(addr, steps);
  }

  function CountOf(log: seq<Chunk>, c: ConnId): nat {
    if log == [] then 0 else CountOf(log[..|log| - 1], c) + if log[|log| - 1].conn == c then 1 else 0
  }

  lemma TakenStays(s: Source, step: Step, c: ConnId)
    requires Enabled(s, step) && c < |s.conns| && s.conns[c].taken
    ensures var s' := Apply(s, step); c < |s'.conns| && s'.conns[c].taken
    ensures var s' := Apply(s, step); !step.Return? ==> s'.returned == s.returned && s'.conns[c].late == s.conns[c].late
  {}

  /** Once taken, a connection stays taken, and each chunk of it returned is counted as late. */
  lemma LateStep(s: Source, step: Step, c: ConnId)
    requires Enabled(s, step) && c < |s.conns| && s.conns[c].taken
    ensures var s' := Apply(s, step);
            && c < |s'.conns| && s'.conns[c].taken
            && CountOf(s'.returned, c) - CountOf(s.returned, c) == s'.conns[c].late - s.conns[c].late
  {
    TakenStays(s, step, c);
    if step.Return? {
      var s' := Apply(s, step);
      assert s'.returned[..|s.returned|] == s.returned;
    } else {
      hide *;
    }
  }

  lemma {:induction false} LateRun(s: Source, more: seq<Step>, c: ConnId)
    requires Inv(s) && c < |s.conns| && s.conns[c].taken
    ensures var s' := Exec(s, more);
            && Inv(s') && c < |s'.conns| && s'.conns[c].taken
            && CountOf(s'.returned, c) - CountOf(s.returned, c) == s'.conns[c].late - s.conns[c].late
    decreases |more|
  {
    if more == [] {
    } else {
      var before := Exec(s, more[..|more| - 1]);
      LateRun(s, more[..|more| - 1], c);
      if Enabled(before, more[|more| - 1]) {
        LateStep(before, more[|more| - 1], c);
        StepKeeps(before, more[|more| - 1]);
      }
    }
  }

  /**
   * After ApplyUpstream or Close took a connection away, Read returns at most one more chunk of it,
   * whatever happens next.
   */
  lemma AtMostOneLateChunk(addr: Addr, steps: seq<Step>, more: seq<Step>, c: ConnId)
    requires c < |Exec(New(addr), steps).conns| && Exec(New(addr), steps).conns[c].taken
    ensures CountOf(Exec(Exec(New(addr), steps), more).returned, c) <= CountOf(Exec(New(addr), steps).returned, c) + 1
  {
    var s := Exec(New(addr), steps);
    AlwaysInv(addr, steps);
    LateRun(s, more, c);
    assert ConnOk(Exec(s, more), c);
  }

  // ---- Closed connections ----

  lemma ClosedStep(s: Source, step: Step, c: ConnId)
    requires Enabled(s, step) && c < |s.conns| && s.conns[c].closed
    ensures var s' := Apply(s, step);
            c < |s'.conns| && s'.conns[c].closed && s'.conns[c].chunks == s.conns[c].chunks
  {}

  /** Nothing more is read from a connection that has been closed, by whom ever. */
  lemma {:induction false} ClosedDeliversNothing(s: Source, more: seq<Step>, c: ConnId)
    requires c < |s.conns| && s.conns[c].closed
    ensures var s' := Exec(s, more);
            c < |s'.conns| && s'.conns[c].closed && s'.conns[c].chunks == s.conns[c].chunks
    decreases |more|
  {
    if more == [] {
    } else {
      var before := Exec(s, more[..|more| - 1]);
      ClosedDeliversNothing(s, more[..|more| - 1], c);
      hide Apply;
      if Enabled(before, more[|more| - 1]) {
        ClosedStep(before, more[|more| - 1], c);
      }
    }
  }

  /** Those who close a connection: ApplyUpstream and Close, the watcher, and the reader after an error. */
  lemma ClosersClose(s: Source, step: Step, c: ConnId)
    requires Enabled(s, step) && c < |s.conns|
    requires step == FinishClose(c) || step == WatcherCloses(c) || (step == CloseFailed && s.reader.conn == c)
    ensures Apply(s, step).conns[c].closed
    ensures step == FinishClose(c) ==> c !in Apply(s, step).closing
  {}

  /** After a read error the call returns exactly when its context has ended; otherwise it goes on. */
  lemma ErrorEndsReadIff(s: Source)
    requires s.reader.Clearing? && s.reader.conn < |s.conns|
    ensures var s' := Apply(s, Look); (s'.reader == Outside <==> s.cancelled) && (s'.reader == AtLoop <==> !s.cancelled)
    ensures Apply(s, Look).conn != Some(s.reader.conn)
  {}

  // ---- Which settings are in force ----

  /** The address and the backoff strategy set last. */
  function Settings(addr: Addr, steps: seq<Step>): (Addr, nat) {
    if steps == [] then (addr, 0)
    else
      var earlier := Settings(addr, steps[..|steps| - 1]);
      match steps[|steps| - 1]
      case ApplyUpstream(a) => (a, earlier.1)
      case ApplyBackoff(b) => (earlier.0, b)
      case _ => earlier
  }

  lemma StepSettings(s: Source, step: Step)
    requires Enabled(s, step)
    ensures Apply(s, step).addr == if step.ApplyUpstream? then step.newAddr else s.addr
    ensures Apply(s, step).backoff == if step.ApplyBackoff? then step.newBackoff else s.backoff
  {}

  lemma {:induction false} SettingsAreTheLast(addr: Addr, steps: seq<Step>)
    ensures var s := Exec(New(addr), steps); (s.addr, s.backoff) == Settings(addr, steps)
    decreases |steps|
  {
    if steps == [] {
    } else {
      var before, step := Exec(New(addr), steps[..|steps| - 1]), steps[|steps| - 1];
      SettingsAreTheLast(addr, steps[..|steps| - 1]);
      hide Apply;
      if Enabled(before, step) {
        StepSettings(before, step);
      }
    }
  }

  /** The strategy in force when the reader last looked at it. */
  function SeenBackoff(addr: Addr, steps: seq<Step>): nat {
    if steps == [] then 0
    else
      var before := steps[..|steps| - 1];
      if steps[|steps| - 1] == Look && Exec(New(addr), before).reader.AtConnect? then Settings(addr, before).1
      else SeenBackoff(addr, before)
  }

  /** A new backoff strategy counts from the next attempt on; a sleep that has begun goes on with the old one. */
  lemma {:induction false} SleepsAsSeen(addr: Addr, steps: seq<Step>)
    ensures var s := Exec(New(addr), steps); s.reader.Sleeping? ==> s.reader.backoff == SeenBackoff(addr, steps)
    decreases |steps|
  {
    if steps == [] {
    } else {
      SleepsAsSeen(addr, steps[..|steps| - 1]);
      SettingsAreTheLast(addr, steps[..|steps| - 1]);
    }
  }

  /** The reader waits before a dial exactly when a dial failed since the last success. */
  lemma SleepsIff(addr: Addr, steps: seq<Step>)
    requires Exec(New(addr), steps).reader.AtConnect?
    ensures var s := Exec(New(addr), steps); Apply(s, Look).reader.Sleeping? <==> s.failures > 0
  {
    AlwaysInv(addr, steps);
  }

  /** A dial goes to the address in force at that moment. */
  lemma DialsCurrent(addr: Addr, steps: seq<Step>)
    requires Exec(New(addr), steps).reader.BeforeDial?
    ensures Apply(Exec(New(addr), steps), Look).reader == Dialing(Settings(addr, steps).0, [])
  {
    SettingsAreTheLast(addr, steps);
  }

  // ---- Which address a connection leads to ----

  /**
   * The installed connection leads to the address read after the backoff sleep. It is the current
   * address exactly when the updates that came between that read and the install, if any, ended on
   * the same address.
   */
  lemma InstalledAddress(addr: Addr, steps: seq<Step>)
    requires Exec(New(addr), steps).conn.Some?
    ensures var s := Exec(New(addr), steps);
            && s.conn.value < |s.conns|
            && var k := s.conns[s.conn.value];
               (k.addr == s.addr <==> AfterUpdates(k.addr, k.updates) == k.addr)
  {
    AlwaysInv(addr, steps);
    var s := Exec(New(addr), steps);
    assert ConnOk(s, s.conn.value);
  }

  lemma Extend(s: Source, steps: seq<Step>, step: Step)
    requires Enabled(Exec(s, steps), step)
    ensures Exec(s, steps + [step]) == Apply(Exec(s, steps), step)
  {
    assert (steps + [step])[..|steps|] == steps;
  }

  /** The steps of a first read up to its dial. */
  lemma FirstDial(addr: Addr) returns (steps: seq<Step>)
    ensures Exec(New(addr), steps) == New(addr).(attempt := 1, reader := Dialing(addr, []))
  {
    var s := New(addr);
    assert Exec(s, []) == s;
    hide Exec;
    Extend(s, [], CallRead);
    steps := [] + [CallRead];
    Extend(s, steps, Look);
    steps := steps + [Look];
    Extend(s, steps, Look);
    steps := steps + [Look];
    Extend(s, steps, Look);
    steps := steps + [Look];
  }

  /** An update that lands during the dial leaves the reader on the old address. */
  lemma UpdateMayBeMissed(before: Addr, after: Addr) returns (steps: seq<Step>)
    requires before != after
    ensures var s := Exec(New(before), steps);
            && s.addr == after && s.conn == Some(0) && s.reader == Reading(0)
            && |s.conns| == 1 && s.conns[0].addr == before && !s.conns[0].closed && s.closing == {}
  {
    var s := New(before);
    hide Exec;
    steps := FirstDial(before);
    Extend(s, steps, ApplyUpstream(after));
    steps := steps + [ApplyUpstream(after)];
    Extend(s, steps, DialSucceeds);
    steps := steps + [DialSucceeds];
    Extend(s, steps, Look);
    steps := steps + [Look];
    Extend(s, steps, Look);
    steps := steps + [Look];
  }
}

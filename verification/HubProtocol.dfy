/**
 * Fan-out under concurrency (gateway/internal/hub/hub.go). One goroutine broadcasts
 * (gateway/cmd/gateway/main.go); its send to each client is four separate channel operations that
 * interleave with receivers, Add, Remove, SetLimits and Close. Every interleaving is a list of
 * atomic steps. Messages are identified by their number in the order of the Broadcast calls.
 */
module HubProtocol {
  import opened Bytes

  const DEFAULT_MAX_CLIENTS := 100
  const DEFAULT_CLIENT_BUFFER_LEN := 64

  type ClientId = nat

  datatype Client = Client(
    cap: nat,                // capacity of the send queue, fixed by Add
    done: bool,              // the done channel is closed
    dropped: nat,            // the counter the hub reports
    queue: seq<nat>,
    addedAt: nat,            // number of the first message broadcast after Add
    attempted: seq<nat>,     // messages for which send1 got past the done check
    delivered: seq<nat>,     // messages the consumer has received
    lost: seq<nat>,          // messages taken off the queue, or refused by it, by send1
    foundFull: bool,         // some send found the queue full
    misses: nat)             // sends that found the queue full and, when about to drop, empty

  /** The channel operations of send1, in order. */
  datatype Phase = CheckDone | TrySend | DropOldest | Retry | CountDrop

  /** todo[0] is the client being sent to; the others have not been touched yet. */
  datatype Broadcaster = Idle | Sending(todo: seq<ClientId>, phase: Phase)

  datatype Hub = Hub(
    clients: map<ClientId, Client>,    // every client ever added
    registered: set<ClientId>,
    closing: set<ClientId>,            // removed, but the done channel is not closed yet
    closed: bool,
    maxClients: nat,
    bufferLen: nat,
    total: nat,                        // messages broadcast so far
    caster: Broadcaster)

  datatype Step =
    | Add(id: ClientId)
    | RemoveEntry(id: ClientId)
    | CloseDone(id: ClientId)
    | SetLimits(maxClients: int, bufferLen: int)
    | CloseHub
    | StartBroadcast(order: seq<ClientId>)
    | SendStep
    | Receive(id: ClientId)

  function Positive(v: int, default: nat): nat { if v <= 0 then default else v }

  function New(maxClients: int, bufferLen: int): Hub {
    Hub(map[], {}, {}, false, Positive(maxClients, DEFAULT_MAX_CLIENTS),
        Positive(bufferLen, DEFAULT_CLIENT_BUFFER_LEN), 0, Idle)
  }

  predicate NoRepeats(s: seq<ClientId>) {
    forall i, j :: 0 <= i < j < |s| ==> s[i] != s[j]
  }

  /** A snapshot lists the registered clients, in any order. */
  predicate Lists(order: seq<ClientId>, ids: set<ClientId>) {
    NoRepeats(order) && (forall id :: id in order ==> id in ids) && (forall id :: id in ids ==> id in order)
  }

  predicate Enabled(h: Hub, s: Step) {
    match s
    case Add(id) => id !in h.clients && !h.closed && |h.registered| < h.maxClients
    case RemoveEntry(id) => id in h.clients
    case CloseDone(id) => id in h.closing && id in h.clients
    case SetLimits(_, _) => true
    case CloseHub => true
    case StartBroadcast(order) => h.caster.Idle? && Lists(order, h.registered)
    case SendStep => h.caster.Sending? && h.caster.todo != [] && h.caster.todo[0] in h.clients
    case Receive(id) => id in h.clients && h.clients[id].queue != []
  }

  /** The broadcaster goes on to the next client of its snapshot. */
  function NextClient(todo: seq<ClientId>): Broadcaster
    requires todo != []
  {
    if |todo| == 1 then Idle else Sending(todo[1..], CheckDone)
  }

  /** One channel operation of send1 on client c for message n: the client and the next operation, if any. */
  function SendOne(c: Client, phase: Phase, n: nat): (Client, Option<Phase>) {
    match phase
    case CheckDone =>
      if c.done then (c, None) else (c.(attempted := c.attempted + [n]), Some(TrySend))
    case TrySend =>
      if |c.queue| < c.cap then (c.(queue := c.queue + [n]), None) else (c.(foundFull := true), Some(DropOldest))
    case DropOldest =>
      (if c.queue == [] then c.(misses := c.misses + 1)
       else c.(queue := c.queue[1..], lost := c.lost + [c.queue[0]]), Some(Retry))
    case Retry =>
      (if |c.queue| < c.cap then c.(queue := c.queue + [n]) else c.(lost := c.lost + [n]), Some(CountDrop))
    case CountDrop =>
      (c.(dropped := c.dropped + 1), None)
  }

  function Apply(h: Hub, s: Step): Hub
    requires Enabled(h, s)
  {
    match s
    case Add(id) =>
      h.(clients := h.clients[id := Client(h.bufferLen, false, 0, [], h.total, [], [], [], false, 0)],
         registered := h.registered + {id})
    case RemoveEntry(id) =>
      h.(registered := h.registered - {id}, closing := h.closing + {id})
    case CloseDone(id) =>
      h.(clients := h.clients[id := h.clients[id].(done := true)], closing := h.closing - {id})
    case SetLimits(maxClients, bufferLen) =>
      h.(maxClients := Positive(maxClients, DEFAULT_MAX_CLIENTS),
         bufferLen := Positive(bufferLen, DEFAULT_CLIENT_BUFFER_LEN))
    case CloseHub =>
      h.(closed := true, registered := {}, closing := h.closing + h.registered)
    case StartBroadcast(order) =>
      h.(total := h.total + 1, caster := if order == [] then Idle else Sending(order, CheckDone))
    case SendStep =>
      var todo := h.caster.todo;
      var (c, next) := SendOne(h.clients[todo[0]], h.caster.phase, if h.total == 0 then 0 else h.total - 1);
      h.(clients := h.clients[todo[0] := c],
         caster := if next.None? then NextClient(todo) else Sending(todo, next.value))
    case Receive(id) =>
      var c := h.clients[id];
      h.(clients := h.clients[id := c.(queue := c.queue[1..], delivered := c.delivered + [c.queue[0]])])
  }

  /** The state after a list of steps; a step that is not possible when its turn comes is skipped. */
  function Exec(h: Hub, steps: seq<Step>): Hub {
    if steps == [] then h
    else
      var before := Exec(h, steps[..|steps| - 1]);
      var s := steps[|steps| - 1];
      if Enabled(before, s) then Apply(before, s) else before
  }

  // ---- The invariant ----

  /** What the broadcaster is doing with a client. */
  datatype Role = Out | Waiting | Trying | Dropping | Retrying | Counting

  function RoleOf(b: Broadcaster, id: ClientId): Role {
    if b.Idle? || id !in b.todo then Out
    else if b.todo[0] != id then Waiting
    else match b.phase
      case CheckDone => Waiting
      case TrySend => Trying
      case DropOldest => Dropping
      case Retry => Retrying
      case CountDrop => Counting
  }

  function Range(lo: nat, hi: nat): seq<nat> {
    seq(if lo <= hi then hi - lo else 0, i requires 0 <= i => lo + i)
  }

  /** The newest message is attempted, but neither queued nor lost yet. */
  predicate InFlight(role: Role) { role.Trying? || role.Dropping? || role.Retrying? }

  /** Number of the first message that send1 has not tried on this client. */
  function Horizon(role: Role, total: nat): int { if role.Waiting? then total - 1 else total }

  /**
   * The books of one client: a, what was attempted; got, what was delivered or is queued; lost. The
   * newest attempted message, hi - 1, may be in flight. Every other one is in got or lost, once.
   */
  ghost predicate Books(a: seq<nat>, got: seq<nat>, lost: seq<nat>, flight: bool, hi: int) {
    && 0 <= hi
    && Increasing(a) && Increasing(got) && Increasing(lost)
    && (forall n :: n in a ==> n < hi)
    && (flight ==> a != [] && a[|a| - 1] == hi - 1)
    && multiset(if flight && a != [] then a[..|a| - 1] else a) == multiset(got) + multiset(lost)
    && (lost != [] ==> a != [] && lost[|lost| - 1] < a[|a| - 1])
  }

  ghost predicate ClientOk(c: Client, role: Role, total: nat, registered: bool) {
    && 1 <= c.cap
    && |c.queue| <= c.cap
    && (role.Retrying? ==> |c.queue| < c.cap)
    && Books(c.attempted, c.delivered + c.queue, c.lost, InFlight(role), Horizon(role, total))
    && (c.lost != [] && c.queue != [] ==> c.lost[|c.lost| - 1] < c.queue[0])
    && (role.Dropping? || role.Retrying? || role.Counting? ==> c.foundFull)
    && |c.lost| + c.misses == c.dropped + (if role.Retrying? || role.Counting? then 1 else 0)
    && (!c.foundFull ==> c.lost == [] && c.dropped == 0)
    && c.addedAt <= Horizon(role, total)
    && (registered ==> !c.done && c.attempted == Range(c.addedAt, Horizon(role, total)))
  }

  ghost predicate Inv(h: Hub) {
    && 1 <= h.maxClients && 1 <= h.bufferLen
    && (forall id :: id in h.registered ==> id in h.clients && id !in h.closing)
    && (forall id :: id in h.closing ==> id in h.clients)
    && (h.closed ==> h.registered == {})
    && (h.caster.Sending? ==> h.caster.todo != [] && NoRepeats(h.caster.todo) && h.total >= 1)
    && (h.caster.Sending? ==> forall id :: id in h.caster.todo ==> id in h.clients)
    && (forall id :: id in h.clients ==>
          ClientOk(h.clients[id], RoleOf(h.caster, id), h.total, id in h.registered))
  }

  // ---- Bookkeeping ----

  lemma RangeSnoc(lo: nat, hi: nat)
    requires lo <= hi
    ensures Range(lo, hi + 1) == Range(lo, hi) + [hi]
  {}

  lemma BooksFacts(a: seq<nat>, got: seq<nat>, lost: seq<nat>, flight: bool, hi: int)
    requires Books(a, got, lost, flight, hi)
    ensures Increasing(a) && Increasing(got)
    ensures forall n :: n in got ==> n in a && n < if flight then hi - 1 else hi
    ensures forall n :: n in lost ==> n in a && n !in got && n < a[|a| - 1]
    ensures |a| == |got| + |lost| + (if flight then 1 else 0)
  {
    var settled := if flight then a[..|a| - 1] else a;
    assert |multiset(settled)| == |settled| && |multiset(got)| == |got| && |multiset(lost)| == |lost|;
    SettledBelow(a, settled, if flight then hi - 1 else hi);
    SettledParts(settled, got, lost);
    if lost != [] {
      LastIsGreatest(lost);
    }
  }

  lemma SettledBelow(a: seq<nat>, settled: seq<nat>, bound: int)
    requires settled <= a && Increasing(a) && forall n :: n in a ==> n <= bound
    requires settled == a ==> forall n :: n in a ==> n < bound
    ensures Increasing(settled) && forall n :: n in settled ==> n in a && n < bound
  {
    forall i | 0 <= i < |settled| ensures settled[i] in a && settled[i] < bound {
      assert settled[i] == a[i] && a[i] in a;
      if |settled| < |a| {
        assert a[i] < a[|settled|] && a[|settled|] in a;
      } else {
        assert settled == a;
      }
    }
  }

  lemma SettledParts(settled: seq<nat>, got: seq<nat>, lost: seq<nat>)
    requires Increasing(settled) && multiset(settled) == multiset(got) + multiset(lost)
    ensures forall n :: n in got ==> n in settled
    ensures forall n :: n in lost ==> n in settled && n !in got
  {
    forall n | n in got ensures n in settled {
      assert n in multiset(got) && n in multiset(settled);
    }
    forall n | n in lost ensures n in settled && n !in got {
      assert n in multiset(lost) && n in multiset(settled);
      IncreasingOnce(settled, n);
      assert n !in multiset(got);
    }
  }

  lemma AttemptedExist(a: seq<nat>, got: seq<nat>, lost: seq<nat>, flight: bool, hi: int, total: nat)
    requires Books(a, got, lost, flight, hi) && hi <= total
    ensures forall n :: n in a ==> n < total
  {}

  lemma BooksLater(a: seq<nat>, got: seq<nat>, lost: seq<nat>, hi: int, later: int)
    requires Books(a, got, lost, false, hi) && hi <= later
    ensures Books(a, got, lost, false, later)
  {}

  lemma BooksAttempt(a: seq<nat>, got: seq<nat>, lost: seq<nat>, n: nat)
    requires Books(a, got, lost, false, n)
    ensures Books(a + [n], got, lost, true, n + 1)
  {
    IncreasingSnoc(a, n);
    assert (a + [n])[..|a|] == a;
    if lost != [] {
      assert a[|a| - 1] in a;
    }
  }

  lemma BooksEnqueue(a: seq<nat>, got: seq<nat>, lost: seq<nat>, n: nat)
    requires Books(a, got, lost, true, n + 1)
    ensures Books(a, got + [n], lost, false, n + 1)
  {
    BooksFacts(a, got, lost, true, n + 1);
    IncreasingSnoc(got, n);
    assert a == a[..|a| - 1] + [n];
  }

  lemma BooksLose(a: seq<nat>, before: seq<nat>, x: nat, rest: seq<nat>, lost: seq<nat>, hi: int)
    requires Books(a, before + ([x] + rest), lost, true, hi)
    requires lost != [] ==> lost[|lost| - 1] < x
    ensures Books(a, before + rest, lost + [x], true, hi)
    ensures rest != [] ==> x < rest[0]
  {
    var got := before + ([x] + rest);
    BooksFacts(a, got, lost, true, hi);
    IncreasingWithout(before, x, rest);
    if lost != [] {
      LastIsGreatest(lost);
    }
    IncreasingSnoc(lost, x);
    assert got[|before|] == x && x in got;
    if rest != [] {
      assert got[|before| + 1] == rest[0];
    }
    assert multiset(got) == multiset(before + rest) + multiset{x};
  }

  // ---- Sends ----

  function Successor(role: Role, next: Option<Phase>): Role {
    match next
    case None => Out
    case Some(TrySend) => Trying
    case Some(DropOldest) => Dropping
    case Some(Retry) => Retrying
    case Some(CountDrop) => Counting
    case Some(CheckDone) => Waiting
  }

  predicate AtPhase(role: Role, phase: Phase) {
    match phase
    case CheckDone => role.Waiting?
    case TrySend => role.Trying?
    case DropOldest => role.Dropping?
    case Retry => role.Retrying?
    case CountDrop => role.Counting?
  }

  lemma CheckDoneKeeps(c: Client, total: nat, registered: bool)
    requires total >= 1 && ClientOk(c, Waiting, total, registered)
    ensures var (c', next) := SendOne(c, CheckDone, total - 1); ClientOk(c', Successor(Waiting, next), total, registered)
  {
    hide Books, Range;
    if c.done {
      BooksLater(c.attempted, c.delivered + c.queue, c.lost, total - 1, total);
    } else {
      BooksAttempt(c.attempted, c.delivered + c.queue, c.lost, total - 1);
      RangeSnoc(c.addedAt, total - 1);
    }
  }

  lemma Enqueue(c: Client, total: nat)
    requires total >= 1 && Books(c.attempted, c.delivered + c.queue, c.lost, true, total)
    ensures Books(c.attempted, c.delivered + (c.queue + [total - 1]), c.lost, false, total)
    ensures c.lost != [] ==> c.lost[|c.lost| - 1] < total - 1
  {
    BooksEnqueue(c.attempted, c.delivered + c.queue, c.lost, total - 1);
    Assoc(c.delivered, c.queue, [total - 1]);
  }

  lemma TrySendKeeps(c: Client, total: nat, registered: bool)
    requires total >= 1 && ClientOk(c, Trying, total, registered)
    ensures var (c', next) := SendOne(c, TrySend, total - 1); ClientOk(c', Successor(Trying, next), total, registered)
  {
    hide Books, Range;
    Enqueue(c, total);
  }

  lemma DropOldestKeeps(c: Client, total: nat, registered: bool)
    requires total >= 1 && ClientOk(c, Dropping, total, registered)
    ensures var (c', next) := SendOne(c, DropOldest, total - 1); ClientOk(c', Successor(Dropping, next), total, registered)
  {
    hide Books, Range;
    if c.queue != [] {
      assert c.queue == [c.queue[0]] + c.queue[1..];
      BooksLose(c.attempted, c.delivered, c.queue[0], c.queue[1..], c.lost, total);
    }
  }

  lemma RetryKeeps(c: Client, total: nat, registered: bool)
    requires total >= 1 && ClientOk(c, Retrying, total, registered)
    ensures var (c', next) := SendOne(c, Retry, total - 1); ClientOk(c', Successor(Retrying, next), total, registered)
  {
    hide Books, Range;
    Enqueue(c, total);
  }

  lemma CountDropKeeps(c: Client, total: nat, registered: bool)
    requires total >= 1 && ClientOk(c, Counting, total, registered)
    ensures var (c', next) := SendOne(c, CountDrop, total - 1); ClientOk(c', Successor(Counting, next), total, registered)
  {
    hide Books, Range;
  }

  lemma SendOneKeeps(c: Client, role: Role, phase: Phase, total: nat, registered: bool)
    requires total >= 1 && AtPhase(role, phase) && ClientOk(c, role, total, registered)
    ensures var (c', next) := SendOne(c, phase, total - 1); ClientOk(c', Successor(role, next), total, registered)
  {
    hide ClientOk, SendOne;
    match phase
    case CheckDone => CheckDoneKeeps(c, total, registered);
    case TrySend => TrySendKeeps(c, total, registered);
    case DropOldest => DropOldestKeeps(c, total, registered);
    case Retry => RetryKeeps(c, total, registered);
    case CountDrop => CountDropKeeps(c, total, registered);
  }

  lemma ReceiveKeeps(c: Client, role: Role, total: nat, registered: bool)
    requires c.queue != [] && ClientOk(c, role, total, registered)
    ensures ClientOk(c.(queue := c.queue[1..], delivered := c.delivered + [c.queue[0]]), role, total, registered)
  {
    var got := c.delivered + c.queue;
    assert c.queue == [c.queue[0]] + c.queue[1..];
    Assoc(c.delivered, [c.queue[0]], c.queue[1..]);
    if |c.queue| > 1 {
      assert got[|c.delivered|] == c.queue[0] && got[|c.delivered| + 1] == c.queue[1];
    }
  }

  /** A new broadcast makes every listed client wait for it. */
  lemma BroadcastKeeps(c: Client, total: nat, registered: bool)
    requires ClientOk(c, Out, total, registered)
    ensures ClientOk(c, Waiting, total + 1, registered)
    ensures !registered ==> ClientOk(c, Out, total + 1, registered)
  {
    BooksLater(c.attempted, c.delivered + c.queue, c.lost, total, total + 1);
    hide Books, Range;
  }

  lemma RemovalKeeps(c: Client, role: Role, total: nat, registered: bool)
    requires ClientOk(c, role, total, registered)
    ensures ClientOk(c, role, total, false) && ClientOk(c.(done := true), role, total, false)
  {}

  // ---- Every step keeps the invariant ----

  lemma RolesAfterSend(b: Broadcaster, next: Option<Phase>, id: ClientId)
    requires b.Sending? && b.todo != [] && NoRepeats(b.todo) && next != Some(CheckDone)
    ensures var b' := if next.None? then NextClient(b.todo) else Sending(b.todo, next.value);
            RoleOf(b', id) == if id == b.todo[0] then Successor(RoleOf(b, id), next) else RoleOf(b, id)
  {
    var todo := b.todo;
    assert id in todo <==> id == todo[0] || id in todo[1..];
    assert todo[0] !in todo[1..];
  }

  lemma SendFacts(b: Broadcaster, c: Client, n: nat)
    requires b.Sending? && b.todo != []
    ensures AtPhase(RoleOf(b, b.todo[0]), b.phase)
    ensures SendOne(c, b.phase, n).1 != Some(CheckDone)
  {
    assert b.todo[0] in b.todo;
  }

  lemma SendStepKeeps(h: Hub)
    requires Inv(h) && Enabled(h, SendStep)
    ensures Inv(Apply(h, SendStep))
  {
    hide ClientOk, SendOne, Successor, RoleOf, AtPhase;
    var h', todo, phase := Apply(h, SendStep), h.caster.todo, h.caster.phase;
    var id0 := todo[0];
    var c0 := h.clients[id0];
    SendFacts(h.caster, c0, h.total - 1);
    SendOneKeeps(c0, RoleOf(h.caster, id0), phase, h.total, id0 in h.registered);
    var next := SendOne(c0, phase, h.total - 1).1;
    forall id | id in h'.clients ensures ClientOk(h'.clients[id], RoleOf(h'.caster, id), h'.total, id in h'.registered) {
      RolesAfterSend(h.caster, next, id);
    }
    assert forall id :: id in todo[1..] ==> id in todo;
  }

  lemma StartBroadcastKeeps(h: Hub, order: seq<ClientId>)
    requires Inv(h) && Enabled(h, StartBroadcast(order))
    ensures Inv(Apply(h, StartBroadcast(order)))
  {
    hide ClientOk;
    var h' := Apply(h, StartBroadcast(order));
    forall id | id in h.clients
      ensures ClientOk(h.clients[id], RoleOf(h'.caster, id), h'.total, id in h.registered)
    {
      BroadcastKeeps(h.clients[id], h.total, id in h.registered);
    }
    hide RoleOf;
  }

  lemma AddKeeps(h: Hub, id0: ClientId)
    requires Inv(h) && Enabled(h, Add(id0))
    ensures Inv(Apply(h, Add(id0)))
  {
    hide ClientOk;
    var h' := Apply(h, Add(id0));
    NewClientOk(h.bufferLen, h.total);
    assert RoleOf(h.caster, id0) == Out;
    hide RoleOf;
    forall id | id in h'.clients ensures ClientOk(h'.clients[id], RoleOf(h'.caster, id), h'.total, id in h'.registered) {
      assert id != id0 ==> h'.clients[id] == h.clients[id];
    }
  }

  lemma NewClientOk(cap: nat, total: nat)
    requires 1 <= cap
    ensures ClientOk(Client(cap, false, 0, [], total, [], [], [], false, 0), Out, total, true)
  {}

  lemma RemoveKeeps(h: Hub, s: Step)
    requires Inv(h) && Enabled(h, s) && (s.RemoveEntry? || s.CloseDone? || s.CloseHub?)
    ensures Inv(Apply(h, s))
  {
    forall id | id in h.clients
      ensures ClientOk(h.clients[id], RoleOf(h.caster, id), h.total, false)
      ensures ClientOk(h.clients[id].(done := true), RoleOf(h.caster, id), h.total, false)
    {
      RemovalKeeps(h.clients[id], RoleOf(h.caster, id), h.total, id in h.registered);
    }
    hide ClientOk, RoleOf;
  }

  lemma ReceiveStepKeeps(h: Hub, id0: ClientId)
    requires Inv(h) && Enabled(h, Receive(id0))
    ensures Inv(Apply(h, Receive(id0)))
  {
    ReceiveKeeps(h.clients[id0], RoleOf(h.caster, id0), h.total, id0 in h.registered);
    hide ClientOk, RoleOf;
    var c := h.clients[id0];
    ClientKeeps(h, id0, c.(queue := c.queue[1..], delivered := c.delivered + [c.queue[0]]));
  }

  /** A step that changes one client only. */
  lemma ClientKeeps(h: Hub, id0: ClientId, c: Client)
    requires Inv(h) && id0 in h.clients && ClientOk(c, RoleOf(h.caster, id0), h.total, id0 in h.registered)
    ensures Inv(h.(clients := h.clients[id0 := c]))
  {
    hide ClientOk, RoleOf, NoRepeats;
    var h' := h.(clients := h.clients[id0 := c]);
    forall id | id in h'.clients ensures ClientOk(h'.clients[id], RoleOf(h'.caster, id), h'.total, id in h'.registered) {
      assert id != id0 ==> h'.clients[id] == h.clients[id];
    }
  }

  lemma StepKeeps(h: Hub, s: Step)
    requires Inv(h) && Enabled(h, s)
    ensures Inv(Apply(h, s))
  {
    match s
    case Add(id) => AddKeeps(h, id);
    case RemoveEntry(_) => RemoveKeeps(h, s);
    case CloseDone(_) => RemoveKeeps(h, s);
    case SetLimits(_, _) =>
    case CloseHub => RemoveKeeps(h, s);
    case StartBroadcast(order) => StartBroadcastKeeps(h, order);
    case SendStep => SendStepKeeps(h);
    case Receive(id) => ReceiveStepKeeps(h, id);
  }

  /** In every interleaving, at every point, for every client. */
  lemma {:induction false} AlwaysInv(maxClients: int, bufferLen: int, steps: seq<Step>)
    ensures Inv(Exec(New(maxClients, bufferLen), steps))
    decreases |steps|
  {
    if steps == [] {
    } else {
      AlwaysInv(maxClients, bufferLen, steps[..|steps| - 1]);
      var before := Exec(New(maxClients, bufferLen), steps[..|steps| - 1]);
      if Enabled(before, steps[|steps| - 1]) {
        StepKeeps(before, steps[|steps| - 1]);
      }
    }
  }

  // ---- What clients see ----

  /**
   * What a consumer got and will get is in order and part of what was sent to it; the rest was lost,
   * never the newest, and the counter covers the loss.
   */
  lemma DeliveryGuarantee(maxClients: int, bufferLen: int, steps: seq<Step>, id: ClientId)
    requires id in Exec(New(maxClients, bufferLen), steps).clients
    ensures var h := Exec(New(maxClients, bufferLen), steps);
            var c := h.clients[id];
            && Increasing(c.delivered + c.queue)
            && Increasing(c.attempted)
            && (forall n :: n in c.delivered + c.queue ==> n in c.attempted)
            && (forall n :: n in c.attempted ==> n < h.total)
            && |c.queue| <= c.cap
            && |c.attempted| == |c.delivered| + |c.queue| + |c.lost| + (if InFlight(RoleOf(h.caster, id)) then 1 else 0)
            && (forall n :: n in c.lost ==> n in c.attempted && n !in c.delivered + c.queue
                                            && n < c.attempted[|c.attempted| - 1])
            && (h.caster.Idle? ==> c.dropped == |c.lost| + c.misses)
            && (!c.foundFull ==> c.lost == [] && c.dropped == 0)
  {
    hide Exec, Books, Range;
    var h := Exec(New(maxClients, bufferLen), steps);
    AlwaysInv(maxClients, bufferLen, steps);
    var c, role := h.clients[id], RoleOf(h.caster, id);
    AttemptedExist(c.attempted, c.delivered + c.queue, c.lost, InFlight(role), Horizon(role, h.total), h.total);
    BooksFacts(c.attempted, c.delivered + c.queue, c.lost, InFlight(role), Horizon(role, h.total));
  }

  /**
   * A registered client whose queue no send found full has, between broadcasts, got or still has
   * queued every message since it was added.
   */
  lemma FastConsumerLosesNothing(maxClients: int, bufferLen: int, steps: seq<Step>, id: ClientId)
    requires var h := Exec(New(maxClients, bufferLen), steps);
             h.caster.Idle? && id in h.registered && id in h.clients && !h.clients[id].foundFull
    ensures var h := Exec(New(maxClients, bufferLen), steps);
            var c := h.clients[id];
            c.delivered + c.queue == Range(c.addedAt, h.total)
  {
    var h := Exec(New(maxClients, bufferLen), steps);
    AlwaysInv(maxClients, bufferLen, steps);
    var c := h.clients[id];
    assert multiset(c.attempted) == multiset(c.delivered + c.queue);
    IncreasingUnique(c.delivered + c.queue, c.attempted);
  }

  // ---- Limits and removal ----

  /** The limits set last, with the defaults for those that are not positive. */
  function Limits(maxClients: int, bufferLen: int, steps: seq<Step>): (int, int) {
    if steps == [] then (if maxClients <= 0 then 100 else maxClients, if bufferLen <= 0 then 64 else bufferLen)
    else match steps[|steps| - 1]
      case SetLimits(m, b) => (if m <= 0 then 100 else m, if b <= 0 then 64 else b)
      case _ => Limits(maxClients, bufferLen, steps[..|steps| - 1])
  }

  lemma StepLimits(h: Hub, s: Step)
    requires Enabled(h, s)
    ensures var h' := Apply(h, s);
            if s.SetLimits? then
              && h'.maxClients == (if s.maxClients <= 0 then 100 else s.maxClients)
              && h'.bufferLen == (if s.bufferLen <= 0 then 64 else s.bufferLen)
            else h'.maxClients == h.maxClients && h'.bufferLen == h.bufferLen
  {
    hide SendOne, NextClient;
  }

  lemma {:induction false} LimitsAreTheLast(maxClients: int, bufferLen: int, steps: seq<Step>)
    ensures var h := Exec(New(maxClients, bufferLen), steps);
            (h.maxClients, h.bufferLen) == Limits(maxClients, bufferLen, steps)
    decreases |steps|
  {
    if steps == [] {
    } else {
      var before, s := Exec(New(maxClients, bufferLen), steps[..|steps| - 1]), steps[|steps| - 1];
      LimitsAreTheLast(maxClients, bufferLen, steps[..|steps| - 1]);
      hide Apply;
      if Enabled(before, s) {
        StepLimits(before, s);
      }
    }
  }

  /** The buffer length in force when client id was added. */
  function LimitAtAdd(maxClients: int, bufferLen: int, steps: seq<Step>, id: ClientId): int {
    if steps == [] then 0
    else
      var before, s := steps[..|steps| - 1], steps[|steps| - 1];
      if s == Add(id) && Enabled(Exec(New(maxClients, bufferLen), before), s) then Limits(maxClients, bufferLen, before).1
      else LimitAtAdd(maxClients, bufferLen, before, id)
  }

  lemma StepKeepsCap(h: Hub, s: Step, id: ClientId)
    requires Enabled(h, s) && id in h.clients
    ensures id in Apply(h, s).clients && Apply(h, s).clients[id].cap == h.clients[id].cap
    ensures h.clients[id].done ==> Apply(h, s).clients[id].done
                                   && Apply(h, s).clients[id].attempted == h.clients[id].attempted
  {}

  /** New limits apply to the clients added after them, and to no others. */
  lemma {:induction false} CapacityFromAdd(maxClients: int, bufferLen: int, steps: seq<Step>, id: ClientId)
    requires id in Exec(New(maxClients, bufferLen), steps).clients
    ensures Exec(New(maxClients, bufferLen), steps).clients[id].cap == LimitAtAdd(maxClients, bufferLen, steps, id)
    decreases |steps|
  {
    if steps != [] {
      var before, s := steps[..|steps| - 1], steps[|steps| - 1];
      var h := Exec(New(maxClients, bufferLen), before);
      if id in h.clients {
        CapacityFromAdd(maxClients, bufferLen, before, id);
        if Enabled(h, s) {
          StepKeepsCap(h, s, id);
        }
      } else {
        LimitsAreTheLast(maxClients, bufferLen, before);
      }
    }
  }

  /** A client can be added exactly while the hub is open and below its limit, and then the limit holds. */
  lemma AddRespectsLimit(maxClients: int, bufferLen: int, steps: seq<Step>, id: ClientId)
    requires id !in Exec(New(maxClients, bufferLen), steps).clients
    ensures var h := Exec(New(maxClients, bufferLen), steps);
            && (Enabled(h, Add(id)) <==> !h.closed && |h.registered| < Limits(maxClients, bufferLen, steps).0)
            && (Enabled(h, Add(id)) ==> |Apply(h, Add(id)).registered| == |h.registered| + 1
                                        && Apply(h, Add(id)).registered == h.registered + {id})
  {
    LimitsAreTheLast(maxClients, bufferLen, steps);
    AlwaysInv(maxClients, bufferLen, steps);
  }

  /** Once its done channel is closed, no further message is sent to a client, whatever happens. */
  lemma {:induction false} DoneStopsSends(h: Hub, more: seq<Step>, id: ClientId)
    requires id in h.clients && h.clients[id].done
    ensures id in Exec(h, more).clients && Exec(h, more).clients[id].done
    ensures Exec(h, more).clients[id].attempted == h.clients[id].attempted
    decreases |more|
  {
    if more == [] {
    } else {
      DoneStopsSends(h, more[..|more| - 1], id);
      var before := Exec(h, more[..|more| - 1]);
      if Enabled(before, more[|more| - 1]) {
        StepKeepsCap(before, more[|more| - 1], id);
      }
    }
  }

  /** A client that is neither registered nor about to be told so has been told that it is done. */
  ghost predicate ToldWhenRemoved(h: Hub) {
    forall id :: id in h.clients && id !in h.registered && id !in h.closing ==> h.clients[id].done
  }

  lemma StepKeepsTold(h: Hub, s: Step)
    requires Enabled(h, s) && ToldWhenRemoved(h)
    ensures ToldWhenRemoved(Apply(h, s))
  {
    var h' := Apply(h, s);
    forall id | id in h'.clients && id !in h'.registered && id !in h'.closing ensures h'.clients[id].done {
      if id in h.clients {
        StepKeepsCap(h, s, id);
      }
    }
  }

  /** Removing a client, or closing the hub, ends in its done channel being closed. */
  lemma {:induction false} RemovedAreTold(maxClients: int, bufferLen: int, steps: seq<Step>)
    ensures ToldWhenRemoved(Exec(New(maxClients, bufferLen), steps))
    decreases |steps|
  {
    if steps == [] {
    } else {
      var before := Exec(New(maxClients, bufferLen), steps[..|steps| - 1]);
      RemovedAreTold(maxClients, bufferLen, steps[..|steps| - 1]);
      hide ToldWhenRemoved, Apply;
      if Enabled(before, steps[|steps| - 1]) {
        StepKeepsTold(before, steps[|steps| - 1]);
      }
    }
  }

  /** A call to Remove or Close unregisters the client at once. */
  lemma UnregisteredAtOnce(h: Hub, id: ClientId)
    ensures id in h.clients ==> id !in Apply(h, RemoveEntry(id)).registered && id in Apply(h, RemoveEntry(id)).closing
    ensures var h' := Apply(h, CloseHub); h'.closed && h'.registered == {} && h.registered <= h'.closing
  {}

  // ---- The drop counter ----

  /**
   * In every interleaving, between broadcasts, the counter is the number of lost messages exactly when
   * no send found the queue drained between its failed try and its drop.
   */
  lemma DropCounterExactIff(maxClients: int, bufferLen: int, steps: seq<Step>, id: ClientId)
    requires var h := Exec(New(maxClients, bufferLen), steps); h.caster.Idle? && id in h.clients
    ensures var c := Exec(New(maxClients, bufferLen), steps).clients[id];
            c.dropped == |c.lost| <==> c.misses == 0
  {
    hide Exec;
    DeliveryGuarantee(maxClients, bufferLen, steps, id);
  }

  /** The sends of a run that, about to drop the oldest entry of client id's queue, find nothing to drop. */
  function DrainedDrops(h: Hub, steps: seq<Step>, id: ClientId): nat {
    if steps == [] then 0
    else
      var before, s := Exec(h, steps[..|steps| - 1]), steps[|steps| - 1];
      DrainedDrops(h, steps[..|steps| - 1], id)
      + if s.SendStep? && Enabled(before, s) && before.caster.phase.DropOldest? && before.caster.todo[0] == id
           && before.clients[id].queue == [] then 1 else 0
  }

  /** The misses of a client are read off the run. */
  lemma {:induction false} MissesAreDrainedDrops(maxClients: int, bufferLen: int, steps: seq<Step>, id: ClientId)
    ensures var h := Exec(New(maxClients, bufferLen), steps);
            if id in h.clients then h.clients[id].misses == DrainedDrops(New(maxClients, bufferLen), steps, id)
            else DrainedDrops(New(maxClients, bufferLen), steps, id) == 0
    decreases |steps|
  {
    var h0 := New(maxClients, bufferLen);
    if steps == [] {
    } else {
      var before, s := Exec(h0, steps[..|steps| - 1]), steps[|steps| - 1];
      MissesAreDrainedDrops(maxClients, bufferLen, steps[..|steps| - 1], id);
      MissesStep(before, s, id);
    }
  }

  lemma MissesStep(h: Hub, s: Step, id: ClientId)
    ensures var h' := if Enabled(h, s) then Apply(h, s) else h;
            var drained := s.SendStep? && Enabled(h, s) && h.caster.phase.DropOldest? && h.caster.todo[0] == id
                           && h.clients[id].queue == [];
            && (id in h.clients ==> id in h'.clients
                                    && h'.clients[id].misses == h.clients[id].misses + if drained then 1 else 0)
            && (id !in h.clients && id in h'.clients ==> h'.clients[id].misses == 0)
            && (id !in h.clients ==> !drained)
  {}

  lemma Extend(h: Hub, steps: seq<Step>, s: Step)
    requires Enabled(Exec(h, steps), s)
    ensures Exec(h, steps + [s]) == Apply(Exec(h, steps), s)
  {
    assert (steps + [s])[..|steps|] == steps;
  }

  /** From a state with client 0 alone and idle, the steps up to the end of its done check. */
  lemma BeginSend(h0: Hub, steps: seq<Step>) returns (longer: seq<Step>)
    requires var h := Exec(h0, steps); h.caster.Idle? && h.registered == {0} && 0 in h.clients && !h.clients[0].done
    ensures var h, h' := Exec(h0, steps), Exec(h0, longer);
            h' == h.(total := h.total + 1, caster := Sending([0], TrySend),
                     clients := h.clients[0 := h.clients[0].(attempted := h.clients[0].attempted + [h.total])])
  {
    Extend(h0, steps, StartBroadcast([0]));
    longer := steps + [StartBroadcast([0])];
    Extend(h0, longer, SendStep);
    longer := longer + [SendStep];
  }

  /** One client with room for one message, and one message in its queue. */
  lemma FullQueue() returns (steps: seq<Step>)
    ensures var h := Exec(New(1, 1), steps);
            && h.caster.Idle? && h.registered == {0} && 0 in h.clients
            && var c := h.clients[0];
               !c.done && c.cap == 1 && |c.queue| == 1 && c.dropped == 0 && c.lost == []
  {
    var h0 := New(1, 1);
    assert Exec(h0, []) == h0;
    hide Exec;
    Extend(h0, [], Add(0));
    steps := BeginSend(h0, [] + [Add(0)]);
    Extend(h0, steps, SendStep);
    steps := steps + [SendStep];
  }

  /**
   * The counter is only an upper bound: when the consumer empties the queue between the failed send
   * and the drop, it counts a message that was not lost.
   */
  lemma DroppedMayOvercount() returns (steps: seq<Step>)
    ensures var h := Exec(New(1, 1), steps);
            h.caster.Idle? && 0 in h.clients && h.clients[0].dropped == 1 && h.clients[0].lost == []
  {
    hide Exec;
    var h0 := New(1, 1);
    steps := FullQueue();
    steps := BeginSend(h0, steps);
    Extend(h0, steps, SendStep);
    steps := steps + [SendStep];
    Extend(h0, steps, Receive(0));
    steps := steps + [Receive(0)];
    Extend(h0, steps, SendStep);
    steps := steps + [SendStep];
    Extend(h0, steps, SendStep);
    steps := steps + [SendStep];
    Extend(h0, steps, SendStep);
    steps := steps + [SendStep];
  }

  // ---- A send that nothing interrupts ----

  /** What a send does to a queue of its own: append, at the price of the oldest entry when it is full. */
  function Offer<T>(queue: seq<T>, cap: nat, x: T): seq<T> {
    if |queue| < cap then queue + [x] else if queue == [] then [x] else queue[1..] + [x]
  }

  /** All the channel operations of one send, without interleaving. */
  function WholeSend(c: Client, phase: Phase, n: nat): Client
    decreases match phase case CheckDone => 4 case TrySend => 3 case DropOldest => 2 case Retry => 1 case CountDrop => 0
  {
    var (c', next) := SendOne(c, phase, n);
    if next.None? then c' else
      match (phase, next.value)
      case (CheckDone, TrySend) => WholeSend(c', TrySend, n)
      case (TrySend, DropOldest) => WholeSend(c', DropOldest, n)
      case (DropOldest, Retry) => WholeSend(c', Retry, n)
      case (Retry, CountDrop) => WholeSend(c', CountDrop, n)
      case _ => c'
  }

  /** Uninterrupted, a send to a live client replaces the oldest entry of a full queue and counts that. */
  lemma WholeSendIsOffer(c: Client, n: nat)
    requires 1 <= c.cap && |c.queue| <= c.cap
    ensures var c' := WholeSend(c, CheckDone, n);
            && c'.queue == (if c.done then c.queue else Offer(c.queue, c.cap, n))
            && c'.dropped == c.dropped + (if !c.done && |c.queue| == c.cap then 1 else 0)
            && c'.lost == c.lost + (if !c.done && |c.queue| == c.cap then [c.queue[0]] else [])
  {
    if !c.done {
      var c1 := SendOne(c, CheckDone, n).0;
      var c2 := SendOne(c1, TrySend, n).0;
      if |c.queue| == c.cap {
        var c3 := SendOne(c2, DropOldest, n).0;
        var c4 := SendOne(c3, Retry, n).0;
        assert WholeSend(c3, Retry, n) == WholeSend(c4, CountDrop, n);
        assert WholeSend(c2, DropOldest, n) == WholeSend(c3, Retry, n);
      }
      assert WholeSend(c, CheckDone, n) == WholeSend(c1, TrySend, n);
    }
  }

  function OfferAll<T>(queue: seq<T>, cap: nat, xs: seq<T>): seq<T> {
    if xs == [] then queue else Offer(OfferAll(queue, cap, xs[..|xs| - 1]), cap, xs[|xs| - 1])
  }

  /** Without a consumer, the queue holds the newest messages, as many as fit. */
  lemma {:induction false} KeepsNewest<T>(queue: seq<T>, cap: nat, xs: seq<T>)
    requires 1 <= cap && |queue| <= cap
    ensures var all := queue + xs;
            OfferAll(queue, cap, xs) == all[if |all| <= cap then 0 else |all| - cap..]
    decreases |xs|
  {
    if xs == [] {
      assert queue + xs == queue;
    } else {
      var ys, x := xs[..|xs| - 1], xs[|xs| - 1];
      KeepsNewest(queue, cap, ys);
      assert queue + xs == (queue + ys) + [x];
    }
  }
}

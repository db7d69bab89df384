/**
 * The reconnecting WebSocket client (web/src/transport/wsClient.ts). Its closure variables are the
 * fields of a class; every event handler is a method, proved against a function on states, and the
 * invariants are proved for every run of events. Handlers registered with the client do not call it
 * back while it emits.
 */
module WsClient {
  import opened Bytes
  import Backoff

  type SocketId = nat
  type TimerId = nat

  datatype Data = Binary(bytes: seq<Byte>) | Text(text: string) | Unsupported

  datatype Out =
    | Connecting
    | Connected
    | Reconnecting(nextAttemptInMs: real, attempt: nat)
    | Disconnected
    | Message(socket: SocketId, data: Data)

  /** A socket the client made: the generation its handlers captured, and how it ended. */
  datatype Socket = Socket(generation: nat, closedByClient: bool, reportedClosed: bool)

  datatype Config = Config(initial: real, max: real, jitter: real, hasVisibility: bool, threshold: nat)

  datatype Ws = Ws(
    socket: Option<SocketId>,
    timer: Option<TimerId>,
    attempt: nat,
    generation: nat,
    manual: bool,
    active: bool,
    lastHiddenAt: Option<int>,
    subscribed: bool,
    sockets: seq<Socket>,        // every socket ever made; a socket's id is its index
    armed: set<TimerId>,         // timers that may still fire
    timersMade: nat)

  datatype Event =
    | Connect
    | Disconnect
    | Opened(socket: SocketId)
    | Received(socket: SocketId, data: Data)
    | Closed(socket: SocketId, draw: real)
    | Errored(socket: SocketId)
    | TimerFired(timer: TimerId)
    | VisibilityChanged(hidden: bool, now: int)

  const START := Ws(None, None, 0, 0, false, false, None, false, [], {}, 0)

  // ---- Handlers as functions ----

  function OpenSocket(w: Ws): (Ws, seq<Out>) {
    (w.(generation := w.generation + 1,
        sockets := w.sockets + [Socket(w.generation + 1, false, false)],
        socket := Some(|w.sockets|)),
     [Connecting])
  }

  function ClearTimer(w: Ws): Ws {
    if w.timer.None? then w else w.(timer := None, armed := w.armed - {w.timer.value})
  }

  function CloseByClient(w: Ws, s: Option<SocketId>): Ws {
    if s.Some? && s.value < |w.sockets|
    then w.(sockets := w.sockets[s.value := w.sockets[s.value].(closedByClient := true)])
    else w
  }

  function ScheduleReconnect(cfg: Config, w: Ws, draw: real): (Ws, seq<Out>) {
    (w.(attempt := w.attempt + 1, timer := Some(w.timersMade), armed := w.armed + {w.timersMade},
        timersMade := w.timersMade + 1),
     [Reconnecting(Backoff.TsDelay(cfg.initial, cfg.max, cfg.jitter, w.attempt as real, draw), w.attempt)])
  }

  function ForceReconnect(w: Ws): (Ws, seq<Out>) {
    var w1 := if w.socket.Some? then CloseByClient(w.(generation := w.generation + 1, socket := None), w.socket) else w;
    OpenSocket(ClearTimer(w1).(attempt := 0))
  }

  /** The guard of every socket handler. */
  predicate Current(w: Ws, s: SocketId) {
    s < |w.sockets| && w.sockets[s].generation == w.generation && w.socket == Some(s)
  }

  function OnConnect(cfg: Config, w: Ws): (Ws, seq<Out>) {
    var w1 := ClearTimer(w.(manual := false, active := true, subscribed := w.subscribed || cfg.hasVisibility));
    if w1.socket.Some? then (w1, []) else OpenSocket(w1.(attempt := 0))
  }

  function OnDisconnect(w: Ws): (Ws, seq<Out>) {
    var w1 := ClearTimer(w.(manual := true, active := false, subscribed := false, lastHiddenAt := None));
    (CloseByClient(w1.(attempt := 0, socket := None, generation := w.generation + 1), w.socket), [Disconnected])
  }

  function OnOpened(w: Ws, s: SocketId): (Ws, seq<Out>) {
    if Current(w, s) then (w.(attempt := 0), [Connected]) else (w, [])
  }

  function OnReceived(w: Ws, s: SocketId, data: Data): (Ws, seq<Out>) {
    (w, if Current(w, s) && !data.Unsupported? then [Message(s, data)] else [])
  }

  function OnClosed(cfg: Config, w: Ws, s: SocketId, draw: real): (Ws, seq<Out>)
    requires s < |w.sockets|
  {
    var w1 := w.(sockets := w.sockets[s := w.sockets[s].(reportedClosed := true)]);
    if !Current(w, s) then (w1, [])
    else if w.manual then (w1.(socket := None), [Disconnected])
    else ScheduleReconnect(cfg, w1.(socket := None), draw)
  }

  function OnErrored(w: Ws, s: SocketId): (Ws, seq<Out>) {
    (if Current(w, s) then CloseByClient(w, Some(s)) else w, [])
  }

  function OnTimer(w: Ws, t: TimerId): (Ws, seq<Out>) {
    var w1 := w.(armed := w.armed - {t}, timer := None);
    if w.manual then (w1, []) else OpenSocket(w1)
  }

  /** A return to the foreground after being hidden at least as long as the threshold. */
  predicate Forces(cfg: Config, w: Ws, e: Event) {
    e.VisibilityChanged? && w.subscribed && w.active && !e.hidden
    && w.lastHiddenAt.Some? && e.now - w.lastHiddenAt.value >= cfg.threshold
  }

  function OnVisibility(cfg: Config, w: Ws, hidden: bool, now: int): (Ws, seq<Out>) {
    if !w.active then (w, [])
    else if hidden then (w.(lastHiddenAt := if w.lastHiddenAt.None? then Some(now) else w.lastHiddenAt), [])
    else if Forces(cfg, w, VisibilityChanged(hidden, now)) then ForceReconnect(w.(lastHiddenAt := None))
    else (w.(lastHiddenAt := None), [])
  }

  /** One event. Events of sockets and timers that do not exist, or without a subscription, do not happen. */
  function Step(cfg: Config, w: Ws, e: Event): (Ws, seq<Out>) {
    match e
    case Connect => OnConnect(cfg, w)
    case Disconnect => OnDisconnect(w)
    case Opened(s) => OnOpened(w, s)
    case Received(s, data) => OnReceived(w, s, data)
    case Closed(s, draw) => if s < |w.sockets| then OnClosed(cfg, w, s, draw) else (w, [])
    case Errored(s) => OnErrored(w, s)
    case TimerFired(t) => if t in w.armed then OnTimer(w, t) else (w, [])
    case VisibilityChanged(hidden, now) => if w.subscribed then OnVisibility(cfg, w, hidden, now) else (w, [])
  }

  /** The state after a list of events, and everything emitted on the way. */
  function Run(cfg: Config, events: seq<Event>): (Ws, seq<Out>) {
    if events == [] then (START, [])
    else
      var (w, log) := Run(cfg, events[..|events| - 1]);
      var (w', outs) := Step(cfg, w, events[|events| - 1]);
      (w', log + outs)
  }

  // ---- The invariant ----

  predicate Inv(cfg: Config, w: Ws) {
    && (if w.active then w.socket.Some? != w.timer.Some? else w.socket.None? && w.timer.None?)
    && (w.manual ==> !w.active)
    && (w.subscribed <==> w.active && cfg.hasVisibility)
    && (w.lastHiddenAt.Some? ==> w.subscribed)
    && w.armed == (if w.timer.Some? then {w.timer.value} else {})
    && (w.timer.Some? ==> w.timer.value < w.timersMade)
    && (w.socket.Some? ==> w.socket.value == |w.sockets| - 1 && w.sockets[w.socket.value].generation == w.generation)
    && (forall s :: 0 <= s < |w.sockets| && w.socket != Some(s) ==>
          w.sockets[s].closedByClient || w.sockets[s].reportedClosed)
  }

  lemma OpenKeeps(cfg: Config, w: Ws)
    requires w.active && !w.manual && w.socket.None? && w.timer.None? && w.armed == {}
    requires w.subscribed <==> cfg.hasVisibility
    requires w.lastHiddenAt.Some? ==> w.subscribed
    requires forall s :: 0 <= s < |w.sockets| ==> w.sockets[s].closedByClient || w.sockets[s].reportedClosed
    ensures Inv(cfg, OpenSocket(w).0)
  {}

  lemma VisibilityKeeps(cfg: Config, w: Ws, hidden: bool, now: int)
    requires Inv(cfg, w) && w.subscribed
    ensures Inv(cfg, OnVisibility(cfg, w, hidden, now).0)
  {
    if Forces(cfg, w, VisibilityChanged(hidden, now)) {
      var w0 := w.(lastHiddenAt := None);
      var w1 := if w.socket.Some? then CloseByClient(w0.(generation := w.generation + 1, socket := None), w.socket) else w0;
      OpenKeeps(cfg, ClearTimer(w1).(attempt := 0));
    }
  }

  lemma ConnectKeeps(cfg: Config, w: Ws)
    requires Inv(cfg, w)
    ensures Inv(cfg, OnConnect(cfg, w).0)
  {
    if w.socket.None? {
      var w1 := w.(manual := false, active := true, subscribed := w.subscribed || cfg.hasVisibility);
      OpenKeeps(cfg, ClearTimer(w1).(attempt := 0));
    }
  }

  lemma TimerKeeps(cfg: Config, w: Ws, t: TimerId)
    requires Inv(cfg, w) && t in w.armed
    ensures Inv(cfg, OnTimer(w, t).0)
  {
    OpenKeeps(cfg, w.(armed := w.armed - {t}, timer := None));
  }

  lemma ClosedKeeps(cfg: Config, w: Ws, s: SocketId, draw: real)
    requires Inv(cfg, w) && s < |w.sockets|
    ensures Inv(cfg, OnClosed(cfg, w, s, draw).0)
  {}

  lemma StepKeeps(cfg: Config, w: Ws, e: Event)
    requires Inv(cfg, w)
    ensures Inv(cfg, Step(cfg, w, e).0)
  {
    hide OnVisibility, OnConnect, OnTimer, OnClosed;
    match e
    case VisibilityChanged(hidden, now) =>
      if w.subscribed {
        VisibilityKeeps(cfg, w, hidden, now);
      }
    case Connect => ConnectKeeps(cfg, w);
    case TimerFired(t) =>
      if t in w.armed {
        TimerKeeps(cfg, w, t);
      }
    case Closed(s, draw) =>
      if s < |w.sockets| {
        ClosedKeeps(cfg, w, s, draw);
      }
    case _ =>
  }

  /** On every run: one socket or one timer while active, neither otherwise, and nothing leaks. */
  lemma {:induction false} AlwaysInv(cfg: Config, events: seq<Event>)
    ensures Inv(cfg, Run(cfg, events).0)
    decreases |events|
  {
    if events == [] {
    } else {
      AlwaysInv(cfg, events[..|events| - 1]);
      StepKeeps(cfg, Run(cfg, events[..|events| - 1]).0, events[|events| - 1]);
    }
  }

  /** The generation check of the handlers never decides: a socket is current when the client holds it. */
  lemma GenerationIsRedundant(cfg: Config, events: seq<Event>, s: SocketId)
    ensures var w := Run(cfg, events).0; Current(w, s) <==> w.socket == Some(s)
  {
    AlwaysInv(cfg, events);
  }

  /** After a manual disconnect no current socket can report a close and no timer can fire. */
  lemma ManualChecksAreDead(cfg: Config, events: seq<Event>)
    ensures var w := Run(cfg, events).0;
            w.manual ==> w.armed == {} && forall s :: !Current(w, s)
  {
    AlwaysInv(cfg, events);
  }

  // ---- Counting attempts ----

  /** Consecutive closes since the last open, connect that opened a socket, disconnect or forced reconnect. */
  function Streak(cfg: Config, events: seq<Event>): nat {
    if events == [] then 0
    else
      var before, e := events[..|events| - 1], events[|events| - 1];
      var w := Run(cfg, before).0;
      if e.Closed? && w.socket == Some(e.socket) then Streak(cfg, before) + 1
      else if (e.Opened? && w.socket == Some(e.socket)) || (e.Connect? && w.socket.None?) || e.Disconnect?
              || Forces(cfg, w, e) then 0
      else Streak(cfg, before)
  }

  lemma {:induction false} AttemptIsStreak(cfg: Config, events: seq<Event>)
    ensures Run(cfg, events).0.attempt == Streak(cfg, events)
    decreases |events|
  {
    if events == [] {
    } else {
      var before, e := events[..|events| - 1], events[|events| - 1];
      AttemptIsStreak(cfg, before);
      AlwaysInv(cfg, before);
      var w := Run(cfg, before).0;
      if e.Closed? && e.socket < |w.sockets| {
        assert Current(w, e.socket) <==> w.socket == Some(e.socket);
      }
    }
  }

  /** A reconnect is announced with the delay that belongs to the number of closes before it. */
  lemma ReconnectDelay(cfg: Config, events: seq<Event>, e: Event, out: Out)
    requires out in Step(cfg, Run(cfg, events).0, e).1 && out.Reconnecting?
    ensures out.attempt == Streak(cfg, events)
    ensures e.Closed?
    ensures out.nextAttemptInMs == Backoff.TsDelay(cfg.initial, cfg.max, cfg.jitter, Streak(cfg, events) as real, e.draw)
  {
    AttemptIsStreak(cfg, events);
  }

  // ---- Messages ----

  /** In the log no message follows one of a newer socket, and all come from sockets that exist. */
  predicate MessagesOrdered(log: seq<Out>) {
    forall i, j :: 0 <= i < j < |log| && log[i].Message? && log[j].Message? ==> log[i].socket <= log[j].socket
  }

  lemma MessageFromCurrent(cfg: Config, w: Ws, e: Event, out: Out)
    requires Inv(cfg, w) && out in Step(cfg, w, e).1 && out.Message?
    ensures e.Received? && w.socket == Some(out.socket) && out.socket == |w.sockets| - 1
    ensures Step(cfg, w, e) == (w, [out])
  {}

  lemma SocketsGrow(cfg: Config, w: Ws, e: Event)
    ensures |Step(cfg, w, e).0.sockets| >= |w.sockets|
    ensures |Step(cfg, w, e).1| <= 1
  {}

  /** Messages come only from the current socket, so the log never goes back to an older one. */
  lemma {:induction false} MessagesComeInOrder(cfg: Config, events: seq<Event>)
    ensures var (w, log) := Run(cfg, events);
            MessagesOrdered(log) && forall i :: 0 <= i < |log| && log[i].Message? ==> log[i].socket < |w.sockets|
    decreases |events|
  {
    if events == [] {
    } else {
      var before, e := events[..|events| - 1], events[|events| - 1];
      var (w, log) := Run(cfg, before);
      MessagesComeInOrder(cfg, before);
      AlwaysInv(cfg, before);
      SocketsGrow(cfg, w, e);
      var outs := Step(cfg, w, e).1;
      if outs != [] && outs[0].Message? {
        MessageFromCurrent(cfg, w, e, outs[0]);
      }
      hide Step;
    }
  }

  // ---- The client as seen from outside ----

  /** The last call was connect. */
  function Wanted(events: seq<Event>): bool {
    events != [] &&
    var e := events[|events| - 1];
    if e.Connect? then true else if e.Disconnect? then false else Wanted(events[..|events| - 1])
  }

  /** When the page was hidden that has not been shown since, as far as the client is told and wanted. */
  function HiddenSince(cfg: Config, events: seq<Event>): Option<int> {
    if events == [] then None
    else
      var before, e := events[..|events| - 1], events[|events| - 1];
      var earlier := HiddenSince(cfg, before);
      if e.Disconnect? then None
      else if e.VisibilityChanged? && cfg.hasVisibility && Wanted(before) then
        if !e.hidden then None else if earlier.Some? then earlier else Some(e.now)
      else earlier
  }

  /** The page is shown after it was hidden for at least the threshold. */
  predicate ReturnsLate(cfg: Config, before: seq<Event>, e: Event) {
    && e.VisibilityChanged? && !e.hidden
    && HiddenSince(cfg, before).Some? && e.now - HiddenSince(cfg, before).value >= cfg.threshold
  }

  /** A simpler client: it holds a connection or waits with an announced retry. */
  datatype Seen = Seen(
    held: Option<SocketId>,
    waiting: Option<TimerId>,
    made: nat,                   // sockets made so far
    announced: nat,              // retries announced so far
    streak: nat,                 // closes in a row
    shut: set<SocketId>,         // sockets the client closed
    gone: set<SocketId>)         // sockets reported closed

  function Holding(s: Seen): set<SocketId> { if s.held.Some? then {s.held.value} else {} }

  function Reopened(s: Seen): Seen {
    s.(held := Some(s.made), made := s.made + 1, waiting := None)
  }

  function Observe(cfg: Config, before: seq<Event>, s: Seen, e: Event): (Seen, seq<Out>) {
    match e
    case Connect =>
      if s.held.Some? then (s, []) else (Reopened(s).(streak := 0), [Connecting])
    case Disconnect =>
      (s.(held := None, waiting := None, streak := 0, shut := s.shut + Holding(s)), [Disconnected])
    case Opened(x) =>
      if s.held == Some(x) then (s.(streak := 0), [Connected]) else (s, [])
    case Received(x, data) =>
      (s, if s.held == Some(x) && !data.Unsupported? then [Message(x, data)] else [])
    case Closed(x, draw) =>
      if x >= s.made then (s, [])
      else if s.held != Some(x) then (s.(gone := s.gone + {x}), [])
      else
        (s.(held := None, gone := s.gone + {x}, waiting := Some(s.announced), announced := s.announced + 1,
            streak := s.streak + 1),
         [Reconnecting(Backoff.TsDelay(cfg.initial, cfg.max, cfg.jitter, s.streak as real, draw), s.streak)])
    case Errored(x) =>
      (if s.held == Some(x) then s.(shut := s.shut + {x}) else s, [])
    case TimerFired(t) =>
      if s.waiting == Some(t) then (Reopened(s), [Connecting]) else (s, [])
    case VisibilityChanged(_, _) =>
      if ReturnsLate(cfg, before, e) then (Reopened(s.(shut := s.shut + Holding(s))).(streak := 0), [Connecting])
      else (s, [])
  }

  function Watch(cfg: Config, events: seq<Event>): (Seen, seq<Out>) {
    if events == [] then (Seen(None, None, 0, 0, 0, {}, {}), [])
    else
      var before := events[..|events| - 1];
      var (s, log) := Watch(cfg, before);
      var (s', outs) := Observe(cfg, before, s, events[|events| - 1]);
      (s', log + outs)
  }

  /** The client's variables say what an observer knows. */
  ghost predicate Matches(w: Ws, s: Seen, wanted: bool, since: Option<int>) {
    && w.active == wanted && w.lastHiddenAt == since
    && w.socket == s.held && w.timer == s.waiting
    && |w.sockets| == s.made && w.timersMade == s.announced && w.attempt == s.streak
    && (forall x :: 0 <= x < |w.sockets| ==> (w.sockets[x].closedByClient <==> x in s.shut))
    && (forall x :: 0 <= x < |w.sockets| ==> (w.sockets[x].reportedClosed <==> x in s.gone))
    && (forall x :: x in s.shut || x in s.gone ==> x < s.made)
  }

  lemma CallMatches(cfg: Config, before: seq<Event>, e: Event, w: Ws, s: Seen)
    requires e.Connect? || e.Disconnect?
    requires Inv(cfg, w) && Matches(w, s, Wanted(before), HiddenSince(cfg, before))
    ensures var (w', outs) := Step(cfg, w, e);
            var (s', outs') := Observe(cfg, before, s, e);
            outs == outs' && Matches(w', s', Wanted(before + [e]), HiddenSince(cfg, before + [e]))
  {
    assert (before + [e])[..|before|] == before;
  }

  lemma CloseMatches(cfg: Config, before: seq<Event>, e: Event, w: Ws, s: Seen)
    requires e.Closed?
    requires Inv(cfg, w) && Matches(w, s, Wanted(before), HiddenSince(cfg, before))
    ensures var (w', outs) := Step(cfg, w, e);
            var (s', outs') := Observe(cfg, before, s, e);
            outs == outs' && Matches(w', s', Wanted(before + [e]), HiddenSince(cfg, before + [e]))
  {
    assert (before + [e])[..|before|] == before;
  }

  lemma SocketMatches(cfg: Config, before: seq<Event>, e: Event, w: Ws, s: Seen)
    requires e.Opened? || e.Received? || e.Errored?
    requires Inv(cfg, w) && Matches(w, s, Wanted(before), HiddenSince(cfg, before))
    ensures var (w', outs) := Step(cfg, w, e);
            var (s', outs') := Observe(cfg, before, s, e);
            outs == outs' && Matches(w', s', Wanted(before + [e]), HiddenSince(cfg, before + [e]))
  {
    assert (before + [e])[..|before|] == before;
  }

  lemma TimerMatches(cfg: Config, before: seq<Event>, e: Event, w: Ws, s: Seen)
    requires e.TimerFired?
    requires Inv(cfg, w) && Matches(w, s, Wanted(before), HiddenSince(cfg, before))
    ensures var (w', outs) := Step(cfg, w, e);
            var (s', outs') := Observe(cfg, before, s, e);
            outs == outs' && Matches(w', s', Wanted(before + [e]), HiddenSince(cfg, before + [e]))
  {
    assert (before + [e])[..|before|] == before;
  }

  lemma VisibilityMatches(cfg: Config, before: seq<Event>, e: Event, w: Ws, s: Seen)
    requires e.VisibilityChanged?
    requires Inv(cfg, w) && Matches(w, s, Wanted(before), HiddenSince(cfg, before))
    ensures var (w', outs) := Step(cfg, w, e);
            var (s', outs') := Observe(cfg, before, s, e);
            outs == outs' && Matches(w', s', Wanted(before + [e]), HiddenSince(cfg, before + [e]))
  {
    assert (before + [e])[..|before|] == before;
  }

  lemma MatchesStep(cfg: Config, before: seq<Event>, e: Event, w: Ws, s: Seen)
    requires Inv(cfg, w) && Matches(w, s, Wanted(before), HiddenSince(cfg, before))
    ensures var (w', outs) := Step(cfg, w, e);
            var (s', outs') := Observe(cfg, before, s, e);
            outs == outs' && Matches(w', s', Wanted(before + [e]), HiddenSince(cfg, before + [e]))
  {
    hide *;
    match e
    case Connect => CallMatches(cfg, before, e, w, s);
    case Disconnect => CallMatches(cfg, before, e, w, s);
    case Closed(_, _) => CloseMatches(cfg, before, e, w, s);
    case TimerFired(_) => TimerMatches(cfg, before, e, w, s);
    case VisibilityChanged(_, _) => VisibilityMatches(cfg, before, e, w, s);
    case _ => SocketMatches(cfg, before, e, w, s);
  }

  /**
   * Generations, the manual flag and the subscription are bookkeeping: on every run the client holds,
   * waits, counts, closes and emits exactly what the simple one does.
   */
  lemma {:induction false} ClientIsSimple(cfg: Config, events: seq<Event>)
    ensures var (w, log) := Run(cfg, events);
            Matches(w, Watch(cfg, events).0, Wanted(events), HiddenSince(cfg, events)) && log == Watch(cfg, events).1
    decreases |events|
  {
    if events == [] {
    } else {
      var before, e := events[..|events| - 1], events[|events| - 1];
      ClientIsSimple(cfg, before);
      AlwaysInv(cfg, before);
      assert before + [e] == events;
      hide Step, Observe, Matches, Inv;
      MatchesStep(cfg, before, e, Run(cfg, before).0, Watch(cfg, before).0);
    }
  }

  /** A return to the foreground reconnects exactly when the page had been hidden for at least the threshold. */
  lemma ForcedIff(cfg: Config, events: seq<Event>, now: int)
    ensures var outs := Step(cfg, Run(cfg, events).0, VisibilityChanged(false, now)).1;
            && (outs == [] || outs == [Connecting])
            && (outs != [] <==> HiddenSince(cfg, events).Some? && now - HiddenSince(cfg, events).value >= cfg.threshold)
  {
    ClientIsSimple(cfg, events);
    AlwaysInv(cfg, events);
    hide Step, Inv, Matches, Run, HiddenSince, Wanted;
    MatchesStep(cfg, events, VisibilityChanged(false, now), Run(cfg, events).0, Watch(cfg, events).0);
  }

  // ---- The client ----

  class Client {
    const cfg: Config
    var socket: Option<SocketId>
    var reconnectTimer: Option<TimerId>
    var reconnectAttempt: nat
    var generation: nat
    var manualDisconnect: bool
    var active: bool
    var lastHiddenAt: Option<int>
    var subscribed: bool
    var sockets: seq<Socket>       // the sockets made so far, as the browser sees them
    var armed: set<TimerId>        // the timers the browser may fire
    var timersMade: nat

    function View(): Ws
      reads this
    {
      Ws(socket, reconnectTimer, reconnectAttempt, generation, manualDisconnect, active, lastHiddenAt, subscribed,
         sockets, armed, timersMade)
    }

    constructor (cfg: Config)
      ensures View() == START && this.cfg == cfg
    {
      this.cfg := cfg;
      socket, reconnectTimer, reconnectAttempt, generation := None, None, 0, 0;
      manualDisconnect, active, lastHiddenAt, subscribed := false, false, None, false;
      sockets, armed, timersMade := [], {}, 0;
    }

    method ClearReconnectTimer()
      modifies this`armed, this`reconnectTimer
      ensures View() == ClearTimer(old(View()))
    {
      if reconnectTimer.None? {
        return;
      }
      armed := armed - {reconnectTimer.value};
      reconnectTimer := None;
    }

    method CloseSocket(s: Option<SocketId>)
      modifies this`sockets
      ensures View() == CloseByClient(old(View()), s)
    {
      if s.Some? && s.value < |sockets| {
        sockets := sockets[s.value := sockets[s.value].(closedByClient := true)];
      }
    }

    method Open() returns (outs: seq<Out>)
      modifies this
      ensures (View(), outs) == OpenSocket(old(View()))
    {
      generation := generation + 1;
      outs := [Connecting];
      sockets := sockets + [Socket(generation, false, false)];
      socket := Some(|sockets| - 1);
    }

    method Schedule(draw: real) returns (outs: seq<Out>)
      modifies this
      ensures (View(), outs) == ScheduleReconnect(cfg, old(View()), draw)
    {
      var attempt := reconnectAttempt;
      var delay := Backoff.NextBackoffMs(attempt as real, cfg.initial, cfg.max, cfg.jitter, draw);
      reconnectAttempt := reconnectAttempt + 1;
      outs := [Reconnecting(delay, attempt)];
      armed := armed + {timersMade};
      reconnectTimer := Some(timersMade);
      timersMade := timersMade + 1;
    }

    method Force() returns (outs: seq<Out>)
      modifies this
      ensures (View(), outs) == ForceReconnect(old(View()))
    {
      var stale := socket;
      if stale.Some? {
        generation := generation + 1;
        socket := None;
        CloseSocket(stale);
      }
      ClearReconnectTimer();
      reconnectAttempt := 0;
      outs := Open();
    }

    method DoConnect() returns (outs: seq<Out>)
      modifies this
      ensures (View(), outs) == OnConnect(cfg, old(View()))
    {
      manualDisconnect := false;
      active := true;
      if cfg.hasVisibility && !subscribed {
        subscribed := true;
      }
      ClearReconnectTimer();
      if socket.Some? {
        return [];
      }
      reconnectAttempt := 0;
      outs := Open();
    }

    method DoDisconnect() returns (outs: seq<Out>)
      modifies this
      ensures (View(), outs) == OnDisconnect(old(View()))
    {
      manualDisconnect := true;
      active := false;
      subscribed := false;
      lastHiddenAt := None;
      ClearReconnectTimer();
      reconnectAttempt := 0;
      var closing := socket;
      socket := None;
      generation := generation + 1;
      CloseSocket(closing);
      outs := [Disconnected];
    }

    method HandleOpen(s: SocketId) returns (outs: seq<Out>)
      requires s < |sockets|
      modifies this
      ensures (View(), outs) == OnOpened(old(View()), s)
    {
      if sockets[s].generation != generation || socket != Some(s) {
        return [];
      }
      reconnectAttempt := 0;
      outs := [Connected];
    }

    method HandleMessage(s: SocketId, data: Data) returns (outs: seq<Out>)
      requires s < |sockets|
      ensures (View(), outs) == OnReceived(View(), s, data)
    {
      if sockets[s].generation != generation || socket != Some(s) {
        return [];
      }
      outs := if data.Text? || data.Binary? then [Message(s, data)] else [];
    }

    method HandleClose(s: SocketId, draw: real) returns (outs: seq<Out>)
      requires s < |sockets|
      modifies this
      ensures (View(), outs) == OnClosed(cfg, old(View()), s, draw)
    {
      var stale := sockets[s].generation != generation || socket != Some(s);
      sockets := sockets[s := sockets[s].(reportedClosed := true)];
      if stale {
        return [];
      }
      socket := None;
      if manualDisconnect {
        return [Disconnected];
      }
      outs := Schedule(draw);
    }

    method HandleError(s: SocketId)
      requires s < |sockets|
      modifies this
      ensures (View(), []) == OnErrored(old(View()), s)
    {
      if sockets[s].generation != generation || socket != Some(s) {
        return;
      }
      CloseSocket(Some(s));
    }

    method HandleTimer(t: TimerId) returns (outs: seq<Out>)
      requires t in armed
      modifies this
      ensures (View(), outs) == OnTimer(old(View()), t)
    {
      armed := armed - {t};
      reconnectTimer := None;
      if manualDisconnect {
        return [];
      }
      outs := Open();
    }

    method HandleVisibility(hidden: bool, now: int) returns (outs: seq<Out>)
      requires subscribed
      modifies this
      ensures (View(), outs) == OnVisibility(cfg, old(View()), hidden, now)
    {
      if !active {
        return [];
      }
      if hidden {
        if lastHiddenAt.None? {
          lastHiddenAt := Some(now);
        }
        return [];
      }
      var wasHidden := lastHiddenAt;
      lastHiddenAt := None;
      if wasHidden.None? {
        return [];
      }
      if now - wasHidden.value < cfg.threshold {
        return [];
      }
      outs := Force();
    }
  }
}

/**
 * The TCP source as an object, one call at a time (gateway/internal/source/real/real.go). RealSource
 * shows what remains true when the calls interleave.
 */
module TcpSource {
  import opened Bytes
  import Backoff

  type Addr = string

  /** What a blocked read of a connection is woken by: a chunk, or the end of the context. */
  datatype Arrival = Data(bytes: seq<Byte>) | ContextEnds

  class Connection {
    const addr: Addr
    var incoming: seq<Arrival>    // what it is going to deliver before it fails
    var closed: bool

    constructor (addr: Addr, incoming: seq<Arrival>)
      ensures this.addr == addr && this.incoming == incoming && !closed
    {
      this.addr, this.incoming, closed := addr, incoming, false;
    }

    method Read() returns (r: Option<Arrival>)
      requires !closed
      modifies this`incoming
      ensures r.None? <==> old(incoming) == []
      ensures r.Some? ==> [r.value] + incoming == old(incoming)
      ensures r.None? ==> incoming == []
    {
      if incoming == [] {
        return None;
      }
      r := Some(incoming[0]);
      incoming := incoming[1..];
    }

    method Close()
      modifies this`closed
      ensures closed
    {
      closed := true;
    }
  }

  /** How an attempt to dial ends; the context may end in the sleep before it, or while dialling. */
  datatype Dial = Refused | Accepted(incoming: seq<Arrival>) | SleepCut | DialCut

  /** What a reader of the upstream meets over the given dials. */
  function Offered(dials: seq<Dial>): seq<Arrival> {
    if dials == [] then []
    else
      (match dials[0]
       case Refused => []
       case Accepted(incoming) => incoming
       case _ => [ContextEnds]) + Offered(dials[1..])
  }

  lemma {:induction false} RefusalsOfferNothing(dials: seq<Dial>, n: nat)
    requires n <= |dials| && forall i :: 0 <= i < n ==> dials[i].Refused?
    ensures Offered(dials) == Offered(dials[n..])
    decreases n
  {
    if n == 0 {
      assert dials[0..] == dials;
    } else {
      RefusalsOfferNothing(dials[1..], n - 1);
      DropDrop(dials, 1, n - 1);
      assert [] + Offered(dials[1..]) == Offered(dials[1..]);
    }
  }

  lemma NothingOffered(dials: seq<Dial>)
    requires dials == []
    ensures Offered(dials) == []
  {}

  /** The dials up to the first that is not refused. */
  lemma OfferedByConnect(dials: seq<Dial>, used: nat)
    requires 0 < used <= |dials| && !dials[used - 1].Refused?
    requires forall i :: 0 <= i < used - 1 ==> dials[i].Refused?
    ensures Offered(dials)
            == (if dials[used - 1].Accepted? then dials[used - 1].incoming else [ContextEnds]) + Offered(dials[used..])
  {
    RefusalsOfferNothing(dials, used - 1);
    DropDrop(dials, used - 1, 1);
  }

  /** The delays slept by a number of dials: none before the first dial of all, then those of the strategy. */
  ghost predicate Slept(waits: seq<int>, b: Backoff.Backoff, attempt: nat, used: nat, draws: seq<real>)
    requires used <= |draws|
  {
    var first := if attempt > 0 then 0 else 1;
    && |waits| == (if used >= first then used - first else 0)
    && forall k :: 0 <= k < |waits| ==>
         waits[k] == Backoff.GoDelay(b.Initial, b.Cap, b.Jitter, attempt + first + k - 1, draws[first + k])
  }

  /** The attempts counted after some dials: the failures since the last success, but for a dial cut in its sleep. */
  function Streak(attempt: nat, dials: seq<Dial>): nat {
    if dials == [] then attempt
    else
      var before := Streak(attempt, dials[..|dials| - 1]);
      match dials[|dials| - 1]
      case Accepted(_) => 0
      case SleepCut => if before > 0 then before else 1
      case _ => before + 1
  }

  /** The delays of any run of dials, over however many connections: one for each dial that follows a failure. */
  function Sleeps(b: Backoff.Backoff, attempt: nat, dials: seq<Dial>, draws: seq<real>): seq<int>
    requires |draws| == |dials|
  {
    if dials == [] then []
    else
      var k := |dials| - 1;
      var before := Streak(attempt, dials[..k]);
      Sleeps(b, attempt, dials[..k], draws[..k])
      + if before > 0 then [Backoff.GoDelay(b.Initial, b.Cap, b.Jitter, before - 1, draws[k])] else []
  }

  lemma {:induction false} RefusalsCount(attempt: nat, dials: seq<Dial>)
    requires forall i :: 0 <= i < |dials| ==> dials[i].Refused?
    ensures Streak(attempt, dials) == attempt + |dials|
  {
    if dials != [] {
      RefusalsCount(attempt, dials[..|dials| - 1]);
    }
  }

  lemma {:induction false} StreakAppend(attempt: nat, ds: seq<Dial>, es: seq<Dial>)
    ensures Streak(attempt, ds + es) == Streak(Streak(attempt, ds), es)
  {
    if es == [] {
      assert ds + es == ds;
    } else {
      assert (ds + es)[..|ds + es| - 1] == ds + es[..|es| - 1];
      StreakAppend(attempt, ds, es[..|es| - 1]);
    }
  }

  lemma {:induction false} SleepsAppend(b: Backoff.Backoff, attempt: nat, ds: seq<Dial>, es: seq<Dial>,
                                        draws: seq<real>, more: seq<real>)
    requires |draws| == |ds| && |more| == |es|
    ensures Sleeps(b, attempt, ds + es, draws + more)
            == Sleeps(b, attempt, ds, draws) + Sleeps(b, Streak(attempt, ds), es, more)
  {
    if es == [] {
      assert ds + es == ds && draws + more == draws;
    } else {
      var k := |es| - 1;
      assert (ds + es)[..|ds + es| - 1] == ds + es[..k];
      assert (draws + more)[..|ds + es| - 1] == draws + more[..k];
      SleepsAppend(b, attempt, ds, es[..k], draws, more[..k]);
      StreakAppend(attempt, ds, es[..k]);
    }
  }

  /** The last dial of a call of Connect adds the delay of the attempts before it. */
  lemma LastSlept(b: Backoff.Backoff, attempt: nat, k: nat, draws: seq<real>, waits: seq<int>) returns (earlier: seq<int>)
    requires |draws| == k + 1 && Slept(waits, b, attempt, k + 1, draws)
    ensures Slept(earlier, b, attempt, k, draws[..k])
    ensures waits == earlier + if attempt + k > 0
                               then [Backoff.GoDelay(b.Initial, b.Cap, b.Jitter, attempt + k - 1, draws[k])] else []
  {
    hide Backoff.GoDelay;
    var first := if attempt > 0 then 0 else 1;
    if attempt + k > 0 {
      earlier := waits[..|waits| - 1];
      assert waits == earlier + [waits[k - first]];
      assert forall i :: 0 <= i < |earlier| ==> earlier[i] == waits[i] && draws[..k][first + i] == draws[first + i];
    } else {
      earlier := waits;
    }
  }

  lemma LastSleeps(b: Backoff.Backoff, attempt: nat, dials: seq<Dial>, draws: seq<real>)
    requires dials != [] && |draws| == |dials|
    ensures var k := |dials| - 1;
            var before := Streak(attempt, dials[..k]);
            Sleeps(b, attempt, dials, draws) == Sleeps(b, attempt, dials[..k], draws[..k])
            + if before > 0 then [Backoff.GoDelay(b.Initial, b.Cap, b.Jitter, before - 1, draws[k])] else []
  {}

  /** One call of Connect: its delays are those of the strategy in turn, its attempts go up by one a dial. */
  lemma {:induction false} SleptIsSleeps(b: Backoff.Backoff, attempt: nat, dials: seq<Dial>, draws: seq<real>,
                                         waits: seq<int>)
    requires |draws| == |dials| && forall i :: 0 <= i < |dials| - 1 ==> dials[i].Refused?
    requires Slept(waits, b, attempt, |dials|, draws)
    ensures waits == Sleeps(b, attempt, dials, draws)
  {
    if dials == [] {
      assert waits == [];
    } else {
      hide *;
      var k := |dials| - 1;
      RefusalsCount(attempt, dials[..k]);
      var earlier := LastSlept(b, attempt, k, draws, waits);
      SleptIsSleeps(b, attempt, dials[..k], draws[..k], earlier);
      LastSleeps(b, attempt, dials, draws);
    }
  }

  lemma NothingSlept(b: Backoff.Backoff, attempt: nat)
    ensures Streak(attempt, []) == attempt && Sleeps(b, attempt, [], []) == []
  {}

  /** Attempts and delays of a call of Connect add up with those before it. */
  lemma ConnectCounts(b: Backoff.Backoff, attempt: nat, dials: seq<Dial>, draws: seq<real>, used: nat, n: nat,
                      slept: seq<int>)
    requires used + n <= |dials| == |draws|
    requires forall i :: 0 <= i < n - 1 ==> dials[used..][i].Refused?
    requires Slept(slept, b, Streak(attempt, dials[..used]), n, draws[used..])
    ensures Sleeps(b, attempt, dials[..used + n], draws[..used + n])
            == Sleeps(b, attempt, dials[..used], draws[..used]) + slept
    ensures var counted := Streak(attempt, dials[..used]);
            Streak(attempt, dials[..used + n])
            == if n == 0 then counted
               else if dials[used + n - 1].Accepted? then 0
               else counted + n - if dials[used + n - 1].SleepCut? && counted + n > 1 then 1 else 0
  {
    hide Offered, Backoff.GoDelay, Sleeps;
    var ds, rs := dials[used..used + n], draws[used..used + n];
    var counted := Streak(attempt, dials[..used]);
    assert dials[..used + n] == dials[..used] + ds && draws[..used + n] == draws[..used] + rs;
    StreakAppend(attempt, dials[..used], ds);
    SleepsAppend(b, attempt, dials[..used], ds, draws[..used], rs);
    assert forall i :: 0 <= i < n - 1 ==> ds[i] == dials[used..][i];
    assert forall k :: 0 <= k < n ==> rs[k] == draws[used..][k];
    assert Slept(slept, b, counted, n, rs);
    SleptIsSleeps(b, counted, ds, rs, slept);
    if n > 0 {
      RefusalsCount(counted, ds[..n - 1]);
    }
  }

  /** The context ends first; what follows is rest, behind what a closed connection may have kept to itself. */
  ghost predicate EndsAt(stream: seq<Arrival>, rest: seq<Arrival>) {
    exists lost :: stream == [ContextEnds] + lost + rest
  }

  lemma CutOff(stream: seq<Arrival>, lost: seq<Arrival>, rest: seq<Arrival>)
    requires stream == [ContextEnds] + lost + rest
    ensures stream != [] && EndsAt(stream, rest)
  {}

  lemma Ends(stream: seq<Arrival>, offered: seq<Arrival>, rest: seq<Arrival>)
    requires stream == [] + offered
    requires offered == [] || offered == [ContextEnds] + rest
    ensures stream != [] ==> EndsAt(stream, rest)
  {
    if offered != [] {
      assert stream == [ContextEnds] + [] + rest;
    }
  }

  class Source {
    var addr: Addr
    var backoff: Backoff.Backoff
    var conn: Connection?
    var attempt: nat
    ghost var dialled: set<Connection>

    /** At most one connection is open, and it leads to the current address; no failure was counted since. */
    ghost predicate Valid()
      reads this, dialled
    {
      && (conn != null ==> conn in dialled && !conn.closed && conn.addr == addr && attempt == 0)
      && forall c :: c in dialled ==> c == conn || c.closed
    }

    /** What the installed connection is still going to deliver. */
    function Pending(): seq<Arrival>
      reads this, conn
    {
      if conn == null then [] else conn.incoming
    }

    constructor (addr: Addr, backoff: Backoff.Backoff)
      ensures Valid() && this.addr == addr && this.backoff == backoff && conn == null && attempt == 0 && dialled == {}
    {
      this.addr, this.backoff, conn, attempt, dialled := addr, backoff, null, 0, {};
    }

    method ApplyUpstream(newAddr: Addr)
      requires Valid()
      modifies this`addr, this`conn, conn
      ensures Valid() && addr == newAddr && conn == null
    {
      addr := newAddr;
      var c := conn;
      conn := null;
      if c != null {
        c.Close();
      }
    }

    /** The new strategy counts from the attempt reached so far. */
    method ApplyBackoff(newBackoff: Backoff.Backoff)
      requires Valid()
      modifies this`backoff
      ensures Valid() && backoff == newBackoff
    {
      backoff := newBackoff;
    }

    method Close()
      requires Valid()
      modifies this`conn, conn
      ensures Valid() && conn == null
    {
      var c := conn;
      conn := null;
      if c != null {
        c.Close();
      }
    }

    /**
     * Dials until one dial succeeds or the context ends; it ends at the latest when the dials run out.
     * waits lists the delays slept, draws what the random source would give.
     */
    method Connect(dials: seq<Dial>, draws: seq<real>) returns (ok: bool, waits: seq<int>, used: nat)
      requires Valid() && conn == null && |draws| == |dials|
      modifies this`conn, this`attempt, this`dialled
      ensures Valid() && old(dialled) <= dialled
      ensures used <= |dials| && forall i :: 0 <= i < used - 1 ==> dials[i].Refused?
      ensures ok ==> used > 0 && dials[used - 1].Accepted? && attempt == 0
                     && conn != null && fresh(conn) && Pending() + Offered(dials[used..]) == Offered(dials)
      ensures !ok ==> conn == null
                      && if used > 0 && !dials[used - 1].Refused? then
                           && !dials[used - 1].Accepted?
                           && Offered(dials) == [ContextEnds] + Offered(dials[used..])
                           && attempt == old(attempt) + used
                                - (if dials[used - 1].SleepCut? && old(attempt) + used > 1 then 1 else 0)
                         else used == |dials| && Offered(dials) == [] && attempt == old(attempt) + used
      ensures Slept(waits, backoff, old(attempt), used, draws)
    {
      hide Offered;
      ok, waits, used := false, [], 0;
      while used < |dials|
        invariant used <= |dials| && !ok && Valid() && conn == null && dialled == old(dialled)
        invariant forall i :: 0 <= i < used ==> dials[i].Refused?
        invariant attempt == old(attempt) + used
        invariant Slept(waits, backoff, old(attempt), used, draws)
      {
        used := used + 1;
        if attempt > 0 {
          var d := backoff.Next(attempt - 1, draws[used - 1]);
          waits := waits + [d];
          if dials[used - 1].SleepCut? {
            OfferedByConnect(dials, used);
            return;
          }
        }
        attempt := attempt + 1;
        match dials[used - 1]
        case Refused =>
        case Accepted(incoming) =>
          var c := new Connection(addr, incoming);
          conn := c;
          dialled := dialled + {c};
          attempt := 0;
          ok := true;
          OfferedByConnect(dials, used);
          return;
        case _ =>
          OfferedByConnect(dials, used);
          return;
      }
      RefusalsOfferNothing(dials, used);
      NothingOffered(dials[used..]);
    }

    /** Forgets and closes the connection. */
    method Drop()
      requires Valid() && conn != null
      modifies this`conn, conn`closed
      ensures Valid() && conn == null
    {
      conn.Close();
      conn := null;
    }

    /**
     * A stable stream that hides reconnects: each Read returns the next chunk the upstream sends, over
     * whichever connection. It fails only when the context ends before the next chunk, or nothing is
     * left; then the connection is closed, and what it still had to deliver is lost. waits lists all
     * delays slept, whichever connection they led to.
     */
    method Read(dials: seq<Dial>, draws: seq<real>)
      returns (chunk: Option<seq<Byte>>, waits: seq<int>, used: nat)
      requires Valid() && |draws| == |dials|
      modifies this`conn, this`attempt, this`dialled, conn
      ensures Valid() && old(dialled) <= dialled && used <= |dials|
      ensures var stream, rest := old(Pending()) + Offered(dials), Offered(dials[used..]);
              if chunk.Some? then [Data(chunk.value)] + (Pending() + rest) == stream
              else conn == null && if stream == [] then used == |dials| else EndsAt(stream, rest)
      ensures attempt == Streak(old(attempt), dials[..used])
      ensures waits == Sleeps(backoff, old(attempt), dials[..used], draws[..used])
    {
      hide Offered, Slept, EndsAt, Streak, Sleeps;
      chunk, waits, used := None, [], 0;
      NothingSlept(backoff, attempt);
      ghost var stream := Pending() + Offered(dials);
      assert dials[0..] == dials;
      while true
        invariant Valid() && old(dialled) <= dialled && used <= |dials|
        invariant conn == old(conn) || conn == null || fresh(conn)
        invariant stream == Pending() + Offered(dials[used..])
        invariant attempt == Streak(old(attempt), dials[..used])
        invariant waits == Sleeps(backoff, old(attempt), dials[..used], draws[..used])
        decreases |dials| - used, if conn == null then 0 else 1
      {
        if conn == null {
          ghost var before := used;
          var ok, slept, n := Connect(dials[used..], draws[used..]);
          ConnectCounts(backoff, old(attempt), dials, draws, used, n, slept);
          DropDrop(dials, used, n);
          waits, used := waits + slept, used + n;
          if !ok {
            Ends(stream, Offered(dials[before..]), Offered(dials[used..]));
            return;
          }
        }
        var r := conn.Read();
        match r
        case Some(Data(bytes)) =>
          chunk := Some(bytes);
          Assoc([Data(bytes)], Pending(), Offered(dials[used..]));
          return;
        case Some(ContextEnds) =>
          CutOff(stream, Pending(), Offered(dials[used..]));
          Drop();
          return;
        case None =>
          Drop();
      }
    }
  }
}

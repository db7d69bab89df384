/**
 * The synthetic source (gateway/internal/source/mock/mock.go): a roster of transponders, staggered
 * over one lap, of which the earliest due one emits next. Times are nanoseconds. The clock, the
 * sleep and the random draws of a call are its parameters.
 */
module Mock {
  import opened Bytes
  import opened Wire
  import opened Tlv
  import opened Framing
  import opened Records
  import opened Encoder
  import opened Durations

  const LEGACY_TRANSPONDER: U32 := 0x12345678
  const DEFAULT_LAP_MS := 18_000

  datatype Slot = Slot(transponder: U32, due: int, number: U32)

  // ---- The timetable ----

  /** The scan for the next emission: the first of the earliest due slots. */
  function Pick(slots: seq<Slot>): (next: nat)
    requires slots != []
    ensures next < |slots|
    ensures forall i :: 0 <= i < |slots| ==> slots[next].due <= slots[i].due
    ensures forall i :: 0 <= i < next ==> slots[next].due < slots[i].due
    decreases |slots|
  {
    var last := |slots| - 1;
    if last == 0 then 0
    else
      var best := Pick(slots[..last]);
      if slots[last].due < slots[best].due then last else best
  }

  lemma PickIs(slots: seq<Slot>, next: nat)
    requires next < |slots|
    requires forall i :: 0 <= i < |slots| ==> slots[next].due <= slots[i].due
    requires forall i :: 0 <= i < next ==> slots[next].due < slots[i].due
    ensures Pick(slots) == next
  {}

  /** One emission: the earliest slot takes its next passing number and is due again after the step. */
  function Emit(slots: seq<Slot>, step: int): (after: seq<Slot>)
    requires slots != []
    ensures |after| == |slots|
  {
    var next := Pick(slots);
    var p := slots[next];
    slots[next := Slot(p.transponder, p.due + step, (p.number + 1) % WORD32)]
  }

  /** The timetable after one emission for each of the steps. */
  function Exec(slots: seq<Slot>, steps: seq<int>): (after: seq<Slot>)
    requires slots != []
    ensures |after| == |slots|
    decreases |steps|
  {
    if steps == [] then slots else Emit(Exec(slots, steps[..|steps| - 1]), steps[|steps| - 1])
  }

  /** The slot that makes emission m. */
  function Emitter(slots: seq<Slot>, steps: seq<int>, m: nat): nat
    requires slots != [] && m <= |steps|
  {
    Pick(Exec(slots, steps[..m]))
  }

  /** The time from one emission of a transponder to its next. */
  function Step(lapMs: Int64, jitter: int): Int64 {
    Millis(Wrap64(lapMs + jitter))
  }

  /** The timetable at boot. */
  function Start(roster: seq<U32>, lapMs: Int64, boot: int): (slots: seq<Slot>)
    requires roster != []
    ensures |slots| == |roster|
  {
    seq(|roster|, i requires 0 <= i < |roster| => Slot(roster[i], boot + i * Quot(Millis(lapMs), |roster|), 0))
  }

  /** At boot the transponders are spread over one lap, evenly up to the truncation of the stride. */
  lemma Staggered(roster: seq<U32>, lapMs: Int64, boot: int, i: nat)
    requires i < |roster| && Millis(lapMs) >= 0
    ensures var slots, n, lap := Start(roster, lapMs, boot), |roster|, Millis(lapMs);
            && slots[0].due == boot && slots[i].transponder == roster[i] && slots[i].number == 0
            && (i > 0 ==> var stride := slots[i].due - slots[i - 1].due; n * stride <= lap < n * (stride + 1))
  {
    var stride := Quot(Millis(lapMs), |roster|);
    hide Millis;
    DivideBounds(Millis(lapMs), |roster|);
    assert i * stride == (i - 1) * stride + stride;
  }

  lemma ExecNext(slots: seq<Slot>, steps: seq<int>, m: nat)
    requires slots != [] && m < |steps|
    ensures Exec(slots, steps[..m + 1]) == Emit(Exec(slots, steps[..m]), steps[m])
  {
    assert steps[..m + 1][..m] == steps[..m];
  }

  // ---- Without jitter: round robin ----

  predicate FitsLap(lap: int, n: nat, stride: nat) {
    lap > 0 && n >= 1 && n * stride <= lap
  }

  /** The slots before r are q + 1 laps ahead of the start, the others q. */
  ghost predicate RoundRobinState(slots: seq<Slot>, boot: int, lap: int, stride: nat, q: nat, r: nat) {
    forall i :: 0 <= i < |slots| ==> slots[i].due == boot + i * stride + q * lap + (if i < r then lap else 0)
  }

  lemma Times(a: int, b: int, x: nat)
    ensures a <= b ==> a * x <= b * x
  {}

  lemma StrideFits(lap: int, n: nat, stride: nat, i: nat, j: nat)
    requires FitsLap(lap, n, stride) && i <= j < n
    ensures i * stride <= j * stride < i * stride + lap
  {
    Times(i, j, stride);
    assert j * stride == i * stride + (j - i) * stride;
    Times(j - i, n - 1, stride);
    assert n * stride == (n - 1) * stride + stride;
  }

  lemma RoundRobinPick(slots: seq<Slot>, boot: int, lap: int, stride: nat, q: nat, r: nat)
    requires FitsLap(lap, |slots|, stride) && r < |slots| && RoundRobinState(slots, boot, lap, stride, q, r)
    ensures Pick(slots) == r
  {
    forall i | 0 <= i < |slots| ensures slots[r].due <= slots[i].due && (i < r ==> slots[r].due < slots[i].due) {
      hide FitsLap;
      if i < r {
        StrideFits(lap, |slots|, stride, i, r);
      } else {
        StrideFits(lap, |slots|, stride, r, i);
      }
    }
    hide *;
    PickIs(slots, r);
  }

  lemma RoundRobinStep(slots: seq<Slot>, boot: int, lap: int, stride: nat, q: nat, r: nat)
    requires FitsLap(lap, |slots|, stride) && r < |slots| && RoundRobinState(slots, boot, lap, stride, q, r)
    ensures var wraps := r + 1 == |slots|;
            RoundRobinState(Emit(slots, lap), boot, lap, stride, if wraps then q + 1 else q, if wraps then 0 else r + 1)
  {
    RoundRobinPick(slots, boot, lap, stride, q, r);
    hide Pick, FitsLap;
    assert (q + 1) * lap == q * lap + lap;
  }

  lemma {:induction false} RoundRobinHolds(slots: seq<Slot>, boot: int, lap: int, stride: nat, steps: seq<int>)
    requires slots != [] && FitsLap(lap, |slots|, stride)
    requires RoundRobinState(slots, boot, lap, stride, 0, 0)
    requires forall s :: s in steps ==> s == lap
    ensures RoundRobinState(Exec(slots, steps), boot, lap, stride, |steps| / |slots|, |steps| % |slots|)
    decreases |steps|
  {
    hide RoundRobinState, FitsLap, Emit;
    var n := |slots|;
    if steps == [] {
      Divides(0, n, 0, 0);
    } else {
      var m := |steps| - 1;
      assert steps[m] in steps;
      forall s | s in steps[..m] ensures s == lap {
        assert s in steps;
      }
      RoundRobinHolds(slots, boot, lap, stride, steps[..m]);
      Increment(m, n);
      RoundRobinStep(Exec(slots, steps[..m]), boot, lap, stride, m / n, m % n);
    }
  }

  lemma MulBound(n: int, d: int)
    requires n >= 1
    ensures d >= 1 ==> n * d >= n
    ensures d <= -1 ==> n * d <= -n
  {}

  lemma Divides(m: nat, n: nat, q: nat, r: nat)
    requires r < n && m == n * q + r
    ensures m / n == q && m % n == r
  {
    assert n * (m / n - q) == n * (m / n) - n * q;
    MulBound(n, m / n - q);
  }

  lemma Increment(m: nat, n: nat)
    requires n > 0
    ensures (m + 1) / n == (if m % n + 1 == n then m / n + 1 else m / n)
    ensures (m + 1) % n == (if m % n + 1 == n then 0 else m % n + 1)
  {
    var q, r := m / n, m % n;
    if r + 1 < n {
      Divides(m + 1, n, q, r + 1);
    } else {
      assert n * (q + 1) == n * q + n;
      Divides(m + 1, n, q + 1, 0);
    }
  }

  function Repeat(step: int, m: nat): seq<int> {
    seq(m, _ => step)
  }

  lemma SameLap(lapMs: Int64)
    requires lapMs > 0
    ensures Step(lapMs, 0) == Millis(lapMs)
  {
    assert Wrap64(lapMs + 0) == lapMs;
  }

  /** The slot that makes emission m when nothing is random. */
  function Steady(roster: seq<U32>, lapMs: Int64, boot: int, m: nat): nat
    requires roster != []
  {
    Pick(Exec(Start(roster, lapMs, boot), Repeat(Step(lapMs, 0), m)))
  }

  lemma TruncatedStride(lap: int, n: nat)
    requires lap > 0 && n >= 1
    ensures Quot(lap, n) >= 0 && FitsLap(lap, n, Quot(lap, n))
  {
    DivideBounds(lap, n);
  }

  lemma DivideBounds(a: nat, n: nat)
    requires n >= 1
    ensures a / n >= 0 && n * (a / n) <= a < n * (a / n + 1)
  {
    assert n * (a / n + 1) == n * (a / n) + n;
  }

  lemma StartsInTurn(roster: seq<U32>, lapMs: Int64, boot: int)
    requires roster != [] && Millis(lapMs) > 0
    ensures Quot(Millis(lapMs), |roster|) >= 0
    ensures RoundRobinState(Start(roster, lapMs, boot), boot, Millis(lapMs), Quot(Millis(lapMs), |roster|), 0, 0)
  {
    hide Millis, Quot;
    TruncatedStride(Millis(lapMs), |roster|);
  }

  /** A positive lap: emission m is made by transponder m mod N, through ties and a truncated stride. */
  lemma RoundRobin(roster: seq<U32>, lapMs: Int64, boot: int, m: nat)
    requires roster != [] && lapMs > 0 && Millis(lapMs) > 0
    ensures Steady(roster, lapMs, boot, m) == m % |roster|
  {
    SameLap(lapMs);
    var lap, n := Millis(lapMs), |roster|;
    var slots := Start(roster, lapMs, boot);
    StartsInTurn(roster, lapMs, boot);
    TruncatedStride(lap, n);
    hide Millis, Exec, Pick, Quot, FitsLap, RoundRobinState, Start, Step;
    EqualSteps(slots, boot, lap, Quot(lap, n), m);
  }

  lemma EqualSteps(slots: seq<Slot>, boot: int, lap: int, stride: nat, m: nat)
    requires slots != [] && FitsLap(lap, |slots|, stride) && RoundRobinState(slots, boot, lap, stride, 0, 0)
    ensures Pick(Exec(slots, Repeat(lap, m))) == m % |slots|
  {
    hide Exec, Pick, FitsLap, RoundRobinState;
    RoundRobinHolds(slots, boot, lap, stride, Repeat(lap, m));
    RoundRobinPick(Exec(slots, Repeat(lap, m)), boot, lap, stride, m / |slots|, m % |slots|);
  }

  /** The lap in nanoseconds may overflow; round robin holds exactly as long as it stays positive. */
  lemma RoundRobinIff(roster: seq<U32>, lapMs: Int64, boot: int)
    requires |roster| >= 2 && lapMs > 0
    ensures (forall m: nat :: Steady(roster, lapMs, boot, m) == m % |roster|) <==> Millis(lapMs) > 0
  {
    hide Steady, Millis;
    if Millis(lapMs) > 0 {
      forall m: nat ensures Steady(roster, lapMs, boot, m) == m % |roster| {
        RoundRobin(roster, lapMs, boot, m);
      }
    } else {
      var m := NotRoundRobin(roster, lapMs, boot);
      Divides(m, |roster|, 0, m);
      assert Steady(roster, lapMs, boot, m) != m % |roster|;
    }
  }

  lemma NotRoundRobin(roster: seq<U32>, lapMs: Int64, boot: int) returns (m: nat)
    requires |roster| >= 2 && lapMs > 0 && Millis(lapMs) <= 0
    ensures m <= 1 && Steady(roster, lapMs, boot, m) != m
  {
    SameLap(lapMs);
    var lap := Millis(lapMs);
    var slots := Start(roster, lapMs, boot);
    FirstTwo(roster, lapMs, boot);
    hide Millis, Start, Step, Quot;
    assert Repeat(lap, 0) == [] && Repeat(lap, 1) == [lap];
    assert [lap][..0] == [];
    m := if Pick(slots) == 0 then 1 else 0;
    if m == 1 {
      AgainFirst(slots, lap);
    }
  }

  lemma FirstTwo(roster: seq<U32>, lapMs: Int64, boot: int)
    requires |roster| >= 2 && Millis(lapMs) <= 0
    ensures var slots := Start(roster, lapMs, boot); slots[0].due == boot && slots[1].due <= boot
  {
    hide Millis;
    var lap := Millis(lapMs);
    assert Quot(lap, |roster|) <= 0;
  }

  lemma AgainFirst(slots: seq<Slot>, lap: int)
    requires |slots| >= 2 && Pick(slots) == 0 && lap <= 0
    ensures Pick(Exec(slots, [lap])) == 0
  {
    assert [lap][..0] == [];
    assert Exec(slots, [lap]) == Emit(slots, lap);
    hide Exec;
    var after := Emit(slots, lap);
    forall i | 0 <= i < |after| ensures after[0].due <= after[i].due {
      EmitOne(slots, lap, i);
      EmitOne(slots, lap, 0);
    }
    hide *;
    PickIs(after, 0);
  }

  // ---- With jitter ----

  /** The longest and the shortest step fit 64 bits. */
  predicate StepsFit(lapMs: int, jitterMs: int) {
    -LIMIT63 <= (lapMs - jitterMs) * NANOS_PER_MILLI && (lapMs + jitterMs) * NANOS_PER_MILLI < LIMIT63
  }

  lemma StepBounds(lapMs: Int64, jitterMs: int, jitter: int)
    requires 0 <= jitterMs && StepsFit(lapMs, jitterMs) && -jitterMs <= jitter <= jitterMs
    ensures (lapMs - jitterMs) * NANOS_PER_MILLI <= Step(lapMs, jitter) <= (lapMs + jitterMs) * NANOS_PER_MILLI
    ensures Step(lapMs, jitter) == (lapMs + jitter) * NANOS_PER_MILLI
  {
    assert Wrap64(lapMs + jitter) == lapMs + jitter;
  }

  /** Every draw gives the lap plus the drawn jitter exactly when both extremes fit 64 bits. */
  lemma StepsExactIff(lapMs: Int64, jitterMs: int)
    requires 0 <= jitterMs
    ensures (forall jitter :: -jitterMs <= jitter <= jitterMs ==>
               Step(lapMs, jitter) == (lapMs + jitter) * NANOS_PER_MILLI)
            <==> StepsFit(lapMs, jitterMs)
  {
    if StepsFit(lapMs, jitterMs) {
      forall jitter | -jitterMs <= jitter <= jitterMs ensures Step(lapMs, jitter) == (lapMs + jitter) * NANOS_PER_MILLI {
        StepBounds(lapMs, jitterMs, jitter);
      }
    } else {
      hide Step;
      var least: int, most: int := Step(lapMs, -jitterMs), Step(lapMs, jitterMs);
      assert -LIMIT63 <= least && most < LIMIT63;
    }
  }

  /** The due time of the emission that comes next never goes back. */
  lemma DuesNeverDecrease(slots: seq<Slot>, steps: seq<int>, i: nat, j: nat)
    requires slots != [] && i <= j <= |steps|
    requires forall s :: s in steps ==> s >= 0
    ensures Exec(slots, steps[..i])[Emitter(slots, steps, i)].due <= Exec(slots, steps[..j])[Emitter(slots, steps, j)].due
    decreases j - i
  {
    hide Exec, Emit, Pick;
    if i < j {
      DuesNeverDecrease(slots, steps, i, j - 1);
      ExecNext(slots, steps, j - 1);
      assert steps[j - 1] in steps;
      EmitOne(Exec(slots, steps[..j - 1]), steps[j - 1], Emitter(slots, steps, j));
    }
  }

  /** The steps that the emissions of slot x have added up to. */
  function OwnSteps(slots: seq<Slot>, steps: seq<int>, x: nat): int
    requires slots != []
    decreases |steps|
  {
    if steps == [] then 0
    else
      var before := steps[..|steps| - 1];
      OwnSteps(slots, before, x) + if Pick(Exec(slots, before)) == x then steps[|steps| - 1] else 0
  }

  function OwnCount(slots: seq<Slot>, steps: seq<int>, x: nat): nat
    requires slots != []
    decreases |steps|
  {
    if steps == [] then 0
    else
      var before := steps[..|steps| - 1];
      OwnCount(slots, before, x) + if Pick(Exec(slots, before)) == x then 1 else 0
  }

  lemma EmitSlot(slots: seq<Slot>, step: int, x: nat)
    requires x < |slots|
    ensures var s := slots[x];
            Emit(slots, step)[x]
            == if Pick(slots) == x then Slot(s.transponder, s.due + step, (s.number + 1) % WORD32) else s
  {}

  /** Each slot is anchored on its own history: its start, its steps and its emissions, not the clock. */
  lemma {:induction false} SlotHistory(slots: seq<Slot>, steps: seq<int>, x: nat)
    requires x < |slots|
    ensures var s := Exec(slots, steps)[x];
            && s.transponder == slots[x].transponder
            && s.due == slots[x].due + OwnSteps(slots, steps, x)
            && s.number == (slots[x].number + OwnCount(slots, steps, x)) % WORD32
    decreases |steps|
  {
    hide Emit, Pick;
    if steps == [] {
    } else {
      var before := steps[..|steps| - 1];
      SlotHistory(slots, before, x);
      EmitSlot(Exec(slots, before), steps[|steps| - 1], x);
      NextNumber(slots[x].number + OwnCount(slots, before, x));
    }
  }

  lemma NextNumber(k: nat)
    ensures (k % WORD32 + 1) % WORD32 == (k + 1) % WORD32
  {}

  /** Emissions of slot y after number p and before number q. */
  function CountBetween(slots: seq<Slot>, steps: seq<int>, y: nat, p: nat, q: nat): nat
    requires slots != [] && p < q <= |steps|
    decreases q
  {
    if q == p + 1 then 0
    else CountBetween(slots, steps, y, p, q - 1) + if Emitter(slots, steps, q - 1) == y then 1 else 0
  }

  lemma {:induction false} FairnessFrom(slots: seq<Slot>, steps: seq<int>, x: nat, y: nat, p: nat, q: nat, a: nat)
    requires x < |slots| && y < |slots| && x != y && p < q <= |steps|
    requires forall s :: s in steps ==> s >= a
    requires Emitter(slots, steps, p) == x
    requires forall i :: p < i < q ==> Emitter(slots, steps, i) != x
    ensures var e, now, c := Exec(slots, steps[..p])[x].due, Exec(slots, steps[..q]), CountBetween(slots, steps, y, p, q);
            && now[x].due == e + steps[p]
            && now[y].due >= e + c * a
            && (c > 0 ==> (c - 1) * a <= steps[p])
    decreases q
  {
    hide Exec, Emit, Pick;
    ExecNext(slots, steps, q - 1);
    assert steps[q - 1] in steps;
    var before := Exec(slots, steps[..q - 1]);
    EmitOne(before, steps[q - 1], x);
    EmitOne(before, steps[q - 1], y);
    if q > p + 1 {
      FairnessFrom(slots, steps, x, y, p, q - 1, a);
      assert Emitter(slots, steps, q - 1) != x;
      var c := CountBetween(slots, steps, y, p, q - 1);
      assert (c + 1) * a == c * a + a;
    }
  }

  lemma EmitOne(slots: seq<Slot>, step: int, x: nat)
    requires x < |slots|
    ensures Emit(slots, step)[x].due == slots[x].due + (if Pick(slots) == x then step else 0)
    ensures slots[Pick(slots)].due <= slots[x].due
  {}

  /** A step that stays within the jitter around the lap. */
  predicate InJitter(step: int, lapMs: int, jitterMs: int) {
    (lapMs - jitterMs) * NANOS_PER_MILLI <= step <= (lapMs + jitterMs) * NANOS_PER_MILLI
  }

  /** Slot x makes emission p, and no emission between p and q. */
  ghost predicate Waits(slots: seq<Slot>, steps: seq<int>, x: nat, p: nat, q: nat)
    requires slots != [] && p < q <= |steps|
  {
    Emitter(slots, steps, p) == x && forall i :: p < i < q ==> Emitter(slots, steps, i) != x
  }

  /**
   * While a transponder waits for its next emission, any other emits at most
   * floor((lap + J) / (lap - J)) + 1 times.
   */
  lemma Fairness(slots: seq<Slot>, steps: seq<int>, x: nat, y: nat, p: nat, q: nat, lapMs: int, jitterMs: int)
    requires x < |slots| && y < |slots| && x != y && p < q <= |steps|
    requires 0 <= jitterMs < lapMs
    requires forall s :: s in steps ==> InJitter(s, lapMs, jitterMs)
    requires Waits(slots, steps, x, p, q)
    ensures CountBetween(slots, steps, y, p, q) <= (lapMs + jitterMs) / (lapMs - jitterMs) + 1
  {
    var shortest, longest := lapMs - jitterMs, lapMs + jitterMs;
    hide Emitter;
    FairnessFrom(slots, steps, x, y, p, q, shortest * NANOS_PER_MILLI);
    assert steps[p] in steps;
    var c := CountBetween(slots, steps, y, p, q);
    hide CountBetween;
    if c > 0 {
      InMillis(c - 1, shortest, longest);
    }
  }

  lemma InMillis(k: nat, shortest: int, longest: int)
    requires shortest > 0 && k * (shortest * NANOS_PER_MILLI) <= longest * NANOS_PER_MILLI
    ensures k <= longest / shortest
  {
    assert k * (shortest * NANOS_PER_MILLI) == (k * shortest) * NANOS_PER_MILLI;
    var q := longest / shortest;
    assert (q + 1) * shortest == q * shortest + shortest;
    Times(q + 1, k, shortest);
  }

  // ---- Frames ----

  /** The fields of a synthetic PASSING frame; it carries no decoder id. */
  datatype Synthesized = Synthesized(transponder: U32, number: U32, rtcTimeUs: U64, strength: U16, hits: U16)

  function MockFields(a: Synthesized): seq<Field> {
    [IntField(PASSING_NUMBER, a.number, 4), IntField(TRANSPONDER, a.transponder, 4), IntField(RTC_TIME, a.rtcTimeUs, 8),
     IntField(STRENGTH, a.strength, 2), IntField(HITS, a.hits, 2), IntField(FLAGS, 0, 2)]
  }

  function MockUnescaped(a: Synthesized): seq<Byte> {
    Assembled(TOR_PASSING, EncodeFields(MockFields(a)))
  }

  function MockWire(a: Synthesized): seq<Byte> {
    Escaped(MockUnescaped(a))
  }

  function MockRecord(a: Synthesized): PassingRecord {
    PassingRecord(a.number, a.transponder, a.rtcTimeUs, a.strength, a.hits, 0, None)
  }

  lemma MockFieldsMean(a: Synthesized, raw: seq<Byte>)
    ensures PassingOf(MockFields(a), raw) == Passing(MockRecord(a))
  {
    var fs := MockFields(a);
    RangeValues();
    OnlyField(fs, 0, PASSING_NUMBER, a.number, 4);
    OnlyField(fs, 1, TRANSPONDER, a.transponder, 4);
    OnlyField(fs, 2, RTC_TIME, a.rtcTimeUs, 8);
    OnlyField(fs, 3, STRENGTH, a.strength, 2);
    OnlyField(fs, 4, HITS, a.hits, 2);
    OnlyField(fs, 5, FLAGS, 0, 2);
    LastOfWidthMeaning(fs, DECODER_ID, 4);
    assert forall f :: f in fs ==> !WrongLength(f);
  }

  /** Every frame the mock source builds is one whole frame and decodes to what it was built from. */
  lemma MockRoundTrip(a: Synthesized)
    ensures IsFrame(true, MockWire(a)) && Parse(MockWire(a)) == Passing(MockRecord(a))
  {
    EncodedLength(MockFields(a));
    AssembledCarries(TOR_PASSING, MockFields(a));
    ParseEncoded(MockUnescaped(a), TOR_PASSING, MockFields(a));
    MockFieldsMean(a, MockWire(a));
  }

  lemma MockInOrder(a: Synthesized)
    ensures var fs := MockFields(a);
            && |fs| == 6
            && fs[5..] == [IntField(0x08, 0, 2)] + [] && fs[4..] == [IntField(0x06, a.hits, 2)] + fs[5..]
            && fs[3..] == [IntField(0x05, a.strength, 2)] + fs[4..]
            && fs[2..] == [IntField(0x04, a.rtcTimeUs, 8)] + fs[3..]
            && fs[1..] == [IntField(0x03, a.transponder, 4)] + fs[2..]
            && fs == [IntField(0x01, a.number, 4)] + fs[1..]
  {
    hide IntField;
  }

  /** The body of a synthetic frame, byte by byte. */
  lemma MockBody(a: Synthesized)
    ensures EncodeFields(MockFields(a))
            == [0x01, 4] + PutLE(a.number, 4) + ([0x03, 4] + PutLE(a.transponder, 4)
               + ([0x04, 8] + PutLE(a.rtcTimeUs, 8) + ([0x05, 2] + PutLE(a.strength, 2)
               + ([0x06, 2] + PutLE(a.hits, 2) + ([0x08, 2] + PutLE(0, 2) + [])))))
  {
    var fs := MockFields(a);
    hide EncodeFields, PutLE, MockFields;
    MockInOrder(a);
    EncodedCons(0x08, 0, 2, []);
    EncodedCons(0x06, a.hits, 2, fs[5..]);
    EncodedCons(0x05, a.strength, 2, fs[4..]);
    EncodedCons(0x04, a.rtcTimeUs, 8, fs[3..]);
    EncodedCons(0x03, a.transponder, 4, fs[2..]);
    EncodedCons(0x01, a.number, 4, fs[1..]);
    NoFields();
  }

  method BuildFrame(a: Synthesized) returns (wire: seq<Byte>)
    ensures wire == MockWire(a)
  {
    ghost var fs := MockFields(a);
    var body := [];
    body := AppendTlv(fs, 0, body, PASSING_NUMBER, a.number, 4);
    body := AppendTlv(fs, 1, body, TRANSPONDER, a.transponder, 4);
    body := AppendTlv(fs, 2, body, RTC_TIME, a.rtcTimeUs, 8);
    body := AppendTlv(fs, 3, body, STRENGTH, a.strength, 2);
    body := AppendTlv(fs, 4, body, HITS, a.hits, 2);
    body := AppendTlv(fs, 5, body, FLAGS, 0, 2);
    assert fs[..6] == fs;
    wire := Finalize(TOR_PASSING, body);
  }

  // ---- One read ----

  /** What the surroundings contribute to one Read. */
  datatype World = World(
    sleepFails: bool,         // the sleep, if there is one, is cancelled
    closedMeanwhile: bool,    // Close is called before the second look at the closed channel
    before: int,              // the clock when the sleep is computed
    after: int,               // the clock when the frame is built
    strength: nat, hits: nat, // random draws
    jitter: nat)

  datatype Config = Config(interval: int, roster: seq<U32>, lapMs: Int64, jitterMs: int, boot: int)

  datatype State = State(slots: seq<Slot>, counter: U32, closed: bool)

  datatype ReadResult = Frame(bytes: seq<Byte>) | SleepError | Eof

  predicate Sound(c: Config, st: State) {
    c.roster != [] && c.lapMs > 0 && |st.slots| == |c.roster|
  }

  /** The ranges of the random draws. */
  predicate Drawn(c: Config, w: World) {
    w.strength < 64 && w.hits < 8 && (c.jitterMs > 0 ==> w.jitter < 2 * c.jitterMs + 1)
  }

  /** The settings after the defaults have been filled in. */
  function Configured(interval: int, transponders: seq<U32>, lapMs: Int64, jitterMs: int, boot: int): (c: Config)
    ensures c.roster != [] && c.lapMs > 0
    ensures c.roster == (if transponders == [] then [0x1234_5678] else transponders)
    ensures c.lapMs == (if lapMs <= 0 then 18_000 else lapMs)
    ensures c.interval == interval && c.jitterMs == jitterMs && c.boot == boot
  {
    Config(interval, if transponders == [] then [LEGACY_TRANSPONDER] else transponders,
           if lapMs > 0 then lapMs else DEFAULT_LAP_MS, jitterMs, boot)
  }

  function Initial(c: Config): (st: State)
    requires c.roster != [] && c.lapMs > 0
    ensures Sound(c, st)
  {
    State(Start(c.roster, c.lapMs, c.boot), 0, false)
  }

  /** Time since boot in microseconds, converted to an unsigned 64-bit value. */
  function ElapsedUs(boot: int, now: int): U64 {
    Quot(Elapsed(boot, now), 1000) % WORD64
  }

  function Jitter(jitterMs: int, draw: nat): int { if jitterMs > 0 then draw - jitterMs else 0 }

  function StepOf(c: Config, w: World): int { Step(c.lapMs, Jitter(c.jitterMs, w.jitter)) }

  /** The draws give every jitter from -J to J, each once; without jitter there is none. */
  lemma JitterCovers(jitterMs: int, jitter: int)
    ensures jitterMs <= 0 ==> forall draw: nat :: Jitter(jitterMs, draw) == 0
    ensures -jitterMs <= jitter <= jitterMs && jitterMs > 0 ==>
              exists draw: nat :: draw < 2 * jitterMs + 1 && Jitter(jitterMs, draw) == jitter
                                  && forall other: nat :: Jitter(jitterMs, other) == jitter ==> other == draw
  {
    if -jitterMs <= jitter <= jitterMs && jitterMs > 0 {
      var draw: nat := jitter + jitterMs;
      assert Jitter(jitterMs, draw) == jitter;
    }
  }

  lemma DrawnStep(c: Config, w: World)
    requires Drawn(c, w) && 0 <= c.jitterMs && StepsFit(c.lapMs, c.jitterMs)
    ensures StepOf(c, w) == (c.lapMs + (if c.jitterMs == 0 then 0 else w.jitter - c.jitterMs)) * NANOS_PER_MILLI
  {
    hide Step;
    StepBounds(c.lapMs, c.jitterMs, Jitter(c.jitterMs, w.jitter));
  }

  /** Whole microseconds of a duration, truncated toward zero; a negative number of them wraps at 64 bits. */
  predicate IsMicros(us: nat, nanos: int) {
    && (0 <= nanos < LIMIT63 ==> us == nanos / 1000)
    && (-LIMIT63 <= nanos < 0 ==> us == (WORD64 - -nanos / 1000) % WORD64)
  }

  lemma ElapsedIsMicros(boot: int, now: int)
    ensures IsMicros(ElapsedUs(boot, now), now - boot)
  {}

  function MultiPassing(c: Config, slots: seq<Slot>, w: World): Synthesized
    requires slots != [] && Drawn(c, w)
  {
    var p := slots[Pick(slots)];
    Synthesized(p.transponder, (p.number + 1) % WORD32, ElapsedUs(c.boot, w.after), w.strength + 32, w.hits)
  }

  /** The single transponder passes every one and a half seconds of its own time, with numbers from 1. */
  function LegacyPassing(c: Config, counter: U32, w: World): Synthesized
    requires c.roster != [] && Drawn(c, w)
  {
    Synthesized(c.roster[0], (counter + 1) % WORD32, counter * 1_500_000, w.strength + 32, w.hits)
  }

  /** A failed sleep and a closed source leave the timetable alone. */
  function MultiRead(c: Config, st: State, w: World): (State, ReadResult)
    requires Sound(c, st) && Drawn(c, w)
  {
    if st.slots[Pick(st.slots)].due > w.before && w.sleepFails then (st, SleepError)
    else if st.closed || w.closedMeanwhile then (st.(closed := true), Eof)
    else (st.(slots := Emit(st.slots, StepOf(c, w))), Frame(MockWire(MultiPassing(c, st.slots, w))))
  }

  function LegacyRead(c: Config, st: State, w: World): (State, ReadResult)
    requires Sound(c, st) && Drawn(c, w)
  {
    if c.interval > 0 && w.sleepFails then (st, SleepError)
    else if st.closed || w.closedMeanwhile then (st.(closed := true), Eof)
    else (st.(counter := (st.counter + 1) % WORD32), Frame(MockWire(LegacyPassing(c, st.counter, w))))
  }

  function ReadOnce(c: Config, st: State, w: World): (r: (State, ReadResult))
    requires Sound(c, st) && Drawn(c, w)
    ensures Sound(c, r.0)
  {
    if st.closed then (st, Eof)
    else if |c.roster| > 1 then MultiRead(c, st, w)
    else LegacyRead(c, st, w)
  }

  /** The next emission is still to come. */
  predicate Early(c: Config, st: State, now: int) {
    if |c.roster| > 1 then forall i :: 0 <= i < |st.slots| ==> st.slots[i].due > now else c.interval > 0
  }

  /** Each result has its cause, and only that; a read that fails costs nothing. */
  lemma ReadFailsIff(c: Config, st: State, w: World)
    requires Sound(c, st) && Drawn(c, w)
    ensures var (st', r) := ReadOnce(c, st, w);
            && (r.SleepError? <==> !st.closed && w.sleepFails && Early(c, st, w.before))
            && (r.Eof? <==> st.closed || (w.closedMeanwhile && !(w.sleepFails && Early(c, st, w.before))))
            && (st'.closed <==> r.Eof?)
            && (!r.Frame? ==> st'.slots == st.slots && st'.counter == st.counter)
  {
    hide MockWire, Step, ElapsedUs, Emit;
    if |c.roster| > 1 {
      assert st.slots[Pick(st.slots)].due > w.before <==> forall i :: 0 <= i < |st.slots| ==> st.slots[i].due > w.before;
    }
  }

  // ---- A run of reads ----

  /** The state after reading once in each of the given worlds. */
  function After(c: Config, st: State, ws: seq<World>): (r: State)
    requires Sound(c, st) && forall w :: w in ws ==> Drawn(c, w)
    ensures Sound(c, r)
    decreases |ws|
  {
    if ws == [] then st else ReadOnce(c, After(c, st, ws[..|ws| - 1]), ws[|ws| - 1]).0
  }

  function LastResult(c: Config, st: State, ws: seq<World>): ReadResult
    requires Sound(c, st) && ws != [] && forall w :: w in ws ==> Drawn(c, w)
  {
    ReadOnce(c, After(c, st, ws[..|ws| - 1]), ws[|ws| - 1]).1
  }

  /** The frames read in a run, without the errors. */
  function Frames(c: Config, st: State, ws: seq<World>): seq<seq<Byte>>
    requires Sound(c, st) && forall w :: w in ws ==> Drawn(c, w)
    decreases |ws|
  {
    if ws == [] then []
    else
      var r := LastResult(c, st, ws);
      Frames(c, st, ws[..|ws| - 1]) + if r.Frame? then [r.bytes] else []
  }

  /** The steps drawn by the reads that returned a frame. */
  function Steps(c: Config, st: State, ws: seq<World>): seq<int>
    requires Sound(c, st) && forall w :: w in ws ==> Drawn(c, w)
    decreases |ws|
  {
    if ws == [] then []
    else Steps(c, st, ws[..|ws| - 1]) + if LastResult(c, st, ws).Frame? then [StepOf(c, ws[|ws| - 1])] else []
  }

  /** The surroundings of the reads that returned a frame. */
  function Emitting(c: Config, st: State, ws: seq<World>): seq<World>
    requires Sound(c, st) && forall w :: w in ws ==> Drawn(c, w)
    decreases |ws|
  {
    if ws == [] then []
    else Emitting(c, st, ws[..|ws| - 1]) + if LastResult(c, st, ws).Frame? then [ws[|ws| - 1]] else []
  }

  lemma {:induction false} OpenUntilClosed(c: Config, ws: seq<World>)
    requires c.roster != [] && c.lapMs > 0 && forall w :: w in ws ==> Drawn(c, w) && !w.closedMeanwhile
    ensures !After(c, Initial(c), ws).closed
    ensures ws != [] && !ws[|ws| - 1].sleepFails ==> LastResult(c, Initial(c), ws).Frame?
    decreases |ws|
  {
    hide ReadOnce;
    if ws != [] {
      OpenUntilClosed(c, ws[..|ws| - 1]);
      ReadFailsIff(c, After(c, Initial(c), ws[..|ws| - 1]), ws[|ws| - 1]);
    }
  }

  /** Unless it is closed, a run of reads whose sleeps are not cancelled returns a frame each time. */
  lemma {:induction false} EveryReadEmits(c: Config, ws: seq<World>)
    requires c.roster != [] && c.lapMs > 0
    requires forall w :: w in ws ==> Drawn(c, w) && !w.closedMeanwhile && !w.sleepFails
    ensures |Frames(c, Initial(c), ws)| == |ws| && Emitting(c, Initial(c), ws) == ws
    decreases |ws|
  {
    hide LastResult, After;
    if ws != [] {
      OpenUntilClosed(c, ws);
      EveryReadEmits(c, ws[..|ws| - 1]);
    }
  }

  /** The record of one emission: whose it is, its number, the microseconds since boot, and what was drawn. */
  predicate Shows(r: PassingRecord, p: Slot, boot: int, w: World) {
    && r.transponder == p.transponder && r.passingNumber == (p.number + 1) % WORD32
    && IsMicros(r.rtcTimeUs, w.after - boot)
    && r.strength == w.strength + 32 && r.hits == w.hits && r.flags == 0 && r.decoderId == None
    && 32 <= r.strength < 96 && r.hits < 8
  }

  /** A record of emission k, made by the slot whose turn it is. */
  ghost predicate RecordInTurn(r: PassingRecord, boot: int, slots: seq<Slot>, steps: seq<int>, w: World, k: nat)
    requires slots != [] && k < |steps|
  {
    var before := Exec(slots, steps[..k]);
    Shows(r, before[Pick(before)], boot, w)
  }

  ghost predicate FrameInTurn(frame: seq<Byte>, boot: int, slots: seq<Slot>, steps: seq<int>, w: World, k: nat)
    requires slots != [] && k < |steps|
  {
    var r := Parse(frame);
    IsFrame(true, frame) && r.Passing? && RecordInTurn(r.record, boot, slots, steps, w, k)
  }

  ghost predicate InTurn(frames: seq<seq<Byte>>, boot: int, slots: seq<Slot>, steps: seq<int>, ws: seq<World>) {
    && slots != [] && |frames| == |steps| == |ws|
    && forall k :: 0 <= k < |frames| ==> FrameInTurn(frames[k], boot, slots, steps, ws[k], k)
  }

  lemma InTurnSnoc(frames: seq<seq<Byte>>, boot: int, slots: seq<Slot>, steps: seq<int>, ws: seq<World>,
                   frame: seq<Byte>, step: int, w: World)
    requires InTurn(frames, boot, slots, steps, ws)
    requires FrameInTurn(frame, boot, slots, steps + [step], w, |steps|)
    ensures InTurn(frames + [frame], boot, slots, steps + [step], ws + [w])
  {
    hide Exec, Parse, IsFrame, Pick, Shows;
    var more := steps + [step];
    forall k | 0 <= k < |frames| ensures FrameInTurn(frames[k], boot, slots, more, ws[k], k) {
      assert more[..k] == steps[..k];
    }
  }

  /** Whatever sleeps fail and whenever the source is closed, its frames follow the timetable. */
  lemma {:induction false} FramesFollowTimetable(c: Config, st: State, ws: seq<World>)
    requires Sound(c, st) && |c.roster| > 1 && forall w :: w in ws ==> Drawn(c, w)
    ensures var steps := Steps(c, st, ws);
            && After(c, st, ws).slots == Exec(st.slots, steps)
            && InTurn(Frames(c, st, ws), c.boot, st.slots, steps, Emitting(c, st, ws))
    decreases |ws|
  {
    if ws == [] {
    } else {
      var before, w := ws[..|ws| - 1], ws[|ws| - 1];
      FramesFollowTimetable(c, st, before);
      NextFollows(c, st, After(c, st, before), w, Frames(c, st, before), Steps(c, st, before), Emitting(c, st, before));
    }
  }

  lemma MultiShows(c: Config, slots: seq<Slot>, w: World)
    requires slots != [] && Drawn(c, w)
    ensures Shows(MockRecord(MultiPassing(c, slots, w)), slots[Pick(slots)], c.boot, w)
  {
    ElapsedIsMicros(c.boot, w.after);
    hide ElapsedUs, IsMicros, Pick;
  }

  lemma NextFollows(c: Config, st: State, now: State, w: World, frames: seq<seq<Byte>>, steps: seq<int>, ws: seq<World>)
    requires Sound(c, st) && Sound(c, now) && Drawn(c, w) && |c.roster| > 1
    requires now.slots == Exec(st.slots, steps) && InTurn(frames, c.boot, st.slots, steps, ws)
    ensures var (next, r) := ReadOnce(c, now, w);
            var frames' := frames + (if r.Frame? then [r.bytes] else []);
            var steps' := steps + (if r.Frame? then [StepOf(c, w)] else []);
            next.slots == Exec(st.slots, steps')
            && InTurn(frames', c.boot, st.slots, steps', ws + if r.Frame? then [w] else [])
  {
    hide Parse, IsFrame, MockWire, Step, Pick, InTurn, Emit, Shows, MultiPassing, MockRecord;
    var r := ReadOnce(c, now, w).1;
    if r.Frame? {
      MockRoundTrip(MultiPassing(c, now.slots, w));
      MultiShows(c, now.slots, w);
      var more := steps + [StepOf(c, w)];
      assert more[..|steps|] == steps;
      InTurnSnoc(frames, c.boot, st.slots, steps, ws, r.bytes, StepOf(c, w), w);
    } else {
      assert frames + [] == frames && steps + [] == steps && ws + [] == ws;
    }
  }

  /** The record of a single transponder's emission behind n others. */
  function LegacyRecord(c: Config, n: nat, w: World): PassingRecord
    requires c.roster != []
  {
    PassingRecord((n + 1) % WORD32, c.roster[0], n % WORD32 * 1_500_000, w.strength + 32, w.hits, 0, None)
  }

  lemma LegacyOne(c: Config, st: State, w: World, n: nat)
    requires Sound(c, st) && Drawn(c, w) && |c.roster| == 1 && st.counter == n % WORD32
    ensures var (st', r) := ReadOnce(c, st, w);
            if r.Frame? then
              && st'.counter == (n + 1) % WORD32
              && IsFrame(true, r.bytes) && Parse(r.bytes) == Passing(LegacyRecord(c, n, w))
            else st'.counter == st.counter
  {
    NextNumber(n);
    hide Parse, IsFrame, MockWire;
    MockRoundTrip(LegacyPassing(c, st.counter, w));
  }

  /** Frame k is the passing with number k + 1, one and a half seconds of RTC time for each before it. */
  ghost predicate InLegacyTurn(c: Config, frames: seq<seq<Byte>>, ws: seq<World>)
    requires c.roster != []
  {
    && |frames| == |ws|
    && forall k :: 0 <= k < |frames| ==>
         IsFrame(true, frames[k]) && Parse(frames[k]) == Passing(LegacyRecord(c, k, ws[k]))
  }

  lemma LegacyNext(c: Config, st: State, w: World, frames: seq<seq<Byte>>, ws: seq<World>)
    requires Sound(c, st) && Drawn(c, w) && |c.roster| == 1
    requires InLegacyTurn(c, frames, ws) && st.counter == |frames| % WORD32
    ensures var (st', r) := ReadOnce(c, st, w);
            var frames' := frames + if r.Frame? then [r.bytes] else [];
            InLegacyTurn(c, frames', ws + if r.Frame? then [w] else []) && st'.counter == |frames'| % WORD32
  {
    hide Parse, IsFrame, ReadOnce, LegacyRecord;
    LegacyOne(c, st, w, |frames|);
    if !ReadOnce(c, st, w).1.Frame? {
      assert frames + [] == frames && ws + [] == ws;
    }
  }

  /** With a single transponder, whatever sleeps fail and whenever the source is closed. */
  lemma {:induction false} LegacyFrames(c: Config, ws: seq<World>)
    requires |c.roster| == 1 && c.lapMs > 0 && forall w :: w in ws ==> Drawn(c, w)
    ensures InLegacyTurn(c, Frames(c, Initial(c), ws), Emitting(c, Initial(c), ws))
    ensures After(c, Initial(c), ws).counter == |Frames(c, Initial(c), ws)| % WORD32
    decreases |ws|
  {
    if ws == [] {
    } else {
      var before, w := ws[..|ws| - 1], ws[|ws| - 1];
      LegacyFrames(c, before);
      hide InLegacyTurn, ReadOnce;
      LegacyNext(c, After(c, Initial(c), before), w, Frames(c, Initial(c), before), Emitting(c, Initial(c), before));
    }
  }

  lemma {:induction false} SteadySteps(c: Config, st: State, ws: seq<World>)
    requires Sound(c, st) && c.jitterMs <= 0 && forall w :: w in ws ==> Drawn(c, w)
    ensures Steps(c, st, ws) == Repeat(Step(c.lapMs, 0), |Steps(c, st, ws)|)
    decreases |ws|
  {
    if ws == [] {
    } else {
      SteadySteps(c, st, ws[..|ws| - 1]);
    }
  }

  /** Without overflow, every read reschedules within the jitter around the lap. */
  lemma {:induction false} StepsInJitter(c: Config, st: State, ws: seq<World>)
    requires Sound(c, st) && forall w :: w in ws ==> Drawn(c, w)
    requires 0 <= c.jitterMs && StepsFit(c.lapMs, c.jitterMs)
    ensures forall s :: s in Steps(c, st, ws) ==> InJitter(s, c.lapMs, c.jitterMs)
    decreases |ws|
  {
    if ws == [] {
    } else {
      var w := ws[|ws| - 1];
      assert w in ws;
      StepsInJitter(c, st, ws[..|ws| - 1]);
      hide Step;
      StepBounds(c.lapMs, c.jitterMs, Jitter(c.jitterMs, w.jitter));
    }
  }

  /** In any run of reads, a waiting transponder is overtaken by another one only this often. */
  lemma RunIsFair(c: Config, ws: seq<World>, x: nat, y: nat, p: nat, q: nat)
    requires |c.roster| > 1 && 0 <= c.jitterMs < c.lapMs && StepsFit(c.lapMs, c.jitterMs)
    requires forall w :: w in ws ==> Drawn(c, w)
    requires var slots, steps := Initial(c).slots, Steps(c, Initial(c), ws);
             x < |slots| && y < |slots| && x != y && p < q <= |steps| && Waits(slots, steps, x, p, q)
    ensures CountBetween(Initial(c).slots, Steps(c, Initial(c), ws), y, p, q)
            <= (c.lapMs + c.jitterMs) / (c.lapMs - c.jitterMs) + 1
  {
    StepsInJitter(c, Initial(c), ws);
    hide Steps, Start, CountBetween, Waits, InJitter;
    Fairness(Initial(c).slots, Steps(c, Initial(c), ws), x, y, p, q, c.lapMs, c.jitterMs);
  }

  /** Without jitter the k-th frame belongs to transponder k mod N, whatever the sleeps and the clock do. */
  lemma FramesInRotation(c: Config, ws: seq<World>, k: nat)
    requires |c.roster| > 1 && c.lapMs > 0 && c.jitterMs <= 0 && Millis(c.lapMs) > 0
    requires forall w :: w in ws ==> Drawn(c, w)
    requires k < |Frames(c, Initial(c), ws)|
    ensures var r := Parse(Frames(c, Initial(c), ws)[k]);
            r.Passing? && r.record.transponder == c.roster[k % |c.roster|]
  {
    var slots, steps := Initial(c).slots, Steps(c, Initial(c), ws);
    FramesFollowTimetable(c, Initial(c), ws);
    SteadySteps(c, Initial(c), ws);
    RoundRobin(c.roster, c.lapMs, c.boot, k);
    hide Parse, IsFrame, Step, Pick, Exec, Millis, Frames, Steps, After, Emitting, IsMicros;
    assert FrameInTurn(Frames(c, Initial(c), ws)[k], c.boot, slots, steps, Emitting(c, Initial(c), ws)[k], k);
    assert steps[..k] == Repeat(Step(c.lapMs, 0), k);
    SlotHistory(slots, steps[..k], k % |c.roster|);
  }

  // ---- The source ----

  class Source {
    const config: Config
    const schedule: array<Slot>
    var closed: bool
    var counter: U32

    function Now(): State
      reads this, schedule
    {
      State(schedule[..], counter, closed)
    }

    ghost predicate Valid()
      reads this, schedule
    {
      Sound(config, Now())
    }

    /** The state that the first call sets up. */
    constructor (interval: int, transponders: seq<U32>, lapMs: Int64, jitterMs: int, boot: int)
      ensures fresh(schedule) && config == Configured(interval, transponders, lapMs, jitterMs, boot)
      ensures Valid() && Now() == Initial(config)
    {
      var c := Configured(interval, transponders, lapMs, jitterMs, boot);
      var ids := c.roster;
      var stride := Quot(Millis(c.lapMs), |ids|);
      var slots := new Slot[|ids|](_ => Slot(0, 0, 0));
      for i := 0 to |ids|
        invariant forall k :: 0 <= k < i ==> slots[k] == Slot(ids[k], boot + k * stride, 0)
      {
        slots[i] := Slot(ids[i], boot + i * stride, 0);
      }
      assert slots[..] == Start(ids, c.lapMs, boot);
      config, schedule, closed, counter := c, slots, false, 0;
    }

    /** The loop over the schedule. */
    method Earliest() returns (next: nat)
      requires Valid()
      ensures next < schedule.Length && next == Pick(schedule[..])
    {
      next := 0;
      for i := 1 to schedule.Length
        invariant next < i
        invariant forall k :: 0 <= k < i ==> schedule[next].due <= schedule[k].due
        invariant forall k :: 0 <= k < next ==> schedule[next].due < schedule[k].due
      {
        if schedule[i].due < schedule[next].due {
          next := i;
        }
      }
      PickIs(schedule[..], next);
    }

    method ReadMulti(w: World) returns (r: ReadResult)
      requires Valid() && Drawn(config, w)
      modifies this`closed, schedule
      ensures (Now(), r) == MultiRead(config, old(Now()), w)
    {
      hide Pick, MockWire, Step, ElapsedUs;
      var next := Earliest();
      var p := schedule[next];
      if p.due > w.before {
        if w.sleepFails {
          return SleepError;
        }
      }
      closed := closed || w.closedMeanwhile;
      if closed {
        return Eof;
      }
      var number := (p.number + 1) % WORD32;
      var frame := BuildFrame(Synthesized(p.transponder, number, ElapsedUs(config.boot, w.after), w.strength + 32, w.hits));
      schedule[next] := Slot(p.transponder, p.due + StepOf(config, w), number);
      r := Frame(frame);
    }

    method ReadLegacy(w: World) returns (r: ReadResult)
      requires Valid() && Drawn(config, w)
      modifies this`closed, this`counter
      ensures (Now(), r) == LegacyRead(config, old(Now()), w)
    {
      hide Pick, MockWire;
      if config.interval > 0 {
        if w.sleepFails {
          return SleepError;
        }
      }
      closed := closed || w.closedMeanwhile;
      if closed {
        return Eof;
      }
      var rtcUs := counter * 1500 * 1000;
      counter := (counter + 1) % WORD32;
      var frame := BuildFrame(Synthesized(config.roster[0], counter, rtcUs, w.strength + 32, w.hits));
      r := Frame(frame);
    }

    method Read(w: World) returns (r: ReadResult)
      requires Valid() && Drawn(config, w)
      modifies this`closed, this`counter, schedule
      ensures Valid() && (Now(), r) == ReadOnce(config, old(Now()), w)
    {
      hide MultiRead, LegacyRead;
      if closed {
        return Eof;
      }
      if |config.roster| > 1 {
        r := ReadMulti(w);
      } else {
        r := ReadLegacy(w);
      }
    }

    method Close()
      modifies this`closed
      ensures closed
    {
      if !closed {
        closed := true;
      }
    }
  }
}

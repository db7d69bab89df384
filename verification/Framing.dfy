/**
 * Cutting a byte stream into frames. The gateway's one-shot Split ends a frame at the first EOR
 * (gateway/internal/p3frame/p3frame.go); the web client's FrameStream honours escapes and works
 * chunk by chunk on a retained buffer (web/src/protocol/frame.ts). Both are proved against one
 * byte-at-a-time scanner, and the scanner against a declarative reading of the stream.
 */
module Framing {
  import opened Bytes
  import opened Wire

  // ---- The scanner ----

  /** frames: the frames completed so far; cur: the unfinished frame, empty when outside one. */
  datatype Scan = Scan(frames: seq<seq<Byte>>, cur: seq<Byte>)

  /** Does byte b finish the frame cur? With aware, an escaped EOR does not. */
  predicate Closes(aware: bool, cur: seq<Byte>, b: Byte) {
    cur != [] && b == EOR && !(aware && Dangling(cur[1..]))
  }

  function Advance(aware: bool, cur: seq<Byte>, b: Byte): Scan {
    if cur == [] then Scan([], if b == SOR then [b] else [])
    else if Closes(aware, cur, b) then Scan([cur + [b]], [])
    else Scan([], cur + [b])
  }

  function ScanFrom(aware: bool, cur: seq<Byte>, s: seq<Byte>): Scan
    decreases |s|
  {
    if s == [] then Scan([], cur)
    else
      var first := Advance(aware, cur, s[0]);
      var rest := ScanFrom(aware, first.cur, s[1..]);
      Scan(first.frames + rest.frames, rest.cur)
  }

  lemma {:induction false} ScanAppend(aware: bool, cur: seq<Byte>, s: seq<Byte>, t: seq<Byte>)
    ensures var r := ScanFrom(aware, cur, s);
            var q := ScanFrom(aware, r.cur, t);
            ScanFrom(aware, cur, s + t) == Scan(r.frames + q.frames, q.cur)
    decreases |s|
  {
    if s == [] {
      assert s + t == t;
    } else {
      assert (s + t)[1..] == s[1..] + t;
      ScanAppend(aware, Advance(aware, cur, s[0]).cur, s[1..], t);
    }
  }

  // ---- What a frame is ----

  /** No byte of s would finish a frame whose body starts with s. */
  predicate OpenBody(aware: bool, s: seq<Byte>) {
    if s == [] then true
    else if aware && s[0] == ESC then |s| == 1 || OpenBody(aware, s[2..])
    else s[0] != EOR && OpenBody(aware, s[1..])
  }

  /** An unfinished frame: it starts at an SOR and no EOR has finished it. */
  predicate IsOpen(aware: bool, p: seq<Byte>) {
    p != [] && p[0] == SOR && OpenBody(aware, p[1..])
  }

  /** A finished frame: an unfinished one followed by an EOR that is not escaped. */
  predicate IsFrame(aware: bool, f: seq<Byte>) {
    && |f| >= 2
    && f[|f| - 1] == EOR
    && IsOpen(aware, f[..|f| - 1])
    && !(aware && Dangling(Body(f)))
  }

  /** The retained buffer: nothing, or an unfinished frame. */
  predicate IsResidue(aware: bool, p: seq<Byte>) {
    p == [] || IsOpen(aware, p)
  }

  lemma {:induction false} OpenBodySnoc(aware: bool, s: seq<Byte>, b: Byte)
    ensures OpenBody(aware, s + [b]) <==> OpenBody(aware, s) && (b != EOR || (aware && Dangling(s)))
    decreases |s|
  {
    if s == [] {
      assert (s + [b])[1..] == [];
    } else if aware && s[0] == ESC {
      if |s| == 1 {
        assert (s + [b])[2..] == [];
      } else {
        OpenBodySnoc(aware, s[2..], b);
        assert (s + [b])[2..] == s[2..] + [b];
      }
    } else {
      OpenBodySnoc(aware, s[1..], b);
      assert (s + [b])[1..] == s[1..] + [b];
      if aware {
        assert Dangling(s) <==> Dangling(s[1..]);
      }
    }
  }

  lemma OpenSnoc(aware: bool, p: seq<Byte>, b: Byte)
    requires IsOpen(aware, p)
    ensures IsOpen(aware, p + [b]) <==> !Closes(aware, p, b)
    ensures IsFrame(aware, p + [b]) <==> Closes(aware, p, b)
  {
    OpenBodySnoc(aware, p[1..], b);
    assert (p + [b])[1..] == p[1..] + [b];
    assert (p + [b])[..|p + [b]| - 1] == p;
    assert Body(p + [b]) == p[1..];
  }

  /** Every prefix of an unfinished frame is unfinished, and the scanner keeps it whole. */
  lemma {:induction false} ScanOpen(aware: bool, p: seq<Byte>)
    requires IsOpen(aware, p)
    ensures ScanFrom(aware, [], p) == Scan([], p)
    decreases |p|
  {
    var q, b := p[..|p| - 1], p[|p| - 1];
    assert p == q + [b];
    ScanAppend(aware, [], q, [b]);
    if q == [] {
    } else {
      assert p[1..] == q[1..] + [b];
      OpenBodySnoc(aware, q[1..], b);
      ScanOpen(aware, q);
      OpenSnoc(aware, q, b);
    }
    assert [b][1..] == [];
    assert ScanFrom(aware, q, [b]) == Scan([], p);
  }

  lemma ScanFrame(aware: bool, f: seq<Byte>)
    requires IsFrame(aware, f)
    ensures ScanFrom(aware, [], f) == Scan([f], [])
  {
    var p := f[..|f| - 1];
    assert f == p + [EOR];
    ScanOpen(aware, p);
    ScanAppend(aware, [], p, [EOR]);
    assert Body(f) == p[1..];
    assert [EOR][1..] == [];
  }

  lemma {:induction false} ScanGarbage(aware: bool, g: seq<Byte>)
    requires SOR !in g
    ensures ScanFrom(aware, [], g) == Scan([], [])
    decreases |g|
  {
    if g == [] {
    } else {
      assert forall b :: b in g[1..] ==> b in g;
      ScanGarbage(aware, g[1..]);
    }
  }

  lemma AdvanceKeepsResidue(aware: bool, cur: seq<Byte>, b: Byte)
    requires IsResidue(aware, cur)
    ensures var r := Advance(aware, cur, b);
            IsResidue(aware, r.cur) && forall f :: f in r.frames ==> IsFrame(aware, f)
  {
    if cur != [] {
      OpenSnoc(aware, cur, b);
    }
  }

  /** Whatever the stream, only frames come out and only an unfinished frame is kept. */
  lemma {:induction false} ScanWellFormed(aware: bool, cur: seq<Byte>, s: seq<Byte>)
    requires IsResidue(aware, cur)
    ensures var r := ScanFrom(aware, cur, s);
            IsResidue(aware, r.cur) && forall f :: f in r.frames ==> IsFrame(aware, f)
    decreases |s|
  {
    if s == [] {
    } else {
      AdvanceKeepsResidue(aware, cur, s[0]);
      ScanWellFormed(aware, Advance(aware, cur, s[0]).cur, s[1..]);
    }
  }

  // ---- A stream read as gaps and frames ----

  /** gap, frame, gap, frame, ... */
  function Interleave(gaps: seq<seq<Byte>>, frames: seq<seq<Byte>>): seq<Byte>
    requires |gaps| == |frames|
  {
    if gaps == [] then [] else gaps[0] + frames[0] + Interleave(gaps[1..], frames[1..])
  }

  predicate IsGap(g: seq<Byte>) { SOR !in g }

  /** The stream consists of frames separated by gaps without SOR, then a gap, then a residue. */
  ghost predicate Reads(aware: bool, s: seq<Byte>, gaps: seq<seq<Byte>>, frames: seq<seq<Byte>>,
                        lastGap: seq<Byte>, residue: seq<Byte>) {
    && |gaps| == |frames|
    && (forall g :: g in gaps ==> IsGap(g))
    && (forall f :: f in frames ==> IsFrame(aware, f))
    && IsGap(lastGap)
    && IsResidue(aware, residue)
    && s == Interleave(gaps, frames) + (lastGap + residue)
  }

  lemma ScanGapAndFrame(aware: bool, g: seq<Byte>, f: seq<Byte>, rest: seq<Byte>)
    requires IsGap(g) && IsFrame(aware, f)
    ensures ScanFrom(aware, [], g + (f + rest))
            == var r := ScanFrom(aware, [], rest); Scan([f] + r.frames, r.cur)
  {
    ScanGarbage(aware, g);
    ScanAppend(aware, [], g, f + rest);
    ScanFrame(aware, f);
    ScanAppend(aware, [], f, rest);
  }

  /** Any such reading of a stream is the one the scanner finds: the cut is unambiguous. */
  lemma {:induction false} ReadingIsUnique(aware: bool, s: seq<Byte>, gaps: seq<seq<Byte>>, frames: seq<seq<Byte>>,
                                           lastGap: seq<Byte>, residue: seq<Byte>)
    requires Reads(aware, s, gaps, frames, lastGap, residue)
    ensures ScanFrom(aware, [], s) == Scan(frames, residue)
    decreases |gaps|
  {
    if gaps == [] {
      assert s == lastGap + residue;
      ScanGarbage(aware, lastGap);
      ScanAppend(aware, [], lastGap, residue);
      if residue != [] {
        ScanOpen(aware, residue);
      }
    } else {
      var rest := Interleave(gaps[1..], frames[1..]) + (lastGap + residue);
      assert s == gaps[0] + (frames[0] + rest);
      assert Reads(aware, rest, gaps[1..], frames[1..], lastGap, residue);
      ReadingIsUnique(aware, rest, gaps[1..], frames[1..], lastGap, residue);
      ScanGapAndFrame(aware, gaps[0], frames[0], rest);
      assert [frames[0]] + frames[1..] == frames;
    }
  }

  lemma {:induction false} InterleaveSnoc(gaps: seq<seq<Byte>>, frames: seq<seq<Byte>>, g: seq<Byte>, f: seq<Byte>)
    requires |gaps| == |frames|
    ensures Interleave(gaps + [g], frames + [f]) == Interleave(gaps, frames) + (g + f)
  {
    if gaps == [] {
      assert (gaps + [g])[1..] == [] && (frames + [f])[1..] == [];
    } else {
      InterleaveSnoc(gaps[1..], frames[1..], g, f);
      assert (gaps + [g])[1..] == gaps[1..] + [g] && (frames + [f])[1..] == frames[1..] + [f];
    }
  }

  lemma ReadsGapByte(aware: bool, t: seq<Byte>, gaps: seq<seq<Byte>>, frames: seq<seq<Byte>>,
                     lastGap: seq<Byte>, b: Byte)
    requires Reads(aware, t, gaps, frames, lastGap, []) && b != SOR
    ensures Reads(aware, t + [b], gaps, frames, lastGap + [b], [])
  {
    var done := Interleave(gaps, frames);
    assert t == done + lastGap;
    assert t + [b] == done + (lastGap + [b] + []);
  }

  lemma ReadsFrameByte(aware: bool, t: seq<Byte>, gaps: seq<seq<Byte>>, frames: seq<seq<Byte>>,
                       lastGap: seq<Byte>, cur: seq<Byte>, b: Byte)
    requires Reads(aware, t, gaps, frames, lastGap, cur) && IsOpen(aware, cur + [b])
    ensures Reads(aware, t + [b], gaps, frames, lastGap, cur + [b])
  {
    var done := Interleave(gaps, frames);
    assert t + [b] == done + (lastGap + (cur + [b]));
  }

  lemma ReadsLastByte(aware: bool, t: seq<Byte>, gaps: seq<seq<Byte>>, frames: seq<seq<Byte>>,
                      lastGap: seq<Byte>, cur: seq<Byte>, b: Byte)
    requires Reads(aware, t, gaps, frames, lastGap, cur) && IsFrame(aware, cur + [b])
    ensures Reads(aware, t + [b], gaps + [lastGap], frames + [cur + [b]], [], [])
  {
    var done := Interleave(gaps, frames);
    InterleaveSnoc(gaps, frames, lastGap, cur + [b]);
    assert t + [b] == done + (lastGap + (cur + [b]));
    assert t + [b] == done + (lastGap + (cur + [b])) + ([] + []);
  }

  lemma ScanSnoc(aware: bool, t: seq<Byte>, b: Byte)
    ensures var r := ScanFrom(aware, [], t);
            var step := Advance(aware, r.cur, b);
            ScanFrom(aware, [], t + [b]) == Scan(r.frames + step.frames, step.cur)
  {
    ScanAppend(aware, [], t, [b]);
    assert [b][1..] == [];
  }

  /** Every stream has such a reading, so the scanner loses nothing but gaps. */
  lemma {:induction false} ReadingExists(aware: bool, s: seq<Byte>)
    returns (gaps: seq<seq<Byte>>, lastGap: seq<Byte>)
    ensures Reads(aware, s, gaps, ScanFrom(aware, [], s).frames, lastGap, ScanFrom(aware, [], s).cur)
    decreases |s|
  {
    if s == [] {
      return [], [];
    }
    var t, b := s[..|s| - 1], s[|s| - 1];
    assert s == t + [b];
    gaps, lastGap := ReadingExists(aware, t);
    var r := ScanFrom(aware, [], t);
    ScanSnoc(aware, t, b);
    assert r.frames + [] == r.frames;
    if r.cur == [] && b != SOR {
      ReadsGapByte(aware, t, gaps, r.frames, lastGap, b);
      lastGap := lastGap + [b];
    } else if Closes(aware, r.cur, b) {
      OpenSnoc(aware, r.cur, b);
      ReadsLastByte(aware, t, gaps, r.frames, lastGap, r.cur, b);
      gaps, lastGap := gaps + [lastGap], [];
    } else {
      AdvanceKeepsResidue(aware, r.cur, b);
      ReadsFrameByte(aware, t, gaps, r.frames, lastGap, r.cur, b);
    }
  }

  // ---- Chunking ----

  function ScanChunks(aware: bool, cur: seq<Byte>, chunks: seq<seq<Byte>>): Scan
    decreases |chunks|
  {
    if chunks == [] then Scan([], cur)
    else
      var first := ScanFrom(aware, cur, chunks[0]);
      var rest := ScanChunks(aware, first.cur, chunks[1..]);
      Scan(first.frames + rest.frames, rest.cur)
  }

  /** How a stream is split into pushes does not matter. */
  lemma {:induction false} ChunkingIndependence(aware: bool, cur: seq<Byte>, chunks: seq<seq<Byte>>)
    ensures ScanChunks(aware, cur, chunks) == ScanFrom(aware, cur, Concat(chunks))
    decreases |chunks|
  {
    if chunks == [] {
    } else {
      ChunkingIndependence(aware, ScanFrom(aware, cur, chunks[0]).cur, chunks[1..]);
      ScanAppend(aware, cur, chunks[0], Concat(chunks[1..]));
    }
  }

  // ---- The gateway and the web client compared ----

  predicate HasDanglingFrame(frames: seq<seq<Byte>>) {
    exists f :: f in frames && |f| >= 2 && Dangling(Body(f))
  }

  lemma {:induction false} FirstFrameExtends(aware: bool, cur: seq<Byte>, s: seq<Byte>)
    requires cur != []
    ensures var r := ScanFrom(aware, cur, s); r.frames != [] ==> cur < r.frames[0]
    decreases |s|
  {
    if s != [] && !Closes(aware, cur, s[0]) {
      FirstFrameExtends(aware, cur + [s[0]], s[1..]);
    }
  }

  lemma {:induction false} AgreementFrom(cur: seq<Byte>, s: seq<Byte>)
    requires cur == [] || cur[0] == SOR
    ensures var go, ts := ScanFrom(false, cur, s), ScanFrom(true, cur, s);
            && (go.frames == ts.frames <==> !HasDanglingFrame(go.frames))
            && (go.frames == ts.frames ==> go.cur == ts.cur)
    decreases |s|
  {
    if s == [] {
    } else {
      var go, ts := ScanFrom(false, cur, s), ScanFrom(true, cur, s);
      var b, t := s[0], s[1..];
      var f := cur + [b];
      if cur != [] && b == EOR && Dangling(cur[1..]) {
        assert go.frames[0] == f;
        assert Body(f) == cur[1..];
        assert f in go.frames;
        assert ts == ScanFrom(true, f, t);
        FirstFrameExtends(true, f, t);
      } else {
        var first := Advance(true, cur, b);
        assert first == Advance(false, cur, b);
        AgreementFrom(first.cur, t);
        var go', ts' := ScanFrom(false, first.cur, t), ScanFrom(true, first.cur, t);
        assert go.frames == first.frames + go'.frames && ts.frames == first.frames + ts'.frames;
        assert go'.frames == go.frames[|first.frames|..] && ts'.frames == ts.frames[|first.frames|..];
        if first.frames != [] {
          assert first.frames == [f] && Body(f) == cur[1..];
        }
        assert forall g :: g in go.frames <==> g in first.frames || g in go'.frames;
      }
    }
  }

  /** The two framers cut the same frames exactly when no frame of the gateway ends in a dangling escape. */
  lemma FramersAgreeIff(s: seq<Byte>)
    ensures ScanFrom(false, [], s).frames == ScanFrom(true, [], s).frames
            <==> !HasDanglingFrame(ScanFrom(false, [], s).frames)
    ensures !HasDanglingFrame(ScanFrom(false, [], s).frames) ==> ScanFrom(false, [], s) == ScanFrom(true, [], s)
  {
    AgreementFrom([], s);
  }

  predicate NoEscBeforeEor(s: seq<Byte>) {
    forall i :: 0 <= i < |s| - 1 ==> s[i] == ESC ==> s[i + 1] != EOR
  }

  /** In particular they agree on every stream in which no ESC is directly followed by EOR. */
  lemma FramersAgree(s: seq<Byte>)
    requires NoEscBeforeEor(s)
    ensures !HasDanglingFrame(ScanFrom(false, [], s).frames)
    ensures ScanFrom(false, [], s) == ScanFrom(true, [], s)
  {
    NoDanglingFrom([], s);
    FramersAgreeIff(s);
  }

  lemma {:induction false} NoDanglingFrom(cur: seq<Byte>, s: seq<Byte>)
    requires NoEscBeforeEor(cur + s)
    ensures !HasDanglingFrame(ScanFrom(false, cur, s).frames)
    decreases |s|
  {
    if s == [] {
    } else {
      var b, t := s[0], s[1..];
      var f := cur + [b];
      assert cur + s == f + t;
      var first := Advance(false, cur, b);
      if cur != [] && b == EOR {
        assert Body(f) == cur[1..];
        assert (cur + s)[|cur| - 1] == cur[|cur| - 1] && (cur + s)[|cur|] == b;
        if Dangling(cur[1..]) {
          DanglingEndsInEsc(cur[1..]);
          assert false;
        }
        forall i | 0 <= i < |t| - 1 ensures t[i] == ESC ==> t[i + 1] != EOR {
          assert (cur + s)[|f| + i] == t[i] && (cur + s)[|f| + (i + 1)] == t[i + 1];
        }
        assert [] + t == t;
        NoDanglingFrom([], t);
      } else if cur == [] && b != SOR {
        forall i | 0 <= i < |t| - 1 ensures t[i] == ESC ==> t[i + 1] != EOR {
          assert (cur + s)[1 + i] == t[i] && (cur + s)[1 + (i + 1)] == t[i + 1];
        }
        assert [] + t == t;
        NoDanglingFrom([], t);
      } else {
        NoDanglingFrom(f, t);
      }
    }
  }

  /** The web client's own frames never dangle, so its invalid-escape report cannot happen. */
  lemma AwareFramesNeverDangle(s: seq<Byte>)
    ensures !HasDanglingFrame(ScanFrom(true, [], s).frames)
  {
    ScanWellFormed(true, [], s);
  }

  // ---- Message boundaries ----

  /** Bytes that finish an unfinished frame. */
  function Finish(cur: seq<Byte>): seq<Byte>
    requires cur != []
  {
    if Dangling(cur[1..]) then [0, EOR] else [EOR]
  }

  lemma EorFinishes(cur: seq<Byte>)
    requires cur != [] && !Dangling(cur[1..])
    ensures ScanFrom(true, cur, [EOR]) == Scan([cur + [EOR]], [])
  {
    assert [EOR][1..] == [];
    assert ScanFrom(true, [], []) == Scan([], []);
  }

  lemma FinishCloses(cur: seq<Byte>)
    requires cur != []
    ensures ScanFrom(true, cur, Finish(cur)) == Scan([cur + Finish(cur)], [])
  {
    if Dangling(cur[1..]) {
      DanglingSnoc(cur[1..], 0);
      assert (cur + [0])[1..] == cur[1..] + [0];
      assert [0, EOR][1..] == [EOR];
      EorFinishes(cur + [0]);
      assert cur + [0] + [EOR] == cur + [0, EOR];
    } else {
      EorFinishes(cur);
    }
  }

  /** Behind these bytes the web client's framer is outside a frame. */
  predicate Complete(m: seq<Byte>) { ScanFrom(true, [], m).cur == [] }

  lemma FinishExposes(m: seq<Byte>)
    requires !Complete(m)
    ensures var t := Finish(ScanFrom(true, [], m).cur);
            && |ScanFrom(true, [], m + t).frames| == |ScanFrom(true, [], m).frames| + 1
            && ScanFrom(true, [], t).frames == []
  {
    var r := ScanFrom(true, [], m);
    var t := Finish(r.cur);
    FinishCloses(r.cur);
    ScanAppend(true, [], m, t);
    ScanGarbage(true, t);
  }

  /** Exactly such bytes leave what follows them alone, whatever follows. */
  lemma CompleteIff(m: seq<Byte>)
    ensures (forall t :: ScanFrom(true, [], m + t).frames == ScanFrom(true, [], m).frames + ScanFrom(true, [], t).frames)
            <==> Complete(m)
  {
    if Complete(m) {
      forall t ensures ScanFrom(true, [], m + t).frames == ScanFrom(true, [], m).frames + ScanFrom(true, [], t).frames {
        ScanAppend(true, [], m, t);
      }
    } else {
      FinishExposes(m);
    }
  }

  // ---- Self-synchronisation ----

  /** An unescaped record with its brackets in place. */
  predicate Bracketed(u: seq<Byte>) {
    |u| >= 2 && u[0] == SOR && u[|u| - 1] == EOR
  }

  function EncodeAll(us: seq<seq<Byte>>): seq<seq<Byte>> {
    seq(|us|, i requires 0 <= i < |us| => Escaped(us[i]))
  }

  lemma {:induction false} CanonicalIsOpen(aware: bool, s: seq<Byte>)
    requires Canonical(s)
    ensures OpenBody(aware, s)
    decreases |s|
  {
    if s == [] {
    } else if s[0] == ESC {
      CanonicalIsOpen(aware, s[2..]);
      assert s[1..][1..] == s[2..];
    } else {
      CanonicalIsOpen(aware, s[1..]);
    }
  }

  /** A frame behind whose first byte nothing looks like the start of one. */
  ghost predicate Joinable(aware: bool, w: seq<Byte>) {
    IsFrame(aware, w) && forall i :: 0 < i <= |w| ==> IsGap(w[i..])
  }

  lemma EncodedIsFrame(aware: bool, u: seq<Byte>)
    requires Bracketed(u)
    ensures Joinable(aware, Escaped(u)) && !Dangling(Body(Escaped(u)))
  {
    var f := Escaped(u);
    UnescapeEscape(u);
    CanonicalFacts(Body(f));
    CanonicalIsOpen(aware, Body(f));
    assert f[..|f| - 1][1..] == Body(f);
    assert f[1..] == Body(f) + [EOR];
    forall i | 0 < i <= |f| ensures IsGap(f[i..]) {
      assert forall b :: b in f[i..] ==> b in f[1..];
    }
  }

  /** Number of frames that start before offset k. */
  function StartedBefore(ws: seq<seq<Byte>>, k: nat): (n: nat)
    ensures n <= |ws|
  {
    if ws == [] || k == 0 then 0
    else 1 + StartedBefore(ws[1..], if k <= |ws[0]| then 0 else k - |ws[0]|)
  }

  /** Offset in the stream at which frame i starts. */
  function StartOf(ws: seq<seq<Byte>>, i: nat): nat
    requires i <= |ws|
  {
    if i == 0 then 0 else |ws[0]| + StartOf(ws[1..], i - 1)
  }

  lemma {:induction false} StartedBeforeMeaning(ws: seq<seq<Byte>>, k: nat, i: nat)
    requires i < |ws|
    requires forall w :: w in ws ==> w != []
    ensures i < StartedBefore(ws, k) <==> StartOf(ws, i) < k
    decreases |ws|
  {
    if k > 0 && i > 0 {
      assert forall w :: w in ws[1..] ==> w in ws;
      StartedBeforeMeaning(ws[1..], if k <= |ws[0]| then 0 else k - |ws[0]|, i - 1);
    }
  }

  lemma {:induction false} ScanFrames(aware: bool, ws: seq<seq<Byte>>)
    requires forall w :: w in ws ==> IsFrame(aware, w)
    ensures ScanFrom(aware, [], Concat(ws)) == Scan(ws, [])
    decreases |ws|
  {
    if ws == [] {
    } else {
      var tail := Concat(ws[1..]);
      ScanFrames(aware, ws[1..]);
      assert ws[0] in ws;
      ScanFrame(aware, ws[0]);
      ScanAppend(aware, [], ws[0], tail);
      assert [ws[0]] + ws[1..] == ws;
    }
  }

  /**
   * A receiver that joins at any offset of a stream of encoded records, and gets the rest in any
   * chunks, cuts out exactly the records that start at or behind that offset.
   */
  lemma SelfSynchronisation(aware: bool, us: seq<seq<Byte>>, k: nat, chunks: seq<seq<Byte>>)
    requires forall u :: u in us ==> Bracketed(u)
    requires k <= |Concat(EncodeAll(us))|
    requires Concat(chunks) == Concat(EncodeAll(us))[k..]
    ensures ScanChunks(aware, [], chunks) == Scan(EncodeAll(us)[StartedBefore(EncodeAll(us), k)..], [])
  {
    ChunkingIndependence(aware, [], chunks);
    var ws := EncodeAll(us);
    forall w | w in ws ensures Joinable(aware, w) {
      var i :| 0 <= i < |us| && w == Escaped(us[i]);
      assert us[i] in us;
      EncodedIsFrame(aware, us[i]);
    }
    ScanSuffix(aware, ws, k);
  }

  lemma SkipGap(aware: bool, g: seq<Byte>, s: seq<Byte>)
    requires IsGap(g)
    ensures ScanFrom(aware, [], g + s) == ScanFrom(aware, [], s)
  {
    ScanGarbage(aware, g);
    ScanAppend(aware, [], g, s);
  }

  lemma {:induction false} ScanSuffix(aware: bool, ws: seq<seq<Byte>>, k: nat)
    requires forall w :: w in ws ==> Joinable(aware, w)
    requires k <= |Concat(ws)|
    ensures ScanFrom(aware, [], Concat(ws)[k..]) == Scan(ws[StartedBefore(ws, k)..], [])
    decreases |ws|
  {
    if ws == [] || k == 0 {
      assert Concat(ws)[0..] == Concat(ws);
      ScanFrames(aware, ws);
    } else {
      var w, ws' := ws[0], ws[1..];
      var k' := if k <= |w| then 0 else k - |w|;
      ScanSuffix(aware, ws', k');
      var n := StartedBefore(ws', k');
      DropDrop(ws, 1, n);
      assert w in ws;
      ScanBehindFirst(aware, w, Concat(ws'), k);
    }
  }

  lemma ScanBehindFirst(aware: bool, w: seq<Byte>, tail: seq<Byte>, k: nat)
    requires 0 < k <= |w| + |tail|
    requires forall i :: 0 < i <= |w| ==> IsGap(w[i..])
    ensures ScanFrom(aware, [], (w + tail)[k..])
            == ScanFrom(aware, [], tail[if k <= |w| then 0 else k - |w|..])
  {
    if k <= |w| {
      assert (w + tail)[k..] == w[k..] + tail && tail[0..] == tail;
      SkipGap(aware, w[k..], tail);
    } else {
      assert (w + tail)[k..] == tail[k - |w|..];
    }
  }

  // ---- The gateway's one-shot splitter ----

  /** Having cut frames from data[..i], with cur unfinished, the scanner still has data[i..] to read. */
  ghost predicate Reaches(aware: bool, data: seq<Byte>, frames: seq<seq<Byte>>, cur: seq<Byte>, i: nat)
    requires i <= |data|
  {
    var r := ScanFrom(aware, cur, data[i..]);
    ScanFrom(aware, [], data) == Scan(frames + r.frames, r.cur)
  }

  lemma ReachesNext(aware: bool, data: seq<Byte>, frames: seq<seq<Byte>>, cur: seq<Byte>, i: nat)
    requires i < |data| && Reaches(aware, data, frames, cur, i)
    ensures var step := Advance(aware, cur, data[i]);
            Reaches(aware, data, frames + step.frames, step.cur, i + 1)
  {
    var step := Advance(aware, cur, data[i]);
    assert data[i..][0] == data[i] && data[i..][1..] == data[i + 1..];
    Assoc(frames, step.frames, ScanFrom(aware, step.cur, data[i + 1..]).frames);
  }

  method Split(data: seq<Byte>) returns (frames: seq<seq<Byte>>)
    ensures frames == ScanFrom(false, [], data).frames
  {
    frames := [];
    var start := -1;
    ghost var cur := [];
    assert data[0..] == data;
    for i := 0 to |data|
      invariant -1 <= start < i
      invariant cur == if start == -1 then [] else data[start..i]
      invariant Reaches(false, data, frames, cur, i)
    {
      var b := data[i];
      ReachesNext(false, data, frames, cur, i);
      if start == -1 {
        assert frames + [] == frames;
        if b == SOR {
          start := i;
          cur := [b];
        }
        continue;
      }
      assert data[start..i + 1] == cur + [b];
      if b == EOR {
        frames := frames + [data[start..i + 1]];
        start := -1;
        cur := [];
      } else {
        assert frames + [] == frames;
        cur := cur + [b];
      }
    }
    assert data[|data|..] == [];
  }

  // ---- The web client's streaming splitter ----

  /** Scanning a retained buffer again, followed by new bytes, is scanning on from it. */
  lemma ResidueScans(buf: seq<Byte>, chunk: seq<Byte>)
    requires IsResidue(true, buf)
    ensures ScanFrom(true, [], buf + chunk) == ScanFrom(true, buf, chunk)
  {
    if buf != [] {
      ScanOpen(true, buf);
    }
    ScanAppend(true, [], buf, chunk);
  }

  lemma SkipToSor(buf: seq<Byte>, frames: seq<seq<Byte>>, from: nat, start: nat)
    requires from <= start <= |buf| && Reaches(true, buf, frames, [], from) && IsGap(buf[from..start])
    ensures Reaches(true, buf, frames, [], start)
  {
    assert buf[from..] == buf[from..start] + buf[start..];
    SkipGap(true, buf[from..start], buf[start..]);
  }

  lemma TakeFrame(buf: seq<Byte>, frames: seq<seq<Byte>>, start: nat, end: nat)
    requires start <= end <= |buf| && Reaches(true, buf, frames, [], start) && IsFrame(true, buf[start..end])
    ensures Reaches(true, buf, frames + [buf[start..end]], [], end)
  {
    var f := buf[start..end];
    assert buf[start..] == f + buf[end..];
    ScanFrame(true, f);
    ScanAppend(true, [], f, buf[end..]);
    Assoc(frames, [f], ScanFrom(true, [], buf[end..]).frames);
  }

  lemma SliceNext(buf: seq<Byte>, start: nat, j: nat)
    requires start <= j < |buf|
    ensures buf[start..j + 1] == buf[start..j] + [buf[j]]
  {}

  lemma StartsOpen(buf: seq<Byte>, start: nat)
    requires start < |buf| && buf[start] == SOR
    ensures IsOpen(true, buf[start..start + 1]) && !Dangling(buf[start..start + 1][1..])
  {
    assert buf[start..start + 1] == [SOR] && [SOR][1..] == [];
  }

  /** One byte other than ESC behind an unfinished frame with no escape pending. */
  lemma PlainByte(p: seq<Byte>, b: Byte)
    requires IsOpen(true, p) && !Dangling(p[1..]) && b != ESC
    ensures if b == EOR then IsFrame(true, p + [b]) else IsOpen(true, p + [b]) && !Dangling((p + [b])[1..])
  {
    assert (p + [b])[1..] == p[1..] + [b];
    OpenSnoc(true, p, b);
    DanglingSnoc(p[1..], b);
  }

  /** An escape pair behind an unfinished frame with no escape pending. */
  lemma EscapePair(p: seq<Byte>, c: Byte)
    requires IsOpen(true, p) && !Dangling(p[1..])
    ensures IsOpen(true, p + [ESC]) && IsOpen(true, p + [ESC] + [c]) && !Dangling((p + [ESC] + [c])[1..])
  {
    var q := p + [ESC];
    assert q[1..] == p[1..] + [ESC];
    OpenSnoc(true, p, ESC);
    DanglingSnoc(p[1..], ESC);
    assert (q + [c])[1..] == q[1..] + [c];
    OpenSnoc(true, q, c);
    DanglingSnoc(q[1..], c);
  }

  class FrameStream {
    var buf: seq<Byte>
    ghost var history: seq<Byte>           // bytes pushed since the last reset
    ghost var emitted: seq<seq<Byte>>      // frames returned since the last reset

    /** The retained buffer and everything returned so far are the one-shot scan of the history. */
    ghost predicate Valid()
      reads this
    {
      ScanFrom(true, [], history) == Scan(emitted, buf)
    }

    constructor ()
      ensures Valid() && buf == [] && history == [] && emitted == []
    {
      buf, history, emitted := [], [], [];
    }

    method Push(chunk: seq<Byte>) returns (frames: seq<seq<Byte>>)
      requires Valid()
      modifies this
      ensures Valid()
      ensures history == old(history) + chunk && emitted == old(emitted) + frames
      ensures ScanFrom(true, old(buf), chunk) == Scan(frames, buf)
      ensures IsResidue(true, buf) && forall f :: f in frames ==> IsFrame(true, f)
    {
      ScanWellFormed(true, [], history);
      ScanAppend(true, [], history, chunk);
      ScanWellFormed(true, buf, chunk);
      if |chunk| == 0 {
        frames := [];
        history, emitted := history + chunk, emitted + frames;
        return;
      }
      ResidueScans(buf, chunk);
      history := history + chunk;
      buf := buf + chunk;
      frames := CutBuffer();
      emitted := emitted + frames;
    }

    /** The scan loop of a push: cuts the frames out of the buffer and drops what was consumed. */
    method CutBuffer() returns (frames: seq<seq<Byte>>)
      modifies this`buf
      ensures ScanFrom(true, [], old(buf)) == Scan(frames, buf)
    {
      frames := [];
      var scanFrom := 0;
      var waiting := false;
      assert buf[0..] == buf;
      while scanFrom < |buf| && !waiting
        invariant buf == old(buf) && 0 <= scanFrom <= |buf|
        invariant Reaches(true, buf, frames, [], scanFrom)
        invariant waiting ==> scanFrom < |buf| && IsOpen(true, buf[scanFrom..])
        decreases |buf| - scanFrom, !waiting
      {
        var start := NextSor(scanFrom);
        SkipToSor(buf, frames, scanFrom, start);
        if start >= |buf| {
          scanFrom := |buf|;
          break;
        }
        var endIdx := NextEor(start);
        if endIdx == -1 {
          scanFrom := start;
          waiting := true;
        } else {
          TakeFrame(buf, frames, start, endIdx + 1);
          frames := frames + [buf[start..endIdx + 1]];
          scanFrom := endIdx + 1;
        }
      }
      if waiting {
        ScanOpen(true, buf[scanFrom..]);
      } else {
        assert buf[scanFrom..] == [];
      }
      buf := if scanFrom >= |buf| then [] else buf[scanFrom..];
    }

    /** First SOR at or behind from, or the end of the buffer. */
    method NextSor(from: nat) returns (start: nat)
      requires from <= |buf|
      ensures from <= start <= |buf| && SOR !in buf[from..start]
      ensures start < |buf| ==> buf[start] == SOR
    {
      start := from;
      while start < |buf| && buf[start] != SOR
        invariant from <= start <= |buf| && SOR !in buf[from..start]
      {
        assert buf[from..start + 1] == buf[from..start] + [buf[start]];
        start := start + 1;
      }
    }

    /** The EOR that ends the frame starting at start, or -1 when it is not in the buffer yet. */
    method NextEor(start: nat) returns (endIdx: int)
      requires start < |buf| && buf[start] == SOR
      ensures endIdx == -1 || start < endIdx < |buf|
      ensures endIdx == -1 ==> IsOpen(true, buf[start..])
      ensures endIdx != -1 ==> IsFrame(true, buf[start..endIdx + 1])
    {
      hide Dangling, OpenBody, IsFrame;
      var j := start + 1;
      endIdx := -1;
      StartsOpen(buf, start);
      while j < |buf|
        invariant start < j <= |buf|
        invariant IsOpen(true, buf[start..j]) && !Dangling(buf[start..j][1..])
      {
        var b := buf[j];
        ghost var p := buf[start..j];
        if b == ESC {
          SliceNext(buf, start, j);
          if j + 1 >= |buf| {
            EscapePair(p, 0);
            assert buf[start..j + 1] == buf[start..];
            return -1;
          }
          EscapePair(p, buf[j + 1]);
          SliceNext(buf, start, j + 1);
          j := j + 2;
          continue;
        }
        PlainByte(p, b);
        SliceNext(buf, start, j);
        if b == EOR {
          return j;
        }
        j := j + 1;
      }
      assert buf[start..j] == buf[start..];
    }

    method Reset()
      modifies this
      ensures Valid() && buf == [] && history == [] && emitted == []
    {
      buf := [];
      history, emitted := [], [];
    }
  }
}

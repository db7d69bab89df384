/**
 * The capture anonymizer (gateway/cmd/anonymize/main.go): every 4-byte TRANSPONDER of a PASSING
 * frame is replaced by a number assigned in order of first appearance. The one-pass rewrite is
 * proved equal to renaming with the final table, and from that follow idempotence and the
 * commutation with decoding.
 */
module Anonymize {
  import opened Bytes
  import opened Wire
  import opened Tlv
  import opened Framing
  import opened Records
  import opened Encoder

  // ---- First-seen numbering ----

  predicate Distinct(s: seq<U32>) {
    forall i, j :: 0 <= i < j < |s| ==> s[i] != s[j]
  }

  /** The different elements of s, in order of first appearance. */
  function FirstSeen(s: seq<U32>): seq<U32> {
    if s == [] then []
    else
      var seen := FirstSeen(s[..|s| - 1]);
      var x := s[|s| - 1];
      if x in seen then seen else seen + [x]
  }

  /** The number given to the entry at index i of the table, as a 32-bit integer. */
  function Synthetic(i: nat): U32 { (i + 1) % WORD32 }

  function IndexOf(ids: seq<U32>, x: U32): (i: nat)
    requires x in ids
    ensures i < |ids| && ids[i] == x && x !in ids[..i]
  {
    if ids[0] == x then 0
    else
      var i := 1 + IndexOf(ids[1..], x);
      assert ids[..i] == [ids[0]] + ids[1..][..i - 1];
      i
  }

  function Rename(ids: seq<U32>, x: U32): U32 {
    if x in ids then Synthetic(IndexOf(ids, x)) else x
  }

  lemma IndexUnique(ids: seq<U32>, i: nat)
    requires Distinct(ids) && i < |ids|
    ensures IndexOf(ids, ids[i]) == i
  {}

  lemma {:induction false} FirstSeenBasics(s: seq<U32>)
    ensures Distinct(FirstSeen(s))
    ensures forall x :: x in FirstSeen(s) <==> x in s
    decreases |s|
  {
    if s == [] {
    } else {
      FirstSeenBasics(s[..|s| - 1]);
      assert s == s[..|s| - 1] + [s[|s| - 1]];
    }
  }

  lemma FirstSeenSnoc(s: seq<U32>, x: U32)
    ensures FirstSeen(s + [x]) == if x in FirstSeen(s) then FirstSeen(s) else FirstSeen(s) + [x]
  {
    assert (s + [x])[..|s|] == s;
  }

  /** Reading on only ever appends to the table. */
  lemma {:induction false} FirstSeenGrows(s: seq<U32>, t: seq<U32>)
    ensures FirstSeen(s) <= FirstSeen(s + t)
    decreases |t|
  {
    if t == [] {
      assert s + t == s;
    } else {
      var t', x := t[..|t| - 1], t[|t| - 1];
      assert s + t == s + t' + [x];
      FirstSeenGrows(s, t');
      FirstSeenSnoc(s + t', x);
    }
  }

  /** Entry i of the table first appears at a point where exactly the entries before it have appeared. */
  lemma {:induction false} FirstSeenOrder(s: seq<U32>, i: nat) returns (p: nat)
    requires i < |FirstSeen(s)|
    ensures p < |s| && s[p] == FirstSeen(s)[i] && s[p] !in s[..p]
    ensures FirstSeen(s[..p]) == FirstSeen(s)[..i]
    decreases |s|
  {
    var s', x := s[..|s| - 1], s[|s| - 1];
    FirstSeenBasics(s');
    if i < |FirstSeen(s')| {
      p := FirstSeenOrder(s', i);
      assert s[..p] == s'[..p];
    } else {
      p := |s| - 1;
    }
  }

  lemma {:induction false} BoundedCount(s: set<int>, n: nat)
    requires forall x :: x in s ==> 0 <= x < n
    ensures |s| <= n
  {
    if n == 0 {
      assert forall x :: x !in s;
      assert s == {};
    } else {
      BoundedCount(s - {n - 1}, n - 1);
    }
  }

  lemma {:induction false} DistinctCount(ids: seq<U32>) returns (s: set<int>)
    requires Distinct(ids)
    ensures |s| == |ids|
    ensures forall x :: x in s <==> x in ids
    decreases |ids|
  {
    if ids == [] {
      s := {};
    } else {
      var rest, x := ids[..|ids| - 1], ids[|ids| - 1];
      s := DistinctCount(rest);
      s := s + {x as int};
      assert ids == rest + [x];
    }
  }

  lemma AtMostAllNumbers(ids: seq<U32>)
    requires Distinct(ids)
    ensures |ids| <= WORD32
  {
    var s := DistinctCount(ids);
    BoundedCount(s, WORD32);
  }

  /** There are never more entries than 32-bit numbers, so no two entries share a number. */
  lemma SyntheticInjective(ids: seq<U32>, i: nat, j: nat)
    requires Distinct(ids) && i < |ids| && j < |ids|
    ensures Synthetic(i) == Synthetic(j) <==> i == j
  {
    AtMostAllNumbers(ids);
  }

  // ---- Fields, frames, streams ----

  predicate IsTransponder(f: Field) { f.id == TRANSPONDER && |f.value| == 4 }

  function IdOf(f: Field): U32
    requires IsTransponder(f)
  {
    RangeValues();
    GetLE(f.value)
  }

  /** The transponders in a list of fields, in order. */
  function Ids(fs: seq<Field>): seq<U32> {
    if fs == [] then []
    else
      var f := fs[|fs| - 1];
      Ids(fs[..|fs| - 1]) + if IsTransponder(f) then [IdOf(f)] else []
  }

  predicate IsPassing(unesc: seq<Byte>) {
    ParseHeader(unesc).Some? && ParseHeader(unesc).value.tor == TOR_PASSING
  }

  function UnescIds(unesc: seq<Byte>): seq<U32> {
    if IsPassing(unesc) then Ids(Fields(TlvBytes(unesc))) else []
  }

  /** The transponders of a stream of frames, in order. */
  function AllIds(ws: seq<seq<Byte>>): seq<U32> {
    if ws == [] then [] else AllIds(ws[..|ws| - 1]) + UnescIds(Unescaped(ws[|ws| - 1]))
  }

  function RenamedField(ids: seq<U32>, f: Field): Field {
    if IsTransponder(f) then Field(f.id, PutLE(Rename(ids, IdOf(f)), 4)) else f
  }

  function RenamedFields(ids: seq<U32>, fs: seq<Field>): seq<Field> {
    seq(|fs|, i requires 0 <= i < |fs| => RenamedField(ids, fs[i]))
  }

  /** Header, truncated tail and closing byte stay; every complete field is renamed. */
  function RenamedUnesc(ids: seq<U32>, unesc: seq<Byte>): seq<Byte> {
    if |unesc| < HEADER_SIZE + 1 then unesc
    else
      var body := TlvBytes(unesc);
      EncodedOfFields(body);
      unesc[..HEADER_SIZE] + (EncodeFields(RenamedFields(ids, Fields(body))) + Tail(body)) + [unesc[|unesc| - 1]]
  }

  /** A frame without a transponder to rename is passed on byte by byte. */
  function RenamedFrame(ids: seq<U32>, w: seq<Byte>): seq<Byte> {
    if UnescIds(Unescaped(w)) == [] then w else Escaped(RenamedUnesc(ids, Unescaped(w)))
  }

  function RenamedFrames(ids: seq<U32>, ws: seq<seq<Byte>>): seq<seq<Byte>> {
    seq(|ws|, i requires 0 <= i < |ws| => RenamedFrame(ids, ws[i]))
  }

  function GoFrames(raw: seq<Byte>): seq<seq<Byte>> { ScanFrom(false, [], raw).frames }

  /** The table at the end of the stream. */
  function FinalIds(raw: seq<Byte>): seq<U32> { FirstSeen(AllIds(GoFrames(raw))) }

  /** Two passes: first collect the table, then rename with it. */
  function Anonymized(raw: seq<Byte>): seq<Byte> {
    Concat(RenamedFrames(FinalIds(raw), GoFrames(raw)))
  }

  // ---- Renaming one frame ----

  lemma RenameFieldFacts(ids: seq<U32>, f: Field)
    ensures var g := RenamedField(ids, f);
            && g.id == f.id && |g.value| == |f.value|
            && (IsTransponder(f) ==> IsTransponder(g) && IdOf(g) == Rename(ids, IdOf(f)))
  {
    if IsTransponder(f) {
      RangeValues();
      GetPutLE(Rename(ids, IdOf(f)), 4);
    }
  }

  function RenamedIds(ids: seq<U32>, s: seq<U32>): seq<U32> {
    seq(|s|, i requires 0 <= i < |s| => Rename(ids, s[i]))
  }

  lemma {:induction false} RenamedFieldsIds(ids: seq<U32>, fs: seq<Field>)
    ensures Ids(RenamedFields(ids, fs)) == RenamedIds(ids, Ids(fs))
    decreases |fs|
  {
    if fs == [] {
    } else {
      var rest, f := fs[..|fs| - 1], fs[|fs| - 1];
      RenamedFieldsIds(ids, rest);
      RenameFieldFacts(ids, f);
      assert RenamedFields(ids, fs)[..|fs| - 1] == RenamedFields(ids, rest);
    }
  }

  lemma {:induction false} RenamedFieldsLength(ids: seq<U32>, fs: seq<Field>)
    requires forall f :: f in fs ==> |f.value| < 0x100
    ensures forall f :: f in RenamedFields(ids, fs) ==> |f.value| < 0x100
    ensures |EncodeFields(RenamedFields(ids, fs))| == |EncodeFields(fs)|
    decreases |fs|
  {
    forall i | 0 <= i < |fs| ensures |RenamedFields(ids, fs)[i].value| < 0x100 {
      assert fs[i] in fs;
      RenameFieldFacts(ids, fs[i]);
    }
    if fs == [] {
    } else {
      assert RenamedFields(ids, fs)[1..] == RenamedFields(ids, fs[1..]);
      assert fs[0] in fs;
      RenameFieldFacts(ids, fs[0]);
      RenamedFieldsLength(ids, fs[1..]);
    }
  }

  /** What renaming keeps of an unescaped frame: everything but the values of its transponders. */
  lemma RenamedUnescFacts(ids: seq<U32>, u: seq<Byte>)
    ensures var v := RenamedUnesc(ids, u);
            && |v| == |u|
            && ParseHeader(v) == ParseHeader(u)
            && (|u| >= HEADER_SIZE + 1 ==> v[..HEADER_SIZE] == u[..HEADER_SIZE] && v[|v| - 1] == u[|u| - 1])
            && Fields(TlvBytes(v)) == RenamedFields(ids, Fields(TlvBytes(u)))
            && Tail(TlvBytes(v)) == Tail(TlvBytes(u))
  {
    if |u| < HEADER_SIZE + 1 {
      assert RenamedFields(ids, []) == [];
    } else {
      var body := TlvBytes(u);
      EncodedOfFields(body);
      var fs := Fields(body);
      RenamedFieldsLength(ids, fs);
      var body' := EncodeFields(RenamedFields(ids, fs)) + Tail(body);
      assert |body'| == |body|;
      FieldsOfEncoded(RenamedFields(ids, fs), Tail(body));
      ReplacedBody(u, body');
    }
  }

  lemma ReplacedBody(u: seq<Byte>, body: seq<Byte>)
    requires |u| == HEADER_SIZE + |body| + 1
    ensures var v := u[..HEADER_SIZE] + body + [u[|u| - 1]];
            && |v| == |u| && TlvBytes(v) == body && ParseHeader(v) == ParseHeader(u)
            && v[..HEADER_SIZE] == u[..HEADER_SIZE]
  {
    var v := u[..HEADER_SIZE] + body + [u[|u| - 1]];
    assert v[1] == u[1];
    assert v[2..4] == u[2..4] && v[4..6] == u[4..6] && v[6..8] == u[6..8] && v[8..10] == u[8..10];
  }

  lemma RenamedUnescIds(ids: seq<U32>, u: seq<Byte>)
    ensures UnescIds(RenamedUnesc(ids, u)) == RenamedIds(ids, UnescIds(u))
  {
    RenamedUnescFacts(ids, u);
    RenamedFieldsIds(ids, Fields(TlvBytes(u)));
  }

  /** The renamed frame, unescaped again. */
  lemma RenamedFrameFacts(aware: bool, ids: seq<U32>, w: seq<Byte>)
    requires IsFrame(aware, w)
    ensures var w' := RenamedFrame(ids, w);
            && IsFrame(aware, w')
            && (UnescIds(Unescaped(w)) != [] ==> Unescaped(w') == RenamedUnesc(ids, Unescaped(w)) && !Dangling(Body(w')))
            && UnescIds(Unescaped(w')) == RenamedIds(ids, UnescIds(Unescaped(w)))
  {
    var u := Unescaped(w);
    RenamedUnescIds(ids, u);
    if UnescIds(u) != [] {
      RenamedUnescFacts(ids, u);
      var v := RenamedUnesc(ids, u);
      assert |u| >= HEADER_SIZE + 1;
      assert v[0] == u[0] by { assert v[0] == v[..HEADER_SIZE][0] && u[0] == u[..HEADER_SIZE][0]; }
      assert u[0] == w[0] == w[..|w| - 1][0] && u[|u| - 1] == w[|w| - 1];
      UnescapeEscape(v);
      EncodedIsFrame(aware, v);
    }
  }

  // ---- What holds of whole streams ----

  lemma AllIdsSnoc(ws: seq<seq<Byte>>, w: seq<Byte>)
    ensures AllIds(ws + [w]) == AllIds(ws) + UnescIds(Unescaped(w))
  {
    assert (ws + [w])[..|ws|] == ws;
  }

  lemma RenamedIdsAppend(ids: seq<U32>, s: seq<U32>, t: seq<U32>)
    ensures RenamedIds(ids, s + t) == RenamedIds(ids, s) + RenamedIds(ids, t)
  {}

  lemma RenamedFramesSnoc(ids: seq<U32>, ws: seq<seq<Byte>>, w: seq<Byte>)
    ensures RenamedFrames(ids, ws + [w]) == RenamedFrames(ids, ws) + [RenamedFrame(ids, w)]
  {}

  lemma RenamedFramesAreFrames(aware: bool, ids: seq<U32>, ws: seq<seq<Byte>>)
    requires forall w :: w in ws ==> IsFrame(aware, w)
    ensures forall w :: w in RenamedFrames(ids, ws) ==> IsFrame(aware, w)
  {
    forall i | 0 <= i < |ws| ensures IsFrame(aware, RenamedFrame(ids, ws[i])) {
      assert ws[i] in ws;
      RenamedFrameFacts(aware, ids, ws[i]);
    }
  }

  lemma {:induction false} RenamedFramesIds(aware: bool, ids: seq<U32>, ws: seq<seq<Byte>>)
    requires forall w :: w in ws ==> IsFrame(aware, w)
    ensures AllIds(RenamedFrames(ids, ws)) == RenamedIds(ids, AllIds(ws))
    decreases |ws|
  {
    if ws == [] {
    } else {
      var rest, w := ws[..|ws| - 1], ws[|ws| - 1];
      assert ws == rest + [w];
      assert w in ws;
      RenamedFramesIds(aware, ids, rest);
      RenamedFramesIdsStep(aware, ids, rest, w);
    }
  }

  lemma RenamedFramesIdsStep(aware: bool, ids: seq<U32>, ws: seq<seq<Byte>>, w: seq<Byte>)
    requires IsFrame(aware, w)
    requires AllIds(RenamedFrames(ids, ws)) == RenamedIds(ids, AllIds(ws))
    ensures AllIds(RenamedFrames(ids, ws + [w])) == RenamedIds(ids, AllIds(ws + [w]))
  {
    RenamedFrameFacts(aware, ids, w);
    RenamedFramesSnoc(ids, ws, w);
    AllIdsSnoc(RenamedFrames(ids, ws), RenamedFrame(ids, w));
    AllIdsSnoc(ws, w);
    RenamedIdsAppend(ids, AllIds(ws), UnescIds(Unescaped(w)));
  }

  /** The anonymized stream splits into the renamed frames, one for one. */
  lemma FramesOfAnonymized(raw: seq<Byte>)
    ensures GoFrames(Anonymized(raw)) == RenamedFrames(FinalIds(raw), GoFrames(raw))
    ensures |GoFrames(Anonymized(raw))| == |GoFrames(raw)|
  {
    ScanWellFormed(false, [], raw);
    RenamedFramesAreFrames(false, FinalIds(raw), GoFrames(raw));
    ScanFrames(false, RenamedFrames(FinalIds(raw), GoFrames(raw)));
  }

  lemma {:induction false} FirstSeenRenamed(ids: seq<U32>, s: seq<U32>)
    requires Distinct(ids) && forall x :: x in s ==> x in ids
    ensures FirstSeen(RenamedIds(ids, s)) == RenamedIds(ids, FirstSeen(s))
    decreases |s|
  {
    if s == [] {
    } else {
      var s', x := s[..|s| - 1], s[|s| - 1];
      TakeNext(s, |s| - 1);
      assert x in s;
      FirstSeenRenamed(ids, s');
      FirstSeenBasics(s');
      assert RenamedIds(ids, s)[..|s| - 1] == RenamedIds(ids, s');
      var seen := FirstSeen(s');
      var renamed := RenamedIds(ids, seen);
      if x in seen {
        var k :| 0 <= k < |seen| && seen[k] == x;
        assert renamed[k] == Rename(ids, x);
      } else if Rename(ids, x) in renamed {
        var k :| 0 <= k < |seen| && renamed[k] == Rename(ids, x);
        assert seen[k] in seen;
        SyntheticInjective(ids, IndexOf(ids, seen[k]), IndexOf(ids, x));
        assert false;
      }
    }
  }

  /** Renaming a table with itself gives the numbers in order, and renaming those changes nothing. */
  lemma RenameTwice(ids: seq<U32>, x: U32)
    requires Distinct(ids) && x in ids
    ensures Rename(RenamedIds(ids, ids), Rename(ids, x)) == Rename(ids, x)
  {
    var numbers := RenamedIds(ids, ids);
    forall k | 0 <= k < |ids| ensures numbers[k] == Synthetic(k) {
      IndexUnique(ids, k);
    }
    var i := IndexOf(ids, x);
    assert numbers[i] == Rename(ids, x);
    var j := IndexOf(numbers, Synthetic(i));
    SyntheticInjective(ids, i, j);
  }

  lemma RenamedFieldsTwice(ids: seq<U32>, fs: seq<Field>)
    requires Distinct(ids) && forall x :: x in Ids(fs) ==> x in ids
    ensures var fs' := RenamedFields(ids, fs); RenamedFields(RenamedIds(ids, ids), fs') == fs'
  {
    var fs', ids' := RenamedFields(ids, fs), RenamedIds(ids, ids);
    forall i | 0 <= i < |fs| ensures RenamedField(ids', fs'[i]) == fs'[i] {
      var f := fs[i];
      RenameFieldFacts(ids, f);
      if IsTransponder(f) {
        IdsContain(fs, i);
        RenameTwice(ids, IdOf(f));
        PutGetLE(fs'[i].value);
      }
    }
  }

  lemma {:induction false} IdsContain(fs: seq<Field>, i: nat)
    requires i < |fs| && IsTransponder(fs[i])
    ensures IdOf(fs[i]) in Ids(fs)
    decreases |fs|
  {
    if i < |fs| - 1 {
      IdsContain(fs[..|fs| - 1], i);
    }
  }

  lemma RenamedFrameTwice(aware: bool, ids: seq<U32>, w: seq<Byte>)
    requires IsFrame(aware, w) && Distinct(ids) && forall x :: x in UnescIds(Unescaped(w)) ==> x in ids
    ensures RenamedFrame(RenamedIds(ids, ids), RenamedFrame(ids, w)) == RenamedFrame(ids, w)
  {
    var u := Unescaped(w);
    if UnescIds(u) == [] {
    } else {
      RenamedFrameFacts(aware, ids, w);
      RenamedUnescFacts(ids, u);
      var v := RenamedUnesc(ids, u);
      RenamedFieldsTwice(ids, Fields(TlvBytes(u)));
      EncodedOfFields(TlvBytes(v));
      assert RenamedUnesc(RenamedIds(ids, ids), v) == v[..HEADER_SIZE] + TlvBytes(v) + [v[|v| - 1]] == v;
    }
  }

  lemma {:induction false} AllIdsContain(ws: seq<seq<Byte>>, i: nat, x: U32)
    requires i < |ws| && x in UnescIds(Unescaped(ws[i]))
    ensures x in AllIds(ws)
    decreases |ws|
  {
    if i < |ws| - 1 {
      AllIdsContain(ws[..|ws| - 1], i, x);
    }
  }

  /** Anonymizing a second time changes no byte, for every input. */
  lemma Idempotent(raw: seq<Byte>)
    ensures Anonymized(Anonymized(raw)) == Anonymized(raw)
  {
    var ws, ids := GoFrames(raw), FinalIds(raw);
    var ws' := RenamedFrames(ids, ws);
    FramesOfAnonymized(raw);
    ScanWellFormed(false, [], raw);
    RenamedFramesIds(false, ids, ws);
    FirstSeenBasics(AllIds(ws));
    FirstSeenRenamed(ids, AllIds(ws));
    assert FinalIds(Anonymized(raw)) == RenamedIds(ids, ids);
    forall i | 0 <= i < |ws| ensures RenamedFrame(RenamedIds(ids, ids), ws'[i]) == ws'[i] {
      assert ws[i] in ws;
      forall x | x in UnescIds(Unescaped(ws[i])) ensures x in ids { AllIdsContain(ws, i, x); }
      RenamedFrameTwice(false, ids, ws[i]);
    }
    assert RenamedFrames(RenamedIds(ids, ids), ws') == ws';
  }

  // ---- Decoding ----

  function RenamedResult(ids: seq<U32>, r: ParseResult): ParseResult {
    if r.Passing? && r.record.transponder < WORD32
    then Passing(r.record.(transponder := Rename(ids, r.record.transponder)))
    else r
  }

  /** A result without the frame bytes it may carry. */
  function WithoutRaw(r: ParseResult): ParseResult {
    match r
    case Unknown(tor, _) => Unknown(tor, [])
    case Malformed(reason, _) => Malformed(reason, [])
    case _ => r
  }

  function RenamedResults(ids: seq<U32>, rs: seq<ParseResult>): seq<ParseResult> {
    seq(|rs|, i requires 0 <= i < |rs| => WithoutRaw(RenamedResult(ids, rs[i])))
  }

  function ResultsWithoutRaw(rs: seq<ParseResult>): seq<ParseResult> {
    seq(|rs|, i requires 0 <= i < |rs| => WithoutRaw(rs[i]))
  }

  lemma {:induction false} LastOfRenamed(ids: seq<U32>, fs: seq<Field>, id: Byte, width: nat)
    ensures var last := LastOfWidth(fs, id, width);
            && (id == TRANSPONDER && width == 4 && last.Some? ==> last.value < WORD32)
            && LastOfWidth(RenamedFields(ids, fs), id, width)
               == if id == TRANSPONDER && width == 4 && last.Some? then Some(Rename(ids, last.value)) else last
    decreases |fs|
  {
    if fs == [] {
    } else {
      var rest, f := fs[..|fs| - 1], fs[|fs| - 1];
      assert RenamedFields(ids, fs)[..|fs| - 1] == RenamedFields(ids, rest);
      RenameFieldFacts(ids, f);
      RangeValues();
      LastOfRenamed(ids, rest, id, width);
    }
  }

  lemma WrongLengthRenamed(ids: seq<U32>, fs: seq<Field>)
    ensures (exists f :: f in RenamedFields(ids, fs) && WrongLength(f)) <==> (exists f :: f in fs && WrongLength(f))
  {
    var fs' := RenamedFields(ids, fs);
    forall i | 0 <= i < |fs| ensures WrongLength(fs'[i]) <==> WrongLength(fs[i]) {
      RenameFieldFacts(ids, fs[i]);
    }
    if f :| f in fs && WrongLength(f) {
      var i :| 0 <= i < |fs| && fs[i] == f;
      assert fs'[i] in fs';
    }
    if f :| f in fs' && WrongLength(f) {
      var i :| 0 <= i < |fs| && fs'[i] == f;
      assert fs[i] in fs;
    }
  }

  lemma PassingOfRenamed(ids: seq<U32>, fs: seq<Field>, raw: seq<Byte>, raw': seq<Byte>)
    ensures WithoutRaw(PassingOf(RenamedFields(ids, fs), raw')) == WithoutRaw(RenamedResult(ids, PassingOf(fs, raw)))
  {
    WrongLengthRenamed(ids, fs);
    LastOfRenamed(ids, fs, PASSING_NUMBER, 4);
    LastOfRenamed(ids, fs, TRANSPONDER, 4);
    LastOfRenamed(ids, fs, RTC_TIME, 8);
    LastOfRenamed(ids, fs, STRENGTH, 2);
    LastOfRenamed(ids, fs, HITS, 2);
    LastOfRenamed(ids, fs, FLAGS, 2);
    LastOfRenamed(ids, fs, DECODER_ID, 4);
  }

  lemma {:induction false} NoIdsNoTransponder(fs: seq<Field>)
    requires Ids(fs) == []
    ensures LastOfWidth(fs, TRANSPONDER, 4) == None
    decreases |fs|
  {
    if fs == [] {
    } else {
      NoIdsNoTransponder(fs[..|fs| - 1]);
    }
  }

  lemma ParseRenamedFrame(ids: seq<U32>, w: seq<Byte>)
    requires IsFrame(true, w)
    ensures WithoutRaw(Parse(RenamedFrame(ids, w))) == WithoutRaw(RenamedResult(ids, Parse(w)))
  {
    var u := Unescaped(w);
    if UnescIds(u) == [] {
      UnrenamedResult(ids, u, w);
    } else {
      var w' := RenamedFrame(ids, w);
      RenamedFrameFacts(true, ids, w);
      RenamedUnescFacts(ids, u);
      ParseRenamedUnesc(ids, u, RenamedUnesc(ids, u), w, w');
    }
  }

  lemma ParseRenamedUnesc(ids: seq<U32>, u: seq<Byte>, v: seq<Byte>, raw: seq<Byte>, raw': seq<Byte>)
    requires IsPassing(u) && |v| == |u| && ParseHeader(v) == ParseHeader(u)
    requires Fields(TlvBytes(v)) == RenamedFields(ids, Fields(TlvBytes(u)))
    ensures WithoutRaw(ParseUnescaped(v, raw')) == WithoutRaw(RenamedResult(ids, ParseUnescaped(u, raw)))
  {
    PassingOfRenamed(ids, Fields(TlvBytes(u)), raw, raw');
  }

  lemma UnrenamedResult(ids: seq<U32>, u: seq<Byte>, raw: seq<Byte>)
    requires UnescIds(u) == []
    ensures RenamedResult(ids, ParseUnescaped(u, raw)) == ParseUnescaped(u, raw)
  {
    if IsPassing(u) {
      NoIdsNoTransponder(Fields(TlvBytes(u)));
    }
  }

  /**
   * Decoding after anonymizing is renaming after decoding, for every stream in which no frame of
   * the splitter ends in a dangling escape.
   */
  lemma DecodingCommutes(raw: seq<Byte>)
    requires !HasDanglingFrame(GoFrames(raw))
    ensures ResultsWithoutRaw(Decode(Anonymized(raw))) == RenamedResults(FinalIds(raw), Decode(raw))
  {
    var ws, ids := GoFrames(raw), FinalIds(raw);
    FramersAgreeIff(raw);
    ScanWellFormed(true, [], raw);
    RenamedFramesAreFrames(true, ids, ws);
    ScanFrames(true, RenamedFrames(ids, ws));
    ParseRenamedFrames(ids, ws);
  }

  lemma ParseRenamedFrames(ids: seq<U32>, ws: seq<seq<Byte>>)
    requires forall w :: w in ws ==> IsFrame(true, w)
    ensures ResultsWithoutRaw(ParseAll(RenamedFrames(ids, ws))) == RenamedResults(ids, ParseAll(ws))
  {
    forall i | 0 <= i < |ws|
      ensures ResultsWithoutRaw(ParseAll(RenamedFrames(ids, ws)))[i] == RenamedResults(ids, ParseAll(ws))[i]
    {
      assert ws[i] in ws;
      ParseRenamedFrame(ids, ws[i]);
    }
  }

  /** In particular on every stream in which no ESC is directly followed by EOR. */
  lemma DecodingCommutesOnCleanStreams(raw: seq<Byte>)
    requires NoEscBeforeEor(raw)
    ensures ResultsWithoutRaw(Decode(Anonymized(raw))) == RenamedResults(FinalIds(raw), Decode(raw))
  {
    FramersAgree(raw);
    DecodingCommutes(raw);
  }

  // ---- What changes ----

  /** The two unescaped frames differ at most in the values of 4-byte TRANSPONDER fields. */
  ghost predicate SameButTransponders(ids: seq<U32>, u: seq<Byte>, v: seq<Byte>) {
    && |v| == |u|
    && (forall p :: 0 <= p < |u| && (p < HEADER_SIZE || p == |u| - 1) ==> v[p] == u[p])
    && Tail(TlvBytes(v)) == Tail(TlvBytes(u))
    && var fs, gs := Fields(TlvBytes(u)), Fields(TlvBytes(v));
       |gs| == |fs| && forall k :: 0 <= k < |fs| ==>
         if IsTransponder(fs[k]) then IsTransponder(gs[k]) && IdOf(gs[k]) == Rename(ids, IdOf(fs[k]))
         else gs[k] == fs[k]
  }

  /** Frame i of the output is frame i of the input up to renamed transponders of PASSING records. */
  lemma OnlyTranspondersChange(raw: seq<Byte>, i: nat)
    requires i < |GoFrames(raw)|
    ensures |GoFrames(Anonymized(raw))| == |GoFrames(raw)|
    ensures var u, v := Unescaped(GoFrames(raw)[i]), Unescaped(GoFrames(Anonymized(raw))[i]);
            if IsPassing(u) then SameButTransponders(FinalIds(raw), u, v) else v == u
  {
    var w, ids := GoFrames(raw)[i], FinalIds(raw);
    var u := Unescaped(w);
    FramesOfAnonymized(raw);
    ScanWellFormed(false, [], raw);
    assert w in GoFrames(raw);
    RenamedFrameFacts(false, ids, w);
    if UnescIds(u) == [] {
      forall k | 0 <= k < |Fields(TlvBytes(u))| && IsPassing(u) ensures !IsTransponder(Fields(TlvBytes(u))[k]) {
        if IsTransponder(Fields(TlvBytes(u))[k]) {
          IdsContain(Fields(TlvBytes(u)), k);
          assert false;
        }
      }
    } else {
      RenamedUnescKeeps(ids, u);
    }
  }

  lemma LongEnough(u: seq<Byte>)
    requires UnescIds(u) != []
    ensures |u| >= HEADER_SIZE + 1
  {}

  lemma EndsKept(u: seq<Byte>, v: seq<Byte>)
    requires |v| == |u| >= HEADER_SIZE + 1 && v[..HEADER_SIZE] == u[..HEADER_SIZE] && v[|v| - 1] == u[|u| - 1]
    ensures forall p :: 0 <= p < |u| && (p < HEADER_SIZE || p == |u| - 1) ==> v[p] == u[p]
  {
    forall p | 0 <= p < HEADER_SIZE ensures v[p] == u[p] {
      assert v[p] == v[..HEADER_SIZE][p] && u[p] == u[..HEADER_SIZE][p];
    }
  }

  lemma FieldsKept(ids: seq<U32>, fs: seq<Field>)
    ensures var gs := RenamedFields(ids, fs);
            |gs| == |fs| && forall k :: 0 <= k < |fs| ==>
              if IsTransponder(fs[k]) then IsTransponder(gs[k]) && IdOf(gs[k]) == Rename(ids, IdOf(fs[k]))
              else gs[k] == fs[k]
  {
    forall k | 0 <= k < |fs| ensures
      var g := RenamedField(ids, fs[k]);
      if IsTransponder(fs[k]) then IsTransponder(g) && IdOf(g) == Rename(ids, IdOf(fs[k])) else g == fs[k]
    {
      RenameFieldFacts(ids, fs[k]);
    }
  }

  lemma RenamedUnescKeeps(ids: seq<U32>, u: seq<Byte>)
    requires UnescIds(u) != []
    ensures SameButTransponders(ids, u, RenamedUnesc(ids, u))
  {
    LongEnough(u);
    hide Fields, Tail, TlvBytes, RenamedUnesc, ParseHeader, UnescIds, RenamedFields, Rename, IsTransponder, IdOf;
    RenamedUnescFacts(ids, u);
    EndsKept(u, RenamedUnesc(ids, u));
    FieldsKept(ids, Fields(TlvBytes(u)));
  }

  lemma SyntheticCounts(i: nat)
    requires i + 1 < WORD32
    ensures Synthetic(i) == i + 1
  {}

  /** The table lists each transponder of the stream once, and gives no number twice. */
  lemma TableFacts(raw: seq<Byte>)
    ensures Distinct(FinalIds(raw))
    ensures forall x :: x in FinalIds(raw) <==> x in AllIds(GoFrames(raw))
    ensures |FinalIds(raw)| <= WORD32
    ensures forall i :: 0 <= i < |FinalIds(raw)| && i + 1 < WORD32 ==> Synthetic(i) == i + 1
    ensures forall i, j :: 0 <= i < j < |FinalIds(raw)| ==> Synthetic(i) != Synthetic(j)
  {
    var ids := FinalIds(raw);
    FirstSeenBasics(AllIds(GoFrames(raw)));
    AtMostAllNumbers(ids);
    forall i | 0 <= i < |ids| && i + 1 < WORD32 ensures Synthetic(i) == i + 1 {
      SyntheticCounts(i);
    }
    forall i, j | 0 <= i < j < |ids| ensures Synthetic(i) != Synthetic(j) {
      SyntheticInjective(ids, i, j);
    }
  }

  // ---- The rewrite ----

  datatype MappingEntry = MappingEntry(original: U32, synthetic: U32)

  /** Both forms of the mapping table describe the list ids. */
  ghost predicate Table(byID: map<U32, U32>, ordered: seq<MappingEntry>, ids: seq<U32>) {
    && Distinct(ids)
    && |ordered| == |ids|
    && (forall i :: 0 <= i < |ids| ==> ordered[i] == MappingEntry(ids[i], Synthetic(i)))
    && (forall x :: x in byID <==> x in ids)
    && (forall i :: 0 <= i < |ids| ==> byID[ids[i]] == Synthetic(i))
  }

  lemma TableHit(byID: map<U32, U32>, ordered: seq<MappingEntry>, ids: seq<U32>, x: U32)
    requires Table(byID, ordered, ids)
    ensures x in byID <==> x in ids
    ensures x in byID ==> byID[x] == Synthetic(IndexOf(ids, x))
  {
    if x in ids {
      assert ids[IndexOf(ids, x)] == x;
    }
  }

  lemma TableAdd(byID: map<U32, U32>, ordered: seq<MappingEntry>, ids: seq<U32>, x: U32)
    requires Table(byID, ordered, ids) && x !in ids
    ensures var synth := Synthetic(|ordered|);
            Table(byID[x := synth], ordered + [MappingEntry(x, synth)], ids + [x])
  {}

  /** An entry keeps its number when the list goes on. */
  lemma RenameInLonger(ids: seq<U32>, final: seq<U32>, i: nat)
    requires i < |ids| && ids <= final && Distinct(final)
    ensures Rename(final, ids[i]) == Synthetic(i)
  {
    assert final[i] == ids[i];
    IndexUnique(final, i);
  }

  lemma FourBytes(v: nat)
    ensures PutLE(v, 4) == [v % 0x100, v / 0x100 % 0x100, v / 0x100 / 0x100 % 0x100, v / 0x100 / 0x100 / 0x100 % 0x100]
  {
    TwoBytes(v / 0x100 / 0x100);
    assert PutLE(v, 4) == [v % 0x100] + PutLE(v / 0x100, 3);
    assert PutLE(v / 0x100, 3) == [v / 0x100 % 0x100] + PutLE(v / 0x100 / 0x100, 2);
  }

  ghost function Done(ids: seq<U32>, u: seq<Byte>, fs: seq<Field>, k: nat): seq<Byte>
    requires |u| >= HEADER_SIZE && k <= |fs| && forall f :: f in fs ==> |f.value| < 0x100
  {
    RenamedFieldsLength(ids, fs[..k]);
    u[..HEADER_SIZE] + EncodeFields(RenamedFields(ids, fs[..k]))
  }

  ghost function ToDo(fs: seq<Field>, tail: seq<Byte>, last: Byte, k: nat): seq<Byte>
    requires k <= |fs| && forall f :: f in fs ==> |f.value| < 0x100
  {
    EncodeFields(fs[k..]) + (tail + [last])
  }

  lemma DoneNext(ids: seq<U32>, u: seq<Byte>, fs: seq<Field>, k: nat)
    requires |u| >= HEADER_SIZE && k < |fs| && forall f :: f in fs ==> |f.value| < 0x100
    ensures |RenamedField(ids, fs[k]).value| < 0x100
    ensures Done(ids, u, fs, k + 1) == Done(ids, u, fs, k) + EncodeField(RenamedField(ids, fs[k]))
  {
    TakeNext(fs, k);
    var done, f := RenamedFields(ids, fs[..k]), RenamedField(ids, fs[k]);
    assert RenamedFields(ids, fs[..k + 1]) == done + [f];
    RenamedFieldsLength(ids, fs[..k]);
    RenameFieldFacts(ids, fs[k]);
    EncodeFieldsSnoc(done, f);
    Assoc(u[..HEADER_SIZE], EncodeFields(done), EncodeField(f));
  }

  lemma ToDoNext(fs: seq<Field>, tail: seq<Byte>, last: Byte, k: nat)
    requires k < |fs| && forall f :: f in fs ==> |f.value| < 0x100
    ensures ToDo(fs, tail, last, k) == EncodeField(fs[k]) + ToDo(fs, tail, last, k + 1)
  {
    DropDrop(fs, k, 1);
    Assoc(EncodeField(fs[k]), EncodeFields(fs[k + 1..]), tail + [last]);
  }

  lemma Overwrite(done: seq<Byte>, id: Byte, value: seq<Byte>, value': seq<Byte>, rest: seq<Byte>)
    requires |value| == |value'| < 0x100
    ensures var b, at := done + (EncodeField(Field(id, value)) + rest), |done| + 2;
            b[..at] + value' + b[at + |value|..] == done + EncodeField(Field(id, value')) + rest
  {
    var b, at := done + (EncodeField(Field(id, value)) + rest), |done| + 2;
    assert b[..at] == done + [id, |value|];
    assert b[at + |value|..] == rest;
  }

  /** What a walk standing behind k fields sees: the next field, or a truncated one, or the end. */
  lemma WalkReads(b: seq<Byte>, done: seq<Byte>, fs: seq<Field>, tail: seq<Byte>, last: Byte, k: nat)
    requires k <= |fs| && forall f :: f in fs ==> |f.value| < 0x100
    requires Truncated(tail) && b == done + ToDo(fs, tail, last, k)
    ensures var at, size := |done|, |b| - 1;
            if k < |fs| then
              at + 2 + |fs[k].value| <= size && b[at] == fs[k].id && b[at + 1] == |fs[k].value|
              && b[at + 2..at + 2 + |fs[k].value|] == fs[k].value
            else at + 2 > size || at + 2 + b[at + 1] > size
  {
    var rest := ToDo(fs, tail, last, k);
    if k < |fs| {
      var f := fs[k];
      ToDoNext(fs, tail, last, k);
      assert rest[0] == f.id && rest[1] == |f.value| && rest[2..2 + |f.value|] == f.value;
      assert b[|done|] == rest[0] && b[|done| + 1] == rest[1];
      assert b[|done| + 2..|done| + 2 + |f.value|] == rest[2..2 + |f.value|];
    } else {
      assert fs[k..] == [];
      assert rest == tail + [last];
      if |tail| >= 2 {
        assert b[|done| + 1] == tail[1];
      }
    }
  }

  /** b is u after a walk that handled its first k fields and stands at offset i of the body. */
  ghost predicate Walked(ids: seq<U32>, u: seq<Byte>, b: seq<Byte>, k: nat, i: nat) {
    && |u| >= HEADER_SIZE + 1
    && var fs := Fields(TlvBytes(u));
       && (forall f :: f in fs ==> |f.value| < 0x100)
       && k <= |fs|
       && b == Done(ids, u, fs, k) + ToDo(fs, Tail(TlvBytes(u)), u[|u| - 1], k)
       && |Done(ids, u, fs, k)| == HEADER_SIZE + i
       && |b| == |u|
  }

  lemma WalkStart(ids: seq<U32>, u: seq<Byte>)
    requires |u| >= HEADER_SIZE + 1
    ensures Walked(ids, u, u, 0, 0)
  {
    var body := TlvBytes(u);
    EncodedOfFields(body);
    var fs := Fields(body);
    assert fs[0..] == fs;
    assert u == u[..HEADER_SIZE] + (body + [u[|u| - 1]]);
    assert Done(ids, u, fs, 0) == u[..HEADER_SIZE] by { assert RenamedFields(ids, fs[..0]) == []; }
    Assoc(EncodeFields(fs), Tail(body), [u[|u| - 1]]);
  }

  /** What the walk sees next: a field, or a truncated one, or the end. */
  lemma WalkLook(ids: seq<U32>, u: seq<Byte>, b: seq<Byte>, k: nat, i: nat)
    requires Walked(ids, u, b, k, i)
    ensures var at, size, fs := HEADER_SIZE + i, |b| - 1, Fields(TlvBytes(u));
            if k < |fs| then
              at + 2 + |fs[k].value| <= size && b[at] == fs[k].id && b[at + 1] == |fs[k].value|
              && b[at + 2..at + 2 + |fs[k].value|] == fs[k].value
            else HEADER_SIZE == 10 && (at + 2 > size || at + 2 + b[at + 1] > size)
  {
    EncodedOfFields(TlvBytes(u));
    var fs := Fields(TlvBytes(u));
    WalkReads(b, Done(ids, u, fs, k), fs, Tail(TlvBytes(u)), u[|u| - 1], k);
  }

  lemma WalkSkip(ids: seq<U32>, u: seq<Byte>, b: seq<Byte>, k: nat, i: nat)
    requires Walked(ids, u, b, k, i) && k < |Fields(TlvBytes(u))| && !IsTransponder(Fields(TlvBytes(u))[k])
    ensures Walked(ids, u, b, k + 1, i + 2 + |Fields(TlvBytes(u))[k].value|)
  {
    var fs, tail, last := Fields(TlvBytes(u)), Tail(TlvBytes(u)), u[|u| - 1];
    DoneNext(ids, u, fs, k);
    ToDoNext(fs, tail, last, k);
    Assoc(Done(ids, u, fs, k), EncodeField(fs[k]), ToDo(fs, tail, last, k + 1));
  }

  lemma WalkWrite(ids: seq<U32>, u: seq<Byte>, b: seq<Byte>, k: nat, i: nat, synth: U32)
    requires Walked(ids, u, b, k, i) && k < |Fields(TlvBytes(u))| && IsTransponder(Fields(TlvBytes(u))[k])
    requires synth == Rename(ids, IdOf(Fields(TlvBytes(u))[k]))
    requires HEADER_SIZE + i + 6 <= |b|
    ensures Walked(ids, u, b[..HEADER_SIZE + i + 2] + PutLE(synth, 4) + b[HEADER_SIZE + i + 6..], k + 1, i + 6)
  {
    var fs, tail, last := Fields(TlvBytes(u)), Tail(TlvBytes(u)), u[|u| - 1];
    DoneNext(ids, u, fs, k);
    ToDoNext(fs, tail, last, k);
    Overwrite(Done(ids, u, fs, k), fs[k].id, fs[k].value, PutLE(synth, 4), ToDo(fs, tail, last, k + 1));
  }

  lemma WalkEnd(ids: seq<U32>, u: seq<Byte>, b: seq<Byte>, i: nat)
    requires Walked(ids, u, b, |Fields(TlvBytes(u))|, i)
    ensures b == RenamedUnesc(ids, u)
  {
    var body := TlvBytes(u);
    EncodedOfFields(body);
    var fs := Fields(body);
    assert fs[..|fs|] == fs && fs[|fs|..] == [];
    RenamedFieldsLength(ids, fs);
    Assoc(u[..HEADER_SIZE], EncodeFields(RenamedFields(ids, fs)), Tail(body));
    Assoc(Done(ids, u, fs, |fs|), Tail(body), [u[|u| - 1]]);
  }

  /** Reading field k: either it is no transponder, or the table learns it. */
  lemma IdsNext(fs: seq<Field>, k: nat)
    requires k < |fs|
    ensures Ids(fs[..k + 1]) == Ids(fs[..k]) + if IsTransponder(fs[k]) then [IdOf(fs[k])] else []
  {
    assert fs[..k + 1][..k] == fs[..k];
  }

  lemma NothingRead(fs: seq<Field>, seen: seq<U32>)
    ensures Ids(fs[..0]) == [] && seen + Ids(fs[..0]) == seen
  {}

  lemma WalkNothing(ids: seq<U32>, u: seq<Byte>, seen: seq<U32>)
    requires |u| < HEADER_SIZE + 1
    ensures Ids(Fields(TlvBytes(u))) == [] && seen + Ids(Fields(TlvBytes(u))) == seen
    ensures RenamedUnesc(ids, u) == u
  {}

  lemma FirstSeenPrefix(s: seq<U32>, t: seq<U32>)
    requires s <= t
    ensures FirstSeen(s) <= FirstSeen(t)
  {
    FirstSeenGrows(s, t[|s|..]);
    assert s + t[|s|..] == t;
  }

  lemma {:induction false} IdsPrefix(fs: seq<Field>, k: nat)
    requires k <= |fs|
    ensures Ids(fs[..k]) <= Ids(fs)
    decreases |fs|
  {
    if k < |fs| {
      var shorter := fs[..|fs| - 1];
      IdsPrefix(shorter, k);
      assert shorter[..k] == fs[..k];
    } else {
      assert fs[..k] == fs;
    }
  }

  /** The table after k fields is a prefix of the table after all of them. */
  lemma SeenSoFar(seen: seq<U32>, fs: seq<Field>, k: nat, final: seq<U32>)
    requires k <= |fs| && FirstSeen(seen + Ids(fs)) <= final
    ensures FirstSeen(seen + Ids(fs[..k])) <= final
  {
    IdsPrefix(fs, k);
    FirstSeenPrefix(seen + Ids(fs[..k]), seen + Ids(fs));
  }

  lemma RenamedFrameCases(ids: seq<U32>, w: seq<Byte>)
    ensures var u := Unescaped(w);
            var h := ParseHeader(u);
            if h.None? || h.value.tor != TOR_PASSING then UnescIds(u) == [] && RenamedFrame(ids, w) == w
            else |u| >= HEADER_SIZE && UnescIds(u) == Ids(Fields(TlvBytes(u))) && RenamedFrame(ids, w) ==
                 if Ids(Fields(TlvBytes(u))) == [] then w else Escaped(RenamedUnesc(ids, u))
  {}

  /** How many frames have a transponder that was rewritten. */
  function Rewritten(ws: seq<seq<Byte>>): nat {
    if ws == [] then 0
    else Rewritten(ws[..|ws| - 1]) + if UnescIds(Unescaped(ws[|ws| - 1])) != [] then 1 else 0
  }

  /** The counter counts exactly the frames with a transponder. */
  lemma {:induction false} RewrittenCounts(ws: seq<seq<Byte>>) returns (at: seq<nat>)
    ensures Increasing(at) && |at| == Rewritten(ws)
    ensures forall i :: 0 <= i < |at| ==> at[i] < |ws|
    ensures forall k :: 0 <= k < |ws| ==> (k in at <==> UnescIds(Unescaped(ws[k])) != [])
    decreases |ws|
  {
    hide UnescIds, Unescaped;
    if ws == [] {
      at := [];
    } else {
      var n := |ws| - 1;
      at := RewrittenCounts(ws[..n]);
      if UnescIds(Unescaped(ws[n])) != [] {
        IncreasingSnoc(at, n);
        at := at + [n];
      }
    }
  }

  lemma FrameNext(ids: seq<U32>, ws: seq<seq<Byte>>, k: nat)
    requires k < |ws|
    ensures Concat(RenamedFrames(ids, ws[..k + 1])) == Concat(RenamedFrames(ids, ws[..k])) + RenamedFrame(ids, ws[k])
    ensures Rewritten(ws[..k + 1]) == Rewritten(ws[..k]) + if UnescIds(Unescaped(ws[k])) != [] then 1 else 0
    ensures AllIds(ws[..k + 1]) == AllIds(ws[..k]) + UnescIds(Unescaped(ws[k]))
  {
    TakeNext(ws, k);
    RenamedFramesSnoc(ids, ws[..k], ws[k]);
    ConcatAppend(RenamedFrames(ids, ws[..k]), [RenamedFrame(ids, ws[k])]);
    ConcatOne(RenamedFrame(ids, ws[k]));
    assert ws[..k + 1][..k] == ws[..k];
  }

  lemma {:induction false} AllIdsPrefix(frames: seq<seq<Byte>>, k: nat)
    requires k <= |frames|
    ensures AllIds(frames[..k]) <= AllIds(frames)
    decreases |frames|
  {
    if k < |frames| {
      var shorter := frames[..|frames| - 1];
      AllIdsPrefix(shorter, k);
      assert shorter[..k] == frames[..k];
    } else {
      assert frames[..k] == frames;
    }
  }

  lemma TableSoFar(frames: seq<seq<Byte>>, k: nat)
    requires k <= |frames|
    ensures FirstSeen(AllIds(frames[..k])) <= FirstSeen(AllIds(frames))
  {
    AllIdsPrefix(frames, k);
    FirstSeenPrefix(AllIds(frames[..k]), AllIds(frames));
  }

  /** Output, table and counter after k frames. */
  ghost predicate Progress(frames: seq<seq<Byte>>, k: nat, final: seq<U32>, out: seq<Byte>,
                           byID: map<U32, U32>, mapping: seq<MappingEntry>, rewritten: nat)
    requires k <= |frames|
  {
    && out == Concat(RenamedFrames(final, frames[..k]))
    && Table(byID, mapping, FirstSeen(AllIds(frames[..k])))
    && rewritten == Rewritten(frames[..k])
  }

  lemma ProgressStart(frames: seq<seq<Byte>>, final: seq<U32>)
    ensures Progress(frames, 0, final, [], map[], [], 0)
  {}

  lemma ProgressParts(frames: seq<seq<Byte>>, k: nat, final: seq<U32>, out: seq<Byte>,
                      byID: map<U32, U32>, mapping: seq<MappingEntry>, rewritten: nat)
    requires k <= |frames| && Progress(frames, k, final, out, byID, mapping, rewritten)
    ensures out == Concat(RenamedFrames(final, frames[..k]))
    ensures Table(byID, mapping, FirstSeen(AllIds(frames[..k])))
    ensures rewritten == Rewritten(frames[..k])
  {}

  lemma ProgressNext(frames: seq<seq<Byte>>, k: nat, final: seq<U32>, out: seq<Byte>, rewritten: nat,
                     byID: map<U32, U32>, mapping: seq<MappingEntry>)
    requires k < |frames|
    requires out == Concat(RenamedFrames(final, frames[..k])) && rewritten == Rewritten(frames[..k])
    requires Table(byID, mapping, FirstSeen(AllIds(frames[..k + 1])))
    ensures Progress(frames, k + 1, final, out + RenamedFrame(final, frames[k]), byID, mapping,
                     rewritten + if UnescIds(Unescaped(frames[k])) != [] then 1 else 0)
  {
    FrameNext(final, frames, k);
  }

  lemma ProgressDone(raw: seq<Byte>, frames: seq<seq<Byte>>, out: seq<Byte>,
                     byID: map<U32, U32>, mapping: seq<MappingEntry>, rewritten: nat)
    requires frames == ScanFrom(false, [], raw).frames
    requires Progress(frames, |frames|, FirstSeen(AllIds(frames)), out, byID, mapping, rewritten)
    ensures frames == GoFrames(raw)
    ensures out == Anonymized(raw) && rewritten == Rewritten(frames)
    ensures |mapping| == |FinalIds(raw)|
    ensures forall i :: 0 <= i < |mapping| ==> mapping[i] == MappingEntry(FinalIds(raw)[i], Synthetic(i))
  {
    assert frames[..|frames|] == frames;
  }

  /** Looking up a transponder, adding it first when it is new, keeps the table. */
  method LookUp(byID: map<U32, U32>, ordered: seq<MappingEntry>, orig: U32, ghost seen: seq<U32>, ghost final: seq<U32>)
    returns (synth: U32, byID': map<U32, U32>, ordered': seq<MappingEntry>)
    requires Table(byID, ordered, FirstSeen(seen))
    requires FirstSeen(seen + [orig]) <= final && Distinct(final)
    ensures Table(byID', ordered', FirstSeen(seen + [orig]))
    ensures synth == Rename(final, orig)
  {
    hide FirstSeen, Rename, Distinct;
    FirstSeenSnoc(seen, orig);
    ghost var ids := FirstSeen(seen);
    TableHit(byID, ordered, ids, orig);
    byID', ordered' := byID, ordered;
    if orig in byID {
      synth := byID[orig];
      RenameInLonger(ids, final, IndexOf(ids, orig));
    } else {
      synth := (|ordered| + 1) % WORD32;
      TableAdd(byID, ordered, ids, orig);
      RenameInLonger(ids + [orig], final, |ids|);
      byID' := byID[orig := synth];
      ordered' := ordered + [MappingEntry(orig, synth)];
    }
  }

  method ReadUint32(buf: array<Byte>, at: nat) returns (v: U32)
    requires at + 4 <= buf.Length
    ensures v == GetLE(buf[..][at..at + 4])
  {
    RangeValues();
    assert buf[..][at..at + 4] == buf[at..at + 4];
    v := GetLE(buf[at..at + 4]);
  }

  method PutUint32(buf: array<Byte>, at: nat, v: U32)
    requires at + 4 <= buf.Length
    modifies buf
    ensures buf[..] == old(buf[..at]) + PutLE(v, 4) + old(buf[at + 4..])
  {
    FourBytes(v);
    buf[at] := v % 0x100;
    buf[at + 1] := v / 0x100 % 0x100;
    buf[at + 2] := v / 0x100 / 0x100 % 0x100;
    buf[at + 3] := v / 0x100 / 0x100 / 0x100 % 0x100;
  }

  // A walk that has handled the first k fields has written Done and has ToDo left to read.

  /** The walk's callback: rewrites the field at offset i of the body if it is a transponder. */
  method VisitField(unesc: array<Byte>, i: nat, id: Byte, flen: Byte, byID: map<U32, U32>, ordered: seq<MappingEntry>,
                    ghost seen: seq<U32>, ghost final: seq<U32>, ghost u: seq<Byte>, ghost k: nat)
    returns (byID': map<U32, U32>, ordered': seq<MappingEntry>, hit: bool)
    requires Walked(final, u, unesc[..], k, i) && k < |Fields(TlvBytes(u))|
    requires id == Fields(TlvBytes(u))[k].id && flen == |Fields(TlvBytes(u))[k].value|
    requires HEADER_SIZE + i + 2 + flen < unesc.Length
    requires Table(byID, ordered, FirstSeen(seen + Ids(Fields(TlvBytes(u))[..k]))) && Distinct(final)
    requires FirstSeen(seen + Ids(Fields(TlvBytes(u)))) <= final
    modifies unesc
    ensures Walked(final, u, unesc[..], k + 1, i + 2 + flen)
    ensures Table(byID', ordered', FirstSeen(seen + Ids(Fields(TlvBytes(u))[..k + 1])))
    ensures Ids(Fields(TlvBytes(u))[..k + 1]) != [] <==> Ids(Fields(TlvBytes(u))[..k]) != [] || hit
  {
    ghost var fs := Fields(TlvBytes(u));
    WalkLook(final, u, unesc[..], k, i);
    IdsNext(fs, k);
    hide Walked, Table, FirstSeen, Ids, Fields, TlvBytes;
    if id != TRANSPONDER || flen != 4 {
      WalkSkip(final, u, unesc[..], k, i);
      assert Ids(fs[..k]) + [] == Ids(fs[..k]);
      return byID, ordered, false;
    }
    var orig := ReadUint32(unesc, HEADER_SIZE + i + 2);
    Assoc(seen, Ids(fs[..k]), [orig]);
    SeenSoFar(seen, fs, k + 1, final);
    var synth;
    synth, byID', ordered' := LookUp(byID, ordered, orig, seen + Ids(fs[..k]), final);
    WalkWrite(final, u, unesc[..], k, i, synth);
    PutUint32(unesc, HEADER_SIZE + i + 2, synth);
    hit := true;
  }

  /**
   * The walk over one unescaped PASSING frame: transponders are overwritten in place, and the table
   * grows by those not seen before. Relative to any list the table will grow into, the frame ends
   * up renamed.
   */
  method RewriteFrame(unesc: array<Byte>, byID: map<U32, U32>, ordered: seq<MappingEntry>,
                      ghost seen: seq<U32>, ghost final: seq<U32>)
    returns (byID': map<U32, U32>, ordered': seq<MappingEntry>, mutated: bool)
    requires unesc.Length >= HEADER_SIZE
    requires Table(byID, ordered, FirstSeen(seen)) && Distinct(final)
    requires FirstSeen(seen + Ids(Fields(TlvBytes(unesc[..])))) <= final
    modifies unesc
    ensures Table(byID', ordered', FirstSeen(seen + Ids(Fields(TlvBytes(old(unesc[..]))))))
    ensures unesc[..] == RenamedUnesc(final, old(unesc[..]))
    ensures mutated <==> Ids(Fields(TlvBytes(old(unesc[..])))) != []
  {
    hide *;
    byID', ordered', mutated := byID, ordered, false;
    ghost var u := unesc[..];
    if unesc.Length < HEADER_SIZE + 1 {
      WalkNothing(final, u, seen);
      return;
    }
    ghost var fs, k := Fields(TlvBytes(u)), 0;
    NothingRead(fs, seen);
    WalkStart(final, u);
    var size := unesc.Length - HEADER_SIZE - 1;
    var i := 0;
    while i < size
      invariant 0 <= i <= size && k <= |fs|
      invariant Walked(final, u, unesc[..], k, i)
      invariant Table(byID', ordered', FirstSeen(seen + Ids(fs[..k])))
      invariant mutated <==> Ids(fs[..k]) != []
      decreases |fs| - k
    {
      WalkLook(final, u, unesc[..], k, i);
      if i + 2 > size {
        assert k == |fs|;
        break;
      }
      var id, flen := unesc[HEADER_SIZE + i], unesc[HEADER_SIZE + i + 1];
      var end := i + 2 + flen;
      if end > size {
        assert k == |fs|;
        break;
      }
      var hit;
      byID', ordered', hit := VisitField(unesc, i, id, flen, byID', ordered', seen, final, u, k);
      mutated := mutated || hit;
      k := k + 1;
      i := end;
    }
    WalkLook(final, u, unesc[..], k, i);
    assert k == |fs|;
    assert fs[..k] == fs;
    WalkEnd(final, u, unesc[..], i);
  }

  /** Frame k of the output, and the table after it. */
  method AnonymizeFrame(byID: map<U32, U32>, ordered: seq<MappingEntry>,
                        frames: seq<seq<Byte>>, k: nat, ghost final: seq<U32>)
    returns (wire: seq<Byte>, byID': map<U32, U32>, ordered': seq<MappingEntry>, mutated: bool)
    requires k < |frames| && final == FirstSeen(AllIds(frames))
    requires Table(byID, ordered, FirstSeen(AllIds(frames[..k])))
    ensures Table(byID', ordered', FirstSeen(AllIds(frames[..k + 1])))
    ensures wire == RenamedFrame(final, frames[k])
    ensures mutated <==> UnescIds(Unescaped(frames[k])) != []
  {
    hide *;
    var f := frames[k];
    ghost var seen := AllIds(frames[..k]);
    FirstSeenBasics(AllIds(frames));
    FrameNext(final, frames, k);
    TableSoFar(frames, k + 1);
    RenamedFrameCases(final, f);
    byID', ordered', mutated := byID, ordered, false;
    var unesc := Unescape(f);
    var h := ParseHeader(unesc);
    assert seen + [] == seen;
    if h.None? {
      return f, byID, ordered, false;
    }
    if h.value.tor != TOR_PASSING {
      return f, byID, ordered, false;
    }
    var buf := new Byte[|unesc|](i requires 0 <= i < |unesc| => unesc[i]);
    assert buf[..] == unesc;
    byID', ordered', mutated := RewriteFrame(buf, byID, ordered, seen, final);
    if mutated {
      wire := Escape(buf[..]);
    } else {
      wire := f;
    }
  }

  method Anonymize(raw: seq<Byte>)
    returns (out: seq<Byte>, mapping: seq<MappingEntry>, frameCount: nat, passingRewritten: nat)
    ensures out == Anonymized(raw)
    ensures |mapping| == |FinalIds(raw)|
    ensures forall i :: 0 <= i < |mapping| ==> mapping[i] == MappingEntry(FinalIds(raw)[i], Synthetic(i))
    ensures frameCount == |GoFrames(raw)|
    ensures passingRewritten == Rewritten(GoFrames(raw))
  {
    hide *;
    var frames := Split(raw);
    out := [];
    var mappingByID: map<U32, U32> := map[];
    mapping := [];
    frameCount := |frames|;
    passingRewritten := 0;
    ghost var final := FirstSeen(AllIds(frames));
    ProgressStart(frames, final);
    for k := 0 to |frames|
      invariant Progress(frames, k, final, out, mappingByID, mapping, passingRewritten)
    {
      ProgressParts(frames, k, final, out, mappingByID, mapping, passingRewritten);
      var wire, mutated;
      wire, mappingByID, mapping, mutated :=
        AnonymizeFrame(mappingByID, mapping, frames, k, final);
      ProgressNext(frames, k, final, out, passingRewritten, mappingByID, mapping);
      out := out + wire;
      if mutated {
        passingRewritten := passingRewritten + 1;
      }
    }
    ProgressDone(raw, frames, out, mappingByID, mapping, passingRewritten);
  }
}

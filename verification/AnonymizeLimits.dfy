/**
 * Exactly when the anonymizer (gateway/cmd/anonymize/main.go) leaves wire bytes alone, and exactly
 * which frames it may rewrite without changing what the web client decodes.
 */
module AnonymizeLimits {
  import opened Bytes
  import opened Wire
  import opened Tlv
  import opened Framing
  import opened Records
  import opened Encoder
  import opened Anonymize

  // ---- Unchanged frames ----

  /** The ids s are their own new names. */
  predicate KeepsNames(ids: seq<U32>, s: seq<U32>) {
    forall x :: x in s ==> Rename(ids, x) == x
  }

  lemma SameFields(ids: seq<U32>, fs: seq<Field>)
    requires KeepsNames(ids, Ids(fs))
    ensures RenamedFields(ids, fs) == fs
  {
    forall i | 0 <= i < |fs| ensures RenamedField(ids, fs[i]) == fs[i] {
      if IsTransponder(fs[i]) {
        IdsContain(fs, i);
        PutGetLE(fs[i].value);
      }
    }
  }

  lemma Reassembled(u: seq<Byte>)
    requires |u| >= HEADER_SIZE + 1
    ensures u == u[..HEADER_SIZE] + TlvBytes(u) + [u[|u| - 1]]
  {}

  lemma SameUnesc(ids: seq<U32>, u: seq<Byte>)
    requires UnescIds(u) != [] && KeepsNames(ids, UnescIds(u))
    ensures RenamedUnesc(ids, u) == u
  {
    LongEnough(u);
    Reassembled(u);
    SameFields(ids, Fields(TlvBytes(u)));
    hide Fields, Tail, EncodeFields, UnescIds, RenamedFields, TlvBytes;
    EncodedOfFields(TlvBytes(u));
  }

  /** A stream that is one frame. */
  lemma SingleFrame(f: seq<Byte>)
    requires GoFrames(f) == [f]
    ensures FinalIds(f) == FirstSeen(UnescIds(Unescaped(f)))
    ensures Anonymized(f) == RenamedFrame(FinalIds(f), f)
  {
    hide UnescIds, RenamedFrame, Unescaped, GoFrames;
    assert [f][..0] == [];
    assert AllIds([f]) == AllIds([]) + UnescIds(Unescaped(f)) == UnescIds(Unescaped(f));
    ConcatOne(RenamedFrame(FinalIds(f), f));
    assert RenamedFrames(FinalIds(f), [f]) == [RenamedFrame(FinalIds(f), f)];
  }

  lemma RenamedKeepsNames(ids: seq<U32>, s: seq<U32>)
    ensures RenamedIds(ids, s) == s <==> KeepsNames(ids, s)
  {
    if RenamedIds(ids, s) == s {
      forall x | x in s ensures Rename(ids, x) == x {
        var i :| 0 <= i < |s| && s[i] == x;
        assert RenamedIds(ids, s)[i] == Rename(ids, x);
      }
    }
  }

  /**
   * A frame comes out byte for byte exactly when it has no transponder, or its transponders keep
   * their names and its escapes are canonical.
   */
  lemma FrameUnchangedIff(ids: seq<U32>, w: seq<Byte>)
    requires IsFrame(false, w)
    ensures var s := UnescIds(Unescaped(w));
            RenamedFrame(ids, w) == w <==> s == [] || (KeepsNames(ids, s) && Canonical(Body(w)))
  {
    var u := Unescaped(w);
    if UnescIds(u) != [] {
      RenamedFrameFacts(false, ids, w);
      RenamedKeepsNames(ids, UnescIds(u));
      EscapeUnescape(w);
      if KeepsNames(ids, UnescIds(u)) {
        SameUnesc(ids, u);
      }
    }
  }

  // ---- Unchanged streams ----

  /** The numbers 1, 2, 3 and so on in this order. */
  predicate Numbered(ids: seq<U32>) {
    forall i :: 0 <= i < |ids| ==> ids[i] == Synthetic(i)
  }

  lemma NumberedIff(ids: seq<U32>)
    requires Distinct(ids)
    ensures KeepsNames(ids, ids) <==> Numbered(ids)
  {
    forall i | 0 <= i < |ids| ensures Rename(ids, ids[i]) == Synthetic(i) && ids[i] in ids {
      IndexUnique(ids, i);
    }
    if Numbered(ids) {
      forall x | x in ids ensures Rename(ids, x) == x {
        var i :| 0 <= i < |ids| && ids[i] == x;
      }
    }
  }

  lemma {:induction false} IdsComeFromFrames(ws: seq<seq<Byte>>, x: U32) returns (i: nat)
    requires x in AllIds(ws)
    ensures i < |ws| && x in UnescIds(Unescaped(ws[i]))
    decreases |ws|
  {
    var n := |ws| - 1;
    if x in UnescIds(Unescaped(ws[n])) {
      i := n;
    } else {
      i := IdsComeFromFrames(ws[..n], x);
    }
  }

  /** Every frame with transponders is escaped canonically. */
  ghost predicate CanonicalWhereNamed(ws: seq<seq<Byte>>) {
    forall i :: 0 <= i < |ws| && UnescIds(Unescaped(ws[i])) != [] ==> Canonical(Body(ws[i]))
  }

  lemma FramesUnchangedIff(ids: seq<U32>, ws: seq<seq<Byte>>)
    requires forall w :: w in ws ==> IsFrame(false, w)
    ensures RenamedFrames(ids, ws) == ws <==> KeepsNames(ids, AllIds(ws)) && CanonicalWhereNamed(ws)
  {
    forall i | 0 <= i < |ws| ensures |ws[i]| >= 2 {
      assert ws[i] in ws;
    }
    hide IsFrame, RenamedFrame, Canonical, UnescIds, Rename;
    forall i | 0 <= i < |ws|
      ensures RenamedFrames(ids, ws)[i] == ws[i]
              <==> UnescIds(Unescaped(ws[i])) == []
                   || (KeepsNames(ids, UnescIds(Unescaped(ws[i]))) && Canonical(Body(ws[i])))
    {
      assert ws[i] in ws;
      FrameUnchangedIff(ids, ws[i]);
    }
    if RenamedFrames(ids, ws) == ws {
      forall x | x in AllIds(ws) ensures Rename(ids, x) == x {
        var i := IdsComeFromFrames(ws, x);
        assert RenamedFrames(ids, ws)[i] == ws[i];
      }
    } else if KeepsNames(ids, AllIds(ws)) && CanonicalWhereNamed(ws) {
      forall i | 0 <= i < |ws| ensures RenamedFrames(ids, ws)[i] == ws[i] {
        forall x | x in UnescIds(Unescaped(ws[i])) ensures Rename(ids, x) == x {
          AllIdsContain(ws, i, x);
        }
      }
    }
  }

  lemma TableKeepsNamesIff(raw: seq<Byte>)
    ensures KeepsNames(FinalIds(raw), AllIds(GoFrames(raw))) <==> Numbered(FinalIds(raw))
  {
    FirstSeenBasics(AllIds(GoFrames(raw)));
    NumberedIff(FinalIds(raw));
  }

  /**
   * The fixed points of the anonymizer: a stream comes out byte for byte exactly when it is nothing but
   * its frames, its transponders are numbered in order of appearance already, and the frames with
   * transponders are escaped canonically.
   */
  lemma UnchangedIff(raw: seq<Byte>)
    ensures Anonymized(raw) == raw
            <==> Concat(GoFrames(raw)) == raw && Numbered(FinalIds(raw)) && CanonicalWhereNamed(GoFrames(raw))
  {
    var ws, ids := GoFrames(raw), FinalIds(raw);
    FramesOfAnonymized(raw);
    ScanWellFormed(false, [], raw);
    TableKeepsNamesIff(raw);
    FramesUnchangedIff(ids, ws);
  }

  // ---- A frame that is not preserved ----

  lemma {:induction false} PlainPrefix(p: seq<Byte>, s: seq<Byte>)
    requires forall b :: b in p ==> !Special(b)
    ensures UnescapeBody(p + s) == p + UnescapeBody(s)
    decreases |p|
  {
    if p == [] {
      assert p + s == s;
    } else {
      assert p[0] in p;
      PlainPrefix(p[1..], s);
      assert (p + s)[1..] == p[1..] + s;
      assert p == [p[0]] + p[1..];
      Assoc([p[0]], p[1..], UnescapeBody(s));
    }
  }

  lemma {:induction false} PlainEscape(p: seq<Byte>)
    requires forall b :: b in p ==> !Special(b)
    ensures EscapeBody(p) == p
    decreases |p|
  {
    if p == [] {
    } else {
      assert p[0] in p;
      PlainEscape(p[1..]);
      assert p == [p[0]] + p[1..];
    }
  }

  function OneCar(): seq<Field> { [IntField(TRANSPONDER, 1, 4), IntField(FLAGS, 0x21, 2)] }

  const FRONT: seq<Byte> := [2, 21, 0, 0, 0, 0, 0, 1, 0, 3, 4, 1, 0, 0, 0, 8, 2]

  lemma OneCarBody()
    ensures EncodeFields(OneCar()) == [3, 4, 1, 0, 0, 0] + [8, 2, 0x21, 0]
  {
    var a, b := OneCar()[0], OneCar()[1];
    assert OneCar()[1..] == [b] && [b][1..] == [];
    TwoBytes(0x21);
    FourBytes(1);
    assert EncodeField(a) == [3, 4, 1, 0, 0, 0];
    assert EncodeField(b) == [8, 2, 0x21, 0];
    assert EncodeFields([b]) == EncodeField(b) + EncodeFields([]);
    hide EncodeField, PutLE;
    assert [8, 2, 0x21, 0] + [] == [8, 2, 0x21, 0];
  }

  lemma ThreeParts(length: seq<Byte>, tor: seq<Byte>)
    requires length == [21, 0] && tor == [1, 0]
    ensures [SOR, VERSION] + length + [0, 0, 0, 0] + tor + ([3, 4, 1, 0, 0, 0] + [8, 2, 0x21, 0]) + [EOR]
            == [SOR] + (FRONT + [0x21] + [0]) + [EOR]
  {}

  lemma OneCarBytes()
    ensures Assembled(TOR_PASSING, EncodeFields(OneCar())) == [SOR] + (FRONT + [0x21] + [0]) + [EOR]
    ensures |EncodeFields(OneCar())| == 10
  {
    OneCarBody();
    TwoBytes(21);
    TwoBytes(1);
    hide EncodeFields, PutLE, OneCar;
    ThreeParts(PutLE(21, 2), PutLE(1, 2));
  }

  lemma OneCarIds(u: seq<Byte>)
    requires Carries(u, TOR_PASSING, OneCar())
    ensures UnescIds(u) == [1]
  {
    var fs := OneCar();
    RangeValues();
    GetPutLE(1, 4);
    hide Fields, TlvBytes, PutLE, GetLE;
    assert fs[..1] == [fs[0]] && [fs[0]][..0] == [];
    assert IsTransponder(fs[0]) && IdOf(fs[0]) == 1 && !IsTransponder(fs[1]);
    assert Ids([fs[0]]) == Ids([]) + [1];
  }

  /**
   * The byte 0x21 may travel as 0x8D 0x41, although nothing requires it. Such a frame comes out with
   * the plain byte, even though its only transponder is number 1 already: same content, other bytes.
   */
  lemma NotVerbatim()
    ensures var w: seq<Byte> := [SOR] + (FRONT + [ESC, 0x41] + [0]) + [EOR];
            var v: seq<Byte> := [SOR] + (FRONT + [0x21] + [0]) + [EOR];
            && GoFrames(w) == [w] && FinalIds(w) == [1]
            && Anonymized(w) == v && v != w && Unescaped(v) == Unescaped(w)
  {
    var w: seq<Byte> := [SOR] + (FRONT + [ESC, 0x41] + [0]) + [EOR];
    var v: seq<Byte> := [SOR] + (FRONT + [0x21] + [0]) + [EOR];
    Unescapings(w, v);
    OneCarBytes();
    AssembledCarries(TOR_PASSING, OneCar());
    NoEorInside(w);
    hide *;
    OneCarIds(v);
    CanonicalComesOut(w, v);
  }

  lemma CanonicalComesOut(w: seq<Byte>, v: seq<Byte>)
    requires IsFrame(false, w) && Unescaped(w) == v && UnescIds(v) == [1]
    ensures GoFrames(w) == [w] && FinalIds(w) == [1] && Anonymized(w) == Escaped(v)
  {
    ScanFrame(false, w);
    SingleFrame(w);
    hide IsFrame, UnescIds, ScanFrom, Unescaped, Escaped;
    assert [1][..0] == [];
    assert FirstSeen([1]) == FirstSeen([]) + [1];
    SameUnesc([1], v);
  }

  lemma Unescapings(w: seq<Byte>, v: seq<Byte>)
    requires w == [SOR] + (FRONT + [ESC, 0x41] + [0]) + [EOR] && v == [SOR] + (FRONT + [0x21] + [0]) + [EOR]
    ensures Unescaped(w) == v && Unescaped(v) == v && Escaped(v) == v && v != w
  {
    assert forall b :: b in FRONT ==> !Special(b);
    assert Body(w) == FRONT + ([ESC, 0x41] + [0]) && Body(v) == FRONT + ([0x21] + [0]);
    PlainPrefix(FRONT, [ESC, 0x41] + [0]);
    PlainPrefix(FRONT, [0x21] + [0]);
    PlainPrefix([0x21, 0], []);
    assert ([ESC, 0x41] + [0])[2..] == [0] && [0][1..] == [];
    assert [0x21] + [0] == [0x21, 0] + [] == [0x21, 0];
    assert UnescapeBody([ESC, 0x41] + [0]) == [Unbiased(0x41)] + UnescapeBody([0]);
    assert UnescapeBody([0]) == [0] + UnescapeBody([]);
    PlainEscape(Body(v));
    assert |w| == |v| + 1;
  }

  lemma NoEorInside(w: seq<Byte>)
    requires w == [SOR] + (FRONT + [ESC, 0x41] + [0]) + [EOR]
    ensures IsFrame(false, w)
  {
    var p := w[..|w| - 1];
    assert p == [SOR] + (FRONT + [ESC, 0x41] + [0]);
    PlainOpen(p[1..]);
  }

  lemma {:induction false} PlainOpen(s: seq<Byte>)
    requires EOR !in s
    ensures OpenBody(false, s)
    decreases |s|
  {
    if s == [] {
    } else {
      assert forall b :: b in s[1..] ==> b in s;
      PlainOpen(s[1..]);
    }
  }

  // ---- Decoding ----

  /** Decoding after anonymizing is renaming after decoding, up to the bytes kept in malformed results. */
  predicate Commutes(raw: seq<Byte>) {
    ResultsWithoutRaw(Decode(Anonymized(raw))) == RenamedResults(FinalIds(raw), Decode(raw))
  }

  lemma {:induction false} OpenEither(s: seq<Byte>)
    requires OpenBody(false, s)
    ensures OpenBody(true, s)
    decreases |s|
  {
    if |s| >= 2 && s[0] == ESC {
      assert s[1..][1..] == s[2..];
      OpenEither(s[2..]);
    } else if s == [] {
    } else {
      OpenEither(s[1..]);
    }
  }

  /** The web client's framer keeps such a frame open. */
  lemma DanglingFrameIsOpen(f: seq<Byte>)
    requires IsFrame(false, f) && Dangling(Body(f))
    ensures Decode(f) == [] && Decode(f + [EOR]) != []
  {
    var p := f[..|f| - 1];
    OpenEither(p[1..]);
    assert Body(f) == p[1..] && f == p + [EOR];
    OpenSnoc(true, p, EOR);
    ScanOpen(true, f);
    assert f[1..] == p[1..] + [EOR];
    DanglingSnoc(p[1..], EOR);
    EorFinishes(f);
    ScanAppend(true, [], f, [EOR]);
  }

  lemma AlsoAware(w: seq<Byte>)
    requires IsFrame(false, w) && !Dangling(Body(w))
    ensures IsFrame(true, w)
  {
    OpenEither(w[..|w| - 1][1..]);
  }

  lemma FollowedByGarbage(f: seq<Byte>, g: seq<Byte>)
    requires IsFrame(false, f) && SOR !in g
    ensures GoFrames(f + g) == [f] && FinalIds(f + g) == FirstSeen(UnescIds(Unescaped(f)))
    ensures GoFrames(g) == []
  {
    ScanFrame(false, f);
    ScanAppend(false, [], f, g);
    ScanGarbage(false, g);
    assert [f][..0] == [];
    assert AllIds([f]) == AllIds([]) + UnescIds(Unescaped(f)) == UnescIds(Unescaped(f));
  }

  /** A dangling frame without transponders: a stray EOR behind it makes the difference. */
  lemma NamelessDiffers(f: seq<Byte>)
    requires IsFrame(false, f) && Dangling(Body(f)) && UnescIds(Unescaped(f)) == []
    ensures !HasDanglingFrame(GoFrames([EOR])) && !Commutes(f + [EOR])
  {
    FollowedByGarbage(f, [EOR]);
    DanglingFrameIsOpen(f);
    hide IsFrame, Dangling, UnescIds, Decode;
    assert RenamedFrames(FinalIds(f + [EOR]), [f]) == [f];
    ConcatOne(f);
    assert |RenamedResults(FinalIds(f + [EOR]), Decode(f + [EOR]))| > 0;
  }

  /** A dangling frame with transponders is escaped anew, and then closes. */
  lemma NamedDiffers(f: seq<Byte>)
    requires IsFrame(false, f) && Dangling(Body(f)) && UnescIds(Unescaped(f)) != []
    ensures !HasDanglingFrame(GoFrames([])) && !Commutes(f + [])
  {
    FollowedByGarbage(f, []);
    assert f + [] == f;
    SingleFrame(f);
    DanglingFrameIsOpen(f);
    RenamedCloses(FinalIds(f), f);
    hide *;
    EmptyAgainstOne(f);
  }

  lemma RenamedCloses(ids: seq<U32>, f: seq<Byte>)
    requires IsFrame(false, f) && UnescIds(Unescaped(f)) != []
    ensures |Decode(RenamedFrame(ids, f))| == 1
  {
    RenamedFrameFacts(false, ids, f);
    hide UnescIds, RenamedFrame;
    AlsoAware(RenamedFrame(ids, f));
    ScanFrame(true, RenamedFrame(ids, f));
  }

  lemma EmptyAgainstOne(f: seq<Byte>)
    requires Decode(f) == [] && |Decode(Anonymized(f))| == 1
    ensures !Commutes(f)
  {
    hide Decode, Anonymized, FinalIds;
    assert |ResultsWithoutRaw(Decode(Anonymized(f)))| == 1;
  }

  lemma CleanContinuation(f: seq<Byte>, q: seq<Byte>)
    requires IsFrame(false, f) && !Dangling(Body(f)) && !HasDanglingFrame(GoFrames(q))
    ensures Commutes(f + q)
  {
    ScanFrame(false, f);
    ScanAppend(false, [], f, q);
    hide IsFrame, Dangling, ScanFrom;
    assert GoFrames(f + q) == [f] + GoFrames(q);
    DecodingCommutes(f + q);
  }

  /** Exactly the frames that do not dangle may start a stream of frames that do not, and it still commutes. */
  lemma CommutesIff(f: seq<Byte>)
    requires IsFrame(false, f)
    ensures !Dangling(Body(f)) <==> forall q :: !HasDanglingFrame(GoFrames(q)) ==> Commutes(f + q)
  {
    hide Commutes, GoFrames, HasDanglingFrame;
    if Dangling(Body(f)) {
      if UnescIds(Unescaped(f)) == [] {
        NamelessDiffers(f);
      } else {
        NamedDiffers(f);
      }
    } else {
      forall q | !HasDanglingFrame(GoFrames(q)) ensures Commutes(f + q) {
        CleanContinuation(f, q);
      }
    }
  }

  lemma ShortFrame()
    ensures var f := [SOR, ESC, EOR];
            IsFrame(false, f) && Dangling(Body(f)) && |Unescaped(f)| == 2 && f + [EOR] == [SOR, ESC, EOR, EOR]
  {
    var f := [SOR, ESC, EOR];
    assert f[..2] == [SOR, ESC] && [SOR, ESC][1..] == [ESC] && [ESC][1..] == [];
    assert Body(f) == [ESC];
    assert UnescapeBody([ESC]) == [];
  }

  /** For instance here, where the splitter closes a frame that the web client keeps open. */
  lemma DecodingNeedNotCommute()
    ensures HasDanglingFrame(GoFrames([SOR, ESC, EOR, EOR])) && !Commutes([SOR, ESC, EOR, EOR])
  {
    var f := [SOR, ESC, EOR];
    ShortFrame();
    hide Commutes, GoFrames, IsFrame, Dangling, Unescaped;
    assert UnescIds(Unescaped(f)) == [];
    FollowedByGarbage(f, [EOR]);
    assert f in GoFrames(f + [EOR]);
    NamelessDiffers(f);
  }
}

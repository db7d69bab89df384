/**
 * Escaping of frame bodies, as done by the gateway (gateway/internal/p3frame/p3frame.go),
 * by the web client (web/src/protocol/escape.ts) and by the field-test tools
 * (tools/fieldtest/internal/frame/frame.go).
 */
module Wire {
  import opened Bytes

  const SOR: Byte := 0x8E
  const EOR: Byte := 0x8F
  const ESC: Byte := 0x8D
  const BIAS := 0x20

  predicate Special(b: Byte) { b == ESC || b == SOR || b == EOR }

  /** Byte addition and subtraction of the bias wrap around at eight bits. */
  function Biased(b: Byte): Byte { (b + BIAS) % 0x100 }
  function Unbiased(b: Byte): Byte { (b - BIAS) % 0x100 }

  // ---- Meaning of escaping and unescaping on a body ----

  function EscapeByte(b: Byte): seq<Byte> {
    if Special(b) then [ESC, Biased(b)] else [b]
  }

  function EscapeBody(s: seq<Byte>): seq<Byte> {
    if s == [] then [] else EscapeByte(s[0]) + EscapeBody(s[1..])
  }

  /** A pair ESC, b stands for b - 0x20; an ESC with nothing behind it stands for nothing. */
  function UnescapeBody(s: seq<Byte>): seq<Byte> {
    if s == [] then []
    else if s[0] != ESC then [s[0]] + UnescapeBody(s[1..])
    else if |s| == 1 then []
    else [Unbiased(s[1])] + UnescapeBody(s[2..])
  }

  /** The body ends in an ESC that escapes nothing. */
  predicate Dangling(s: seq<Byte>) {
    if s == [] then false
    else if s[0] != ESC then Dangling(s[1..])
    else |s| == 1 || Dangling(s[2..])
  }

  /** No raw SOR or EOR, and every ESC starts one of the pairs AD, AE, AF. */
  predicate Canonical(s: seq<Byte>) {
    if s == [] then true
    else if s[0] == ESC then
      |s| >= 2 && 0xAD <= s[1] <= 0xAF && Canonical(s[2..])
    else s[0] != SOR && s[0] != EOR && Canonical(s[1..])
  }

  function Body(frame: seq<Byte>): seq<Byte>
    requires |frame| >= 2
  {
    frame[1..|frame| - 1]
  }

  /** frame with its body replaced: the first and last bytes are kept as they are. */
  function WithBody(frame: seq<Byte>, body: seq<Byte>): seq<Byte>
    requires |frame| >= 2
  {
    [frame[0]] + body + [frame[|frame| - 1]]
  }

  function Escaped(unesc: seq<Byte>): seq<Byte> {
    if |unesc| < 2 then unesc else WithBody(unesc, EscapeBody(Body(unesc)))
  }

  function Unescaped(frame: seq<Byte>): seq<Byte> {
    if |frame| < 2 then frame else WithBody(frame, UnescapeBody(Body(frame)))
  }

  // ---- Inverse laws ----

  lemma {:induction false} UnescapeEscapeBody(s: seq<Byte>)
    ensures UnescapeBody(EscapeBody(s)) == s
    ensures Canonical(EscapeBody(s))
  {
    if s == [] {
    } else {
      UnescapeEscapeBody(s[1..]);
      var e := EscapeBody(s);
      assert e[|EscapeByte(s[0])|..] == EscapeBody(s[1..]);
      assert s == [s[0]] + s[1..];
    }
  }

  lemma {:induction false} EscapeUnescapeBody(s: seq<Byte>)
    ensures EscapeBody(UnescapeBody(s)) == s <==> Canonical(s)
  {
    if s == [] {
    } else if s[0] != ESC {
      EscapeUnescapeBody(s[1..]);
      var u := UnescapeBody(s);
      assert u[0] == s[0] && u[1..] == UnescapeBody(s[1..]);
      assert s == [s[0]] + s[1..];
      if s[0] == SOR || s[0] == EOR {
        assert EscapeBody(u)[0] == ESC;
      } else {
        assert EscapeBody(u) == [s[0]] + EscapeBody(UnescapeBody(s[1..]));
        assert EscapeBody(u)[1..] == EscapeBody(UnescapeBody(s[1..]));
      }
    } else if |s| >= 2 {
      EscapeUnescapeBody(s[2..]);
      var u := UnescapeBody(s);
      assert u[0] == Unbiased(s[1]) && u[1..] == UnescapeBody(s[2..]);
      assert s == [s[0], s[1]] + s[2..];
      var e := EscapeBody(u);
      if Special(u[0]) {
        assert e == [ESC, s[1]] + EscapeBody(UnescapeBody(s[2..]));
        assert e[2..] == EscapeBody(UnescapeBody(s[2..]));
      } else {
        assert e[0] == u[0] != ESC;
      }
    }
  }

  /** Decoding undoes encoding, for every input. */
  lemma UnescapeEscape(u: seq<Byte>)
    ensures Unescaped(Escaped(u)) == u
    ensures |u| >= 2 ==> Canonical(Body(Escaped(u)))
  {
    if |u| >= 2 {
      UnescapeEscapeBody(Body(u));
      assert Body(Escaped(u)) == EscapeBody(Body(u));
      assert u == WithBody(u, Body(u));
    }
  }

  /** Encoding undoes decoding exactly on canonical bodies. */
  lemma EscapeUnescape(w: seq<Byte>)
    ensures Escaped(Unescaped(w)) == w <==> |w| < 2 || Canonical(Body(w))
  {
    if |w| >= 2 {
      EscapeUnescapeBody(Body(w));
      var u := Unescaped(w);
      assert Body(u) == UnescapeBody(Body(w));
      assert w == WithBody(w, Body(w));
      assert Body(Escaped(u)) == EscapeBody(Body(u));
    }
  }

  // ---- Structural lemmas ----

  lemma {:induction false} EscapeBodyAppend(s: seq<Byte>, t: seq<Byte>)
    ensures EscapeBody(s + t) == EscapeBody(s) + EscapeBody(t)
  {
    if s == [] {
      assert s + t == t;
    } else {
      var st := s + t;
      assert st[0] == s[0] && st[1..] == s[1..] + t;
      EscapeBodyAppend(s[1..], t);
      Assoc(EscapeByte(s[0]), EscapeBody(s[1..]), EscapeBody(t));
    }
  }

  lemma {:induction false} DanglingSnoc(s: seq<Byte>, b: Byte)
    ensures Dangling(s + [b]) <==> !Dangling(s) && b == ESC
    decreases |s|
  {
    if s == [] {
      assert Dangling([ESC]);
    } else if s[0] != ESC {
      DanglingSnoc(s[1..], b);
      assert (s + [b])[1..] == s[1..] + [b];
    } else if |s| == 1 {
      assert (s + [b])[2..] == [];
    } else {
      DanglingSnoc(s[2..], b);
      assert (s + [b])[2..] == s[2..] + [b];
    }
  }

  /** A dangling body ends in ESC. */
  lemma DanglingEndsInEsc(s: seq<Byte>)
    requires Dangling(s)
    ensures s != [] && s[|s| - 1] == ESC
  {
    if s != [] {
      assert s == s[..|s| - 1] + [s[|s| - 1]];
      DanglingSnoc(s[..|s| - 1], s[|s| - 1]);
    }
  }

  lemma {:induction false} CanonicalFacts(s: seq<Byte>)
    requires Canonical(s)
    ensures !Dangling(s)
    ensures SOR !in s && EOR !in s
  {
    if s == [] {
    } else if s[0] == ESC {
      CanonicalFacts(s[2..]);
      assert s == [s[0], s[1]] + s[2..];
    } else {
      CanonicalFacts(s[1..]);
      assert s == [s[0]] + s[1..];
    }
  }

  lemma {:induction false} UnescapeLength(s: seq<Byte>)
    ensures |UnescapeBody(s)| <= |s|
  {
    if s == [] {
    } else if s[0] != ESC {
      UnescapeLength(s[1..]);
    } else if |s| > 1 {
      UnescapeLength(s[2..]);
    }
  }

  // ---- The loops ----

  /** What is still to come when a loop holds the flag esc and has s left to read. */
  function UnescapeRest(esc: bool, s: seq<Byte>): seq<Byte> {
    if !esc then UnescapeBody(s)
    else if s == [] then []
    else [Unbiased(s[0])] + UnescapeBody(s[1..])
  }

  predicate DanglingRest(esc: bool, s: seq<Byte>) {
    if !esc then Dangling(s) else s == [] || Dangling(s[1..])
  }

  /** What one turn of a decoding loop appends. */
  function Decoded(esc: bool, b: Byte): seq<Byte> {
    if esc then [Unbiased(b)] else if b == ESC then [] else [b]
  }

  lemma EscapeStep(s: seq<Byte>, i: nat)
    requires i < |s|
    ensures EscapeBody(s[i..]) == EscapeByte(s[i]) + EscapeBody(s[i + 1..])
  {
    assert s[i..][1..] == s[i + 1..];
  }

  lemma UnescapeStep(esc: bool, s: seq<Byte>, i: nat)
    requires i < |s|
    ensures var esc' := !esc && s[i] == ESC;
            && UnescapeRest(esc, s[i..]) == Decoded(esc, s[i]) + UnescapeRest(esc', s[i + 1..])
            && (DanglingRest(esc, s[i..]) <==> DanglingRest(esc', s[i + 1..]))
  {
    var rest := s[i..];
    assert rest[0] == s[i] && rest[1..] == s[i + 1..];
    if i + 1 < |s| {
      assert rest[2..] == s[i + 1..][1..];
    }
  }

  /** A decoding loop in front of byte i: what it wrote and what is left make up the target. */
  ghost predicate Decoding(s: seq<Byte>, i: nat, written: seq<Byte>, esc: bool, target: seq<Byte>) {
    && i <= |s|
    && written + UnescapeRest(esc, s[i..]) == target
    && (DanglingRest(esc, s[i..]) <==> Dangling(s))
  }

  lemma DecodingStart(s: seq<Byte>, first: Byte)
    ensures Decoding(s, 0, [first], false, [first] + UnescapeBody(s))
  {
    assert s[0..] == s;
  }

  lemma DecodingNext(s: seq<Byte>, i: nat, written: seq<Byte>, esc: bool, target: seq<Byte>)
    requires i < |s| && Decoding(s, i, written, esc, target)
    ensures Decoding(s, i + 1, written + Decoded(esc, s[i]), !esc && s[i] == ESC, target)
    ensures written + [] == written
  {
    hide UnescapeRest, DanglingRest, Dangling, UnescapeBody;
    UnescapeStep(esc, s, i);
    Assoc(written, Decoded(esc, s[i]), UnescapeRest(!esc && s[i] == ESC, s[i + 1..]));
  }

  lemma DecodingEnd(s: seq<Byte>, written: seq<Byte>, esc: bool, target: seq<Byte>)
    requires Decoding(s, |s|, written, esc, target)
    ensures written == target && (esc <==> Dangling(s))
  {
    RestAtEnds(s);
    hide UnescapeRest, DanglingRest, Dangling, UnescapeBody;
    assert written + [] == written;
  }

  lemma RestAtEnds(s: seq<Byte>)
    ensures UnescapeRest(false, s[0..]) == UnescapeBody(s) && (DanglingRest(false, s[0..]) <==> Dangling(s))
    ensures forall esc :: UnescapeRest(esc, s[|s|..]) == [] && (DanglingRest(esc, s[|s|..]) <==> esc)
  {
    assert s[0..] == s && s[|s|..] == [];
  }

  /** The gateway's and the field-test tools' encoder. */
  method Escape(unesc: seq<Byte>) returns (out: seq<Byte>)
    ensures out == Escaped(unesc)
  {
    if |unesc| < 2 {
      return unesc;
    }
    out := [unesc[0]];
    var inner := unesc[1..|unesc| - 1];
    ghost var target := [unesc[0]] + EscapeBody(inner);
    assert inner[0..] == inner;
    for i := 0 to |inner|
      invariant out + EscapeBody(inner[i..]) == target
    {
      var b := inner[i];
      EscapeStep(inner, i);
      Assoc(out, EscapeByte(b), EscapeBody(inner[i + 1..]));
      if b == ESC || b == SOR || b == EOR {
        out := out + [ESC, (b + BIAS) % 0x100];
      } else {
        out := out + [b];
      }
    }
    assert inner[|inner|..] == [];
    assert out == target;
    out := out + [unesc[|unesc| - 1]];
  }

  /** The gateway's decoder. */
  method Unescape(frame: seq<Byte>) returns (out: seq<Byte>)
    ensures out == Unescaped(frame)
  {
    if |frame| < 2 {
      return frame;
    }
    out := [frame[0]];
    var inner := frame[1..|frame| - 1];
    var esc := false;
    ghost var target := [frame[0]] + UnescapeBody(inner);
    assert inner[0..] == inner;
    for i := 0 to |inner|
      invariant out + UnescapeRest(esc, inner[i..]) == target
    {
      var b := inner[i];
      UnescapeStep(esc, inner, i);
      Assoc(out, Decoded(esc, b), UnescapeRest(!esc && b == ESC, inner[i + 1..]));
      if esc {
        out := out + [(b - BIAS) % 0x100];
        esc := false;
      } else if b == ESC {
        assert out + [] == out;
        esc := true;
      } else {
        out := out + [b];
      }
    }
    assert inner[|inner|..] == [];
    assert out == target;
    out := out + [frame[|frame| - 1]];
  }

  method Store(out: array<Byte>, outLen: nat, b: Byte) returns (next: nat)
    requires outLen < out.Length
    modifies out
    ensures next == outLen + 1 && out[..next] == old(out[..outLen]) + [b]
  {
    out[outLen] := b;
    next := outLen + 1;
  }

  /**
   * The web client's decoder writes into a buffer as long as the frame, keeps a length, and reports
   * the offset of a dangling ESC. Its bytes are those of the gateway's decoder on every input.
   */
  method UnescapeChecked(frame: seq<Byte>) returns (bytes: seq<Byte>, danglingOffset: Option<nat>)
    ensures bytes == Unescaped(frame)
    ensures danglingOffset.Some? <==> |frame| >= 2 && Dangling(Body(frame))
    ensures danglingOffset.Some? ==> danglingOffset.value == |frame| - 2 && frame[danglingOffset.value] == ESC
  {
    if |frame| < 2 {
      return frame, None;
    }
    var out := new Byte[|frame|](_ => 0);
    var outLen := 0;
    outLen := Store(out, outLen, frame[0]);
    var bodyEnd := |frame| - 1;
    var escapeNext := false;
    danglingOffset := None;
    ghost var body := Body(frame);
    ghost var target := [frame[0]] + UnescapeBody(body);
    ghost var written := [frame[0]];
    DecodingStart(body, frame[0]);
    hide Decoding, UnescapeBody, Dangling;
    for i := 1 to bodyEnd
      invariant 1 <= outLen <= i && (escapeNext ==> outLen < i)
      invariant written == out[..outLen]
      invariant Decoding(body, i - 1, written, escapeNext, target)
    {
      var b := frame[i];
      assert b == body[i - 1];
      DecodingNext(body, i - 1, written, escapeNext, target);
      if escapeNext {
        outLen := Store(out, outLen, (b - BIAS) % 0x100);
        written := written + [Unbiased(b)];
        escapeNext := false;
      } else if b == ESC {
        escapeNext := true;
      } else {
        outLen := Store(out, outLen, b);
        written := written + [b];
      }
    }
    DecodingEnd(body, written, escapeNext, target);
    if escapeNext {
      danglingOffset := Some(bodyEnd - 1);
      DanglingEndsInEsc(body);
    }
    outLen := Store(out, outLen, frame[bodyEnd]);
    bytes := out[..outLen];
    assert bytes == WithBody(frame, UnescapeBody(body));
  }
}

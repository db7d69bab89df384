/** Eight-bit bytes, little-endian integers and list plumbing shared by every other module. */
module Bytes {

  type Byte = b: int | 0 <= b < 0x100

  datatype Option<+T> = None | Some(value: T)

  const WORD16 := 0x1_0000
  const WORD32 := 0x1_0000_0000
  const WORD64 := 0x1_0000_0000_0000_0000

  type U8 = Byte
  type U16 = v: int | 0 <= v < WORD16
  type U32 = v: int | 0 <= v < WORD32
  type U64 = v: int | 0 <= v < WORD64

  // ---- Little-endian integers ----

  /** 256 to the power n: the number of values an n-byte integer can hold. */
  function Range(n: nat): (p: nat)
    ensures p >= 1
  {
    if n == 0 then 1 else 0x100 * Range(n - 1)
  }

  lemma RangeValues()
    ensures Range(1) == 0x100 && Range(2) == 0x1_0000 && Range(4) == WORD32 && Range(8) == WORD64
  {
    assert Range(2) == 0x100 * Range(1);
    assert Range(4) == 0x100 * (0x100 * Range(2));
    assert Range(8) == 0x100 * (0x100 * (0x100 * (0x100 * Range(4))));
  }

  /** What a little-endian unsigned read of all of b returns. */
  function GetLE(b: seq<Byte>): (v: nat)
    ensures v < Range(|b|)
  {
    if b == [] then 0 else b[0] + 0x100 * GetLE(b[1..])
  }

  /** The n bytes a little-endian unsigned write of v stores; v is truncated to n bytes. */
  function PutLE(v: nat, n: nat): (b: seq<Byte>)
    ensures |b| == n
  {
    if n == 0 then [] else [v % 0x100] + PutLE(v / 0x100, n - 1)
  }

  lemma {:induction false} GetPutLE(v: nat, n: nat)
    requires v < Range(n)
    ensures GetLE(PutLE(v, n)) == v
  {
    if n > 0 {
      GetPutLE(v / 0x100, n - 1);
      assert PutLE(v, n)[1..] == PutLE(v / 0x100, n - 1);
    }
  }

  lemma {:induction false} PutGetLE(b: seq<Byte>)
    ensures PutLE(GetLE(b), |b|) == b
  {
    if b == [] {
    } else {
      PutGetLE(b[1..]);
      assert b == [b[0]] + b[1..];
    }
  }

  // ---- Lists ----

  function Concat<T>(parts: seq<seq<T>>): seq<T> {
    if parts == [] then [] else parts[0] + Concat(parts[1..])
  }

  lemma TakeNext<T>(s: seq<T>, i: nat)
    requires i < |s|
    ensures s[..i + 1] == s[..i] + [s[i]]
  {}

  lemma DropDrop<T>(s: seq<T>, a: nat, b: nat)
    requires a + b <= |s|
    ensures s[a..][b..] == s[a + b..]
  {}

  lemma PrefixTrans<T>(a: seq<T>, b: seq<T>, c: seq<T>)
    requires a <= b <= c
    ensures a <= c
  {}

  lemma Assoc<T>(a: seq<T>, b: seq<T>, c: seq<T>)
    ensures a + (b + c) == a + b + c
  {}

  lemma {:induction false} ConcatAppend<T>(a: seq<seq<T>>, b: seq<seq<T>>)
    ensures Concat(a + b) == Concat(a) + Concat(b)
  {
    if a == [] {
      assert a + b == b;
    } else {
      var ab := a + b;
      assert ab[0] == a[0] && ab[1..] == a[1..] + b;
      ConcatAppend(a[1..], b);
      Assoc(a[0], Concat(a[1..]), Concat(b));
    }
  }

  lemma ConcatOne<T>(p: seq<T>)
    ensures Concat([p]) == p
  {
    assert [p][1..] == [];
  }

  predicate Increasing(s: seq<nat>) {
    forall i, j :: 0 <= i < j < |s| ==> s[i] < s[j]
  }

  lemma IncreasingSnoc(s: seq<nat>, n: nat)
    requires Increasing(s) && forall m :: m in s ==> m < n
    ensures Increasing(s + [n])
  {
    forall i, j | 0 <= i < j < |s + [n]| ensures (s + [n])[i] < (s + [n])[j] {
      assert s[i] in s;
    }
  }

  lemma IncreasingWithout(a: seq<nat>, n: nat, b: seq<nat>)
    requires Increasing(a + ([n] + b))
    ensures Increasing(a + b)
  {
    var s := a + ([n] + b);
    forall i, j | 0 <= i < j < |a + b| ensures (a + b)[i] < (a + b)[j] {
      assert (a + b)[i] == s[if i < |a| then i else i + 1];
      assert (a + b)[j] == s[if j < |a| then j else j + 1];
    }
  }

  lemma {:induction false} IncreasingOnce(s: seq<nat>, n: nat)
    requires Increasing(s)
    ensures multiset(s)[n] <= 1
    decreases |s|
  {
    if s == [] {
    } else {
      var rest, x := s[..|s| - 1], s[|s| - 1];
      assert s == rest + [x];
      IncreasingOnce(rest, n);
      forall i | 0 <= i < |rest| ensures rest[i] != x {
        assert s[i] < s[|s| - 1];
      }
      assert x !in rest;
    }
  }

  lemma LastIsGreatest(s: seq<nat>)
    requires Increasing(s) && s != []
    ensures forall n :: n in s ==> n <= s[|s| - 1]
  {}

  lemma SameLast(s: seq<nat>, t: seq<nat>)
    requires Increasing(s) && Increasing(t) && multiset(s) == multiset(t) && s != []
    ensures t != [] && s[|s| - 1] == t[|t| - 1]
  {
    var x := s[|s| - 1];
    assert x in multiset(t);
    var y := t[|t| - 1];
    assert y in multiset(s);
    LastIsGreatest(s);
    LastIsGreatest(t);
  }

  lemma WithoutLast(s: seq<nat>)
    requires s != []
    ensures multiset(s[..|s| - 1]) == multiset(s) - multiset{s[|s| - 1]}
    ensures Increasing(s) ==> Increasing(s[..|s| - 1])
    ensures s == s[..|s| - 1] + [s[|s| - 1]]
  {
    assert s == s[..|s| - 1] + [s[|s| - 1]];
  }

  /** An increasing list is determined by its elements. */
  lemma {:induction false} IncreasingUnique(s: seq<nat>, t: seq<nat>)
    requires Increasing(s) && Increasing(t) && multiset(s) == multiset(t)
    ensures s == t
    decreases |s|
  {
    if s == [] {
      assert |multiset(t)| == 0;
    } else {
      SameLast(s, t);
      WithoutLast(s);
      WithoutLast(t);
      hide Increasing;
      IncreasingUnique(s[..|s| - 1], t[..|t| - 1]);
    }
  }

  /** The elements of s at the given positions. */
  function Select<T>(s: seq<T>, at: seq<nat>): seq<T>
    requires forall i :: 0 <= i < |at| ==> at[i] < |s|
  {
    seq(|at|, i requires 0 <= i < |at| => s[at[i]])
  }
}

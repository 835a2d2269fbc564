/** Sequence operations shared by the models: the list primitives the C code is
    written with (find, push once, remove the first match) and their laws. */
module Sequences {

  datatype Option<+T> = None | Some(value: T)

  predicate NoDup<T(==)>(s: seq<T>) {
    forall i, j :: 0 <= i < j < |s| ==> s[i] != s[j]
  }

  lemma PushNew<T>(s: seq<T>, x: T)
    requires NoDup(s) && x !in s
    ensures NoDup(s + [x])
  {}

  lemma NoDupTail<T>(s: seq<T>)
    requires s != []
    ensures NoDup(s) ==> NoDup(s[1..]) && s[0] !in s[1..]
  {}

  /** Position of the first `x` from `k` on, or |s| when there is none. */
  function IndexFrom<T(==)>(s: seq<T>, x: T, k: nat): (i: nat)
    requires k <= |s|
    ensures k <= i <= |s|
    ensures i < |s| ==> s[i] == x
    ensures forall j :: k <= j < i ==> s[j] != x
    decreases |s| - k
  {
    if k == |s| || s[k] == x then k else IndexFrom(s, x, k + 1)
  }

  /** Position of the first `x`, or |s| when there is none. */
  function IndexOf<T(==)>(s: seq<T>, x: T): (i: nat)
    ensures i <= |s|
    ensures i < |s| <==> x in s
    ensures i < |s| ==> s[i] == x
    ensures x !in s[..i]
  {
    IndexFrom(s, x, 0)
  }

  lemma HeadTail<T>(s: seq<T>)
    requires s != []
    ensures s == [s[0]] + s[1..]
  {}

  lemma MoveHead<T>(a: seq<T>, x: T, b: seq<T>)
    ensures a + ([x] + b) == (a + [x]) + b
    ensures (a + ([x] + b))[..|a|] == a && (a + ([x] + b))[|a|] == x
  {}

  lemma TakeNext<T>(s: seq<T>, k: nat)
    requires k < |s|
    ensures s[..k + 1] == s[..k] + [s[k]]
  {}

  /** `s` without its last element if that is `x`. */
  function TrimEnd<T(==)>(s: seq<T>, x: T): seq<T> {
    if s != [] && s[|s| - 1] == x then s[..|s| - 1] else s
  }

  lemma TrimEndCons<T>(h: T, rest: seq<T>, x: T)
    requires rest != []
    ensures TrimEnd([h] + rest, x) == [h] + TrimEnd(rest, x)
  {}

  lemma InitLast<T>(s: seq<T>)
    requires s != []
    ensures s == s[..|s| - 1] + [s[|s| - 1]]
  {}

  function Without<T>(s: seq<T>, i: nat): (r: seq<T>)
    requires i < |s|
    ensures |r| == |s| - 1
    ensures forall k :: 0 <= k < i ==> r[k] == s[k]
    ensures forall k :: i <= k < |r| ==> r[k] == s[k + 1]
  {
    s[..i] + s[i + 1..]
  }

  function RemoveFirst<T(==)>(s: seq<T>, x: T): (r: seq<T>)
    ensures forall y :: y in r ==> y in s
    ensures forall y :: y in s && y != x ==> y in r
    ensures x !in s ==> r == s
  {
    var i := IndexOf(s, x);
    if i < |s| then
      assert s == s[..i] + [s[i]] + s[i + 1..];
      Without(s, i)
    else s
  }

  lemma RemoveFirstNoDup<T>(s: seq<T>, x: T)
    requires NoDup(s)
    ensures NoDup(RemoveFirst(s, x))
    ensures x !in RemoveFirst(s, x)
  {
    var i := IndexOf(s, x);
    if i < |s| {
      var r := Without(s, i);
      forall a, b | 0 <= a < b < |r| ensures r[a] != r[b] {
        var a', b' := if a < i then a else a + 1, if b < i then b else b + 1;
        assert s[a'] != s[b'];
      }
      forall a | 0 <= a < |r| ensures r[a] != x {
        var a' := if a < i then a else a + 1;
        assert a' != i && s[a'] == r[a];
      }
    }
  }

  function AddOnce<T(==)>(s: seq<T>, x: T): (r: seq<T>)
    ensures forall y :: y in r ==> y in s || y == x
    ensures x in r && forall y :: y in s ==> y in r
    ensures NoDup(s) ==> NoDup(r)
  {
    if x in s then s else s + [x]
  }

  /** The elements other than `x`, in their old order. */
  function Except<T(==)>(s: seq<T>, x: T): (r: seq<T>)
    ensures forall y :: y in r ==> y in s && y != x
    ensures forall y :: y in s && y != x ==> y in r
  {
    if s == [] then [] else (if s[0] == x then [] else [s[0]]) + Except(s[1..], x)
  }

  lemma {:induction false} ExceptAbsent<T>(s: seq<T>, x: T)
    requires x !in s
    ensures Except(s, x) == s
  {
    if s == [] {
    } else {
      ExceptAbsent(s[1..], x);
    }
  }

  lemma {:induction false} IndexFromAt<T>(s: seq<T>, x: T, j: nat, k: nat)
    requires j <= k < |s| && s[k] == x && forall i :: j <= i < k ==> s[i] != x
    ensures IndexFrom(s, x, j) == k
    decreases k - j
  {
    if j >= k {
    } else {
      IndexFromAt(s, x, j + 1, k);
    }
  }

  lemma IndexOfAt<T>(s: seq<T>, x: T, k: nat)
    requires k < |s| && s[k] == x && x !in s[..k]
    ensures IndexOf(s, x) == k
  {
    forall i | 0 <= i < k ensures s[i] != x { assert s[..k][i] == s[i]; }
    IndexFromAt(s, x, 0, k);
  }

  lemma IndexOfCons<T>(s: seq<T>, x: T)
    requires s != [] && s[0] != x
    ensures IndexOf(s, x) == 1 + IndexOf(s[1..], x)
  {
    var k := IndexOf(s[1..], x);
    assert s[..1 + k] == [s[0]] + s[1..][..k];
    if k < |s[1..]| {
      IndexOfAt(s, x, 1 + k);
    } else {
      assert s[..1 + k] == s;
    }
  }

  lemma RemoveFirstCons<T>(s: seq<T>, x: T)
    requires s != []
    ensures RemoveFirst(s, x) == if s[0] == x then s[1..] else [s[0]] + RemoveFirst(s[1..], x)
  {
    if s[0] == x {
      assert Without(s, 0) == s[1..];
    } else {
      IndexOfCons(s, x);
      var i := IndexOf(s, x);
      if i < |s| {
        assert Without(s, i) == [s[0]] + Without(s[1..], i - 1);
      } else {
        assert s == [s[0]] + s[1..];
      }
    }
  }

  /** On a list without repeats, dropping the first match is dropping all of them. */
  lemma {:induction false} RemoveFirstIsExcept<T>(s: seq<T>, x: T)
    requires NoDup(s)
    ensures RemoveFirst(s, x) == Except(s, x)
  {
    if s == [] {
    } else {
      RemoveFirstCons(s, x);
      if s[0] == x {
        ExceptAbsent(s[1..], x);
      } else {
        RemoveFirstIsExcept(s[1..], x);
      }
    }
  }

  /** The first position with a match, or the length. */
  function FirstMatch<T>(s: seq<T>, matches: T -> bool): (k: nat)
    ensures k <= |s|
    ensures k < |s| ==> matches(s[k])
    ensures forall i :: 0 <= i < k ==> !matches(s[i])
  {
    if s == [] || matches(s[0]) then 0 else 1 + FirstMatch(s[1..], matches)
  }

  lemma FirstMatchIs<T>(s: seq<T>, matches: T -> bool, k: nat)
    requires k <= |s| && (k < |s| ==> matches(s[k])) && forall i :: 0 <= i < k ==> !matches(s[i])
    ensures FirstMatch(s, matches) == k
  {}

  function RemoveMatch<T>(s: seq<T>, matches: T -> bool): seq<T> {
    var k := FirstMatch(s, matches);
    if k < |s| then Without(s, k) else s
  }

  /** `f` of the pieces of length `k`, the last of which may be shorter, put together. */
  function Chunks<A, B>(s: seq<A>, k: nat, f: seq<A> -> seq<B>): seq<B>
    requires k > 0
    decreases |s|
  {
    if s == [] then [] else if |s| <= k then f(s) else f(s[..k]) + Chunks(s[k..], k, f)
  }

  lemma ChunksStep<A, B>(s: seq<A>, k: nat, f: seq<A> -> seq<B>)
    requires 0 < k <= |s|
    ensures Chunks(s, k, f) == f(s[..k]) + Chunks(s[k..], k, f)
  {
    if |s| == k { assert s[..k] == s; }
  }

  lemma SliceTwice<A>(s: seq<A>, k: nat, r: nat)
    requires k <= r <= |s|
    ensures s[k..][..r - k] == s[..r][k..] && s[k..][r - k..] == s[r..] && s[..r][..k] == s[..k]
  {}

  /** A whole number of pieces. */
  predicate Whole(r: nat, k: nat)
    requires k > 0
    decreases r
  {
    r == 0 || (r >= k && Whole(r - k, k))
  }

  lemma {:induction false} WholeTimes(m: nat, k: nat)
    requires k > 0
    ensures Whole(m * k, k)
    decreases m
  {
    if m == 0 {
    } else {
      assert m * k == k + (m - 1) * k && (m - 1) * k >= 0;
      WholeTimes(m - 1, k);
    }
  }

  lemma {:induction false} ChunksSplitAt<A, B>(s: seq<A>, k: nat, f: seq<A> -> seq<B>, r: nat)
    requires k > 0 && r <= |s| && Whole(r, k)
    ensures Chunks(s, k, f) == Chunks(s[..r], k, f) + Chunks(s[r..], k, f)
    decreases r
  {
    if r == 0 {
      assert s[0..] == s;
    } else {
      ChunksStep(s, k, f);
      ChunksStep(s[..r], k, f);
      SliceTwice(s, k, r);
      ChunksSplitAt(s[k..], k, f, r - k);
    }
  }

  /** A cut after `m` whole pieces. */
  lemma ChunksSplit<A, B>(s: seq<A>, k: nat, f: seq<A> -> seq<B>, m: nat)
    requires k > 0 && m * k <= |s|
    ensures Chunks(s, k, f) == Chunks(s[..m * k], k, f) + Chunks(s[m * k..], k, f)
  {
    WholeTimes(m, k);
    ChunksSplitAt(s, k, f, m * k);
  }

  /** `g` on pieces of length `n` undoes `f` on pieces of length `k`, for elements in `ok`. */
  lemma {:induction false} ChunksInverse<A(!new), B>(s: seq<A>, k: nat, f: seq<A> -> seq<B>, n: nat,
                                                     g: seq<B> -> seq<A>, m: nat, ok: A -> bool)
    requires k > 0 && n > 0 && |s| == m * k && forall a :: a in s ==> ok(a)
    requires forall x: seq<A> {:trigger f(x)} ::
               |x| == k && (forall a :: a in x ==> ok(a)) ==> |f(x)| == n && g(f(x)) == x
    ensures |Chunks(s, k, f)| == m * n
    ensures Chunks(Chunks(s, k, f), n, g) == s
    decreases m
  {
    if m == 0 {
      assert s == [];
    } else {
      assert m * k == k + (m - 1) * k && m * n == n + (m - 1) * n;
      ChunksStep(s, k, f);
      ChunksInverse(s[k..], k, f, n, g, m - 1, ok);
      var t := Chunks(s, k, f);
      assert |f(s[..k])| == n;
      assert t[..n] == f(s[..k]) && t[n..] == Chunks(s[k..], k, f);
      ChunksStep(t, n, g);
    }
  }

  /** Maps with the same entries are the same. */
  lemma SameMap<K, V>(a: map<K, V>, b: map<K, V>)
    requires forall k :: (k in a <==> k in b) && (k in a ==> a[k] == b[k])
    ensures a == b
  {}
}

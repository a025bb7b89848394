/** Strings as the Go program sees them: sequences of bytes, ordered byte by byte. */
module Text {

  /** One byte of a datagram or of a byte stream, written as the character with that code. */
  type Byte = c: char | c as int < 256

  type Bytes = seq<Byte>

  datatype Option<+T> = None | Some(value: T)

  datatype Result<+T> = Ok(value: T) | Err(error: string)

  predicate IsPrefix(p: string, s: string) {
    |p| <= |s| && s[..|p|] == p
  }

  /** The order of Go's `<=` on strings. */
  predicate Leq(a: string, b: string)
    decreases |a|
  {
    a == [] || (b != [] && (a[0] < b[0] || (a[0] == b[0] && Leq(a[1..], b[1..]))))
  }

  /** At position k two strings differ for the first time, and the first one has the smaller byte. */
  ghost predicate SmallerAt(a: string, b: string, k: nat) {
    k < |a| && k < |b| && a[..k] == b[..k] && a[k] < b[k]
  }

  /** A string comes before another if it is a prefix of it, or smaller where they first differ. */
  lemma {:induction false} LeqIff(a: string, b: string)
    ensures Leq(a, b) <==> IsPrefix(a, b) || exists k: nat :: SmallerAt(a, b, k)
    decreases |a|
  {
    if a != [] && b != [] && a[0] == b[0] {
      LeqIff(a[1..], b[1..]);
      assert a == [a[0]] + a[1..] && b == [b[0]] + b[1..];
      forall k: nat ensures SmallerAt(a[1..], b[1..], k) <==> SmallerAt(a, b, k + 1) {
        if k < |a| - 1 && k < |b| - 1 { SameStart(a, b, k); }
      }
      assert IsPrefix(a, b) <==> IsPrefix(a[1..], b[1..]) by { if |a| <= |b| { SameStart(a, b, |a| - 1); } }
      if k: nat :| SmallerAt(a, b, k) { assert SmallerAt(a[1..], b[1..], k - 1); }
    } else if a != [] && b != [] && a[0] < b[0] {
      assert SmallerAt(a, b, 0);
    } else if a != [] && b != [] {
      assert a[..1][0] == a[0] && b[..1][0] == b[0];
      assert forall k: nat | SmallerAt(a, b, k) :: k > 0 && a[..k][0] == b[..k][0];
    }
  }

  lemma SameStart(a: string, b: string, k: nat)
    requires k < |a| && k < |b| && a[0] == b[0]
    ensures a[..k + 1] == b[..k + 1] <==> a[1..][..k] == b[1..][..k]
  {
    assert a[..k + 1] == [a[0]] + a[1..][..k] && b[..k + 1] == [b[0]] + b[1..][..k];
    assert a[..k + 1][1..] == a[1..][..k] && b[..k + 1][1..] == b[1..][..k];
  }

  lemma {:induction false} LeqTotal(a: string, b: string)
    ensures Leq(a, b) || Leq(b, a)
    decreases |a|
  {
    if a != [] && b != [] {
      LeqTotal(a[1..], b[1..]);
    }
  }

  lemma {:induction false} LeqAntisymmetric(a: string, b: string)
    requires Leq(a, b) && Leq(b, a)
    ensures a == b
    decreases |a|
  {
    if a != [] && b != [] {
      LeqAntisymmetric(a[1..], b[1..]);
      assert a == [a[0]] + a[1..] && b == [b[0]] + b[1..];
    }
  }

  lemma {:induction false} LeqTransitive(a: string, b: string, c: string)
    requires Leq(a, b) && Leq(b, c)
    ensures Leq(a, c)
    decreases |a|
  {
    if a != [] && a[0] == b[0] == c[0] {
      LeqTransitive(a[1..], b[1..], c[1..]);
    }
  }
}

/** What the library call `sort.Slice` promises, for elements compared by a string key. */
module Sorting {
  import opened Text

  ghost predicate SortedBy<T(!new)>(key: T -> string, xs: seq<T>) {
    forall i, j :: 0 <= i < j < |xs| ==> Leq(key(xs[i]), key(xs[j]))
  }

  function Insert<T>(key: T -> string, x: T, xs: seq<T>): (r: seq<T>)
    ensures multiset(r) == multiset{x} + multiset(xs)
  {
    if xs == [] then [x]
    else if Leq(key(x), key(xs[0])) then [x] + xs
    else
      assert xs == [xs[0]] + xs[1..];
      [xs[0]] + Insert(key, x, xs[1..])
  }

  function Sort<T>(key: T -> string, xs: seq<T>): (r: seq<T>)
    ensures multiset(r) == multiset(xs)
    ensures |r| == |xs|
  {
    if xs == [] then []
    else
      assert xs == [xs[0]] + xs[1..];
      var r := Insert(key, xs[0], Sort(key, xs[1..]));
      assert |multiset(r)| == |multiset(xs)|;
      r
  }

  lemma {:induction false} InsertSorted<T(!new)>(key: T -> string, x: T, xs: seq<T>)
    requires SortedBy(key, xs)
    ensures SortedBy(key, Insert(key, x, xs))
  {
    if xs != [] {
      if Leq(key(x), key(xs[0])) {
        forall j | 0 <= j < |xs| ensures Leq(key(x), key(xs[j])) {
          if j > 0 { LeqTransitive(key(x), key(xs[0]), key(xs[j])); }
        }
      } else {
        LeqTotal(key(x), key(xs[0]));
        InsertSorted(key, x, xs[1..]);
        var r := Insert(key, x, xs[1..]);
        forall j | 0 <= j < |r| ensures Leq(key(xs[0]), key(r[j])) {
          assert r[j] in multiset(r);
          assert r[j] == x || r[j] in xs[1..];
        }
      }
    }
  }

  /** The result is in order, and it has exactly the elements it was given. */
  lemma {:induction false} SortSorts<T(!new)>(key: T -> string, xs: seq<T>)
    ensures SortedBy(key, Sort(key, xs)) && multiset(Sort(key, xs)) == multiset(xs)
  {
    if xs != [] {
      SortSorts(key, xs[1..]);
      InsertSorted(key, xs[0], Sort(key, xs[1..]));
    }
  }

  lemma HeadIsLeast<T(!new)>(key: T -> string, a: seq<T>, x: T)
    requires SortedBy(key, a) && x in a
    ensures Leq(key(a[0]), key(x))
  {
    LeqTotal(key(x), key(x));
    var i :| 0 <= i < |a| && a[i] == x;
  }

  lemma SameElements<T>(a: seq<T>, b: seq<T>, x: T)
    requires multiset(a) == multiset(b) && x in a
    ensures x in b
  {
    assert x in multiset(a);
    assert x in multiset(b);
  }

  lemma TailsAgree<T>(a: seq<T>, b: seq<T>)
    requires a != [] && b != [] && a[0] == b[0] && multiset(a) == multiset(b)
    ensures multiset(a[1..]) == multiset(b[1..])
  {
    assert a == [a[0]] + a[1..] && b == [b[0]] + b[1..];
    assert multiset(a[1..]) == multiset(a) - multiset{a[0]};
    assert multiset(b[1..]) == multiset(b) - multiset{b[0]};
  }

  /** When the key tells the elements apart, order and contents leave one possible result,
      so it does not matter which sorting algorithm the library runs, nor that it is unstable. */
  lemma {:induction false} SortUnique<T(!new)>(key: T -> string, a: seq<T>, b: seq<T>)
    requires SortedBy(key, a) && SortedBy(key, b) && multiset(a) == multiset(b)
    requires forall x, y :: x in a && y in a && key(x) == key(y) ==> x == y
    ensures a == b
  {
    assert |multiset(a)| == |multiset(b)|;
    if a != [] {
      SameElements(a, b, a[0]);
      SameElements(b, a, b[0]);
      HeadIsLeast(key, a, b[0]);
      HeadIsLeast(key, b, a[0]);
      LeqAntisymmetric(key(a[0]), key(b[0]));
      TailsAgree(a, b);
      SortUnique(key, a[1..], b[1..]);
    }
  }

  // --- Distinct keys -----------------------------------------------------------------

  ghost predicate DistinctBy<T(!new)>(key: T -> string, xs: seq<T>) {
    forall i, j :: 0 <= i < j < |xs| ==> key(xs[i]) != key(xs[j])
  }

  lemma {:induction false} CountOnce<T(!new)>(key: T -> string, xs: seq<T>, x: T)
    requires DistinctBy(key, xs)
    ensures multiset(xs)[x] == if x in xs then 1 else 0
  {
    if xs != [] {
      var n := |xs| - 1;
      assert xs == xs[..n] + [xs[n]];
      CountOnce(key, xs[..n], x);
      assert multiset(xs)[x] == multiset(xs[..n])[x] + multiset([xs[n]])[x];
      assert x == xs[n] ==> x !in xs[..n];
    }
  }

  lemma CountedTwice<T>(xs: seq<T>, i: nat, j: nat)
    requires i < j < |xs| && xs[i] == xs[j]
    ensures multiset(xs)[xs[i]] >= 2
  {
    assert xs == xs[..j] + [xs[j]] + xs[j + 1..];
    assert xs[..j][i] in multiset(xs[..j]);
    assert multiset(xs)[xs[j]] == multiset(xs[..j])[xs[j]] + multiset([xs[j]])[xs[j]] + multiset(xs[j + 1..])[xs[j]];
  }

  /** Sorting keeps the elements apart, and has the same members. */
  lemma SortDistinct<T(!new)>(key: T -> string, xs: seq<T>)
    requires DistinctBy(key, xs)
    ensures DistinctBy(key, Sort(key, xs)) && forall x :: x in Sort(key, xs) <==> x in xs
  {
    var sorted := Sort(key, xs);
    forall x ensures x in sorted <==> x in xs {
      assert x in multiset(xs) <==> x in multiset(sorted);
    }
    forall i, j | 0 <= i < j < |sorted| ensures key(sorted[i]) != key(sorted[j]) {
      CountOnce(key, xs, sorted[i]);
      if sorted[i] == sorted[j] { CountedTwice(sorted, i, j); }
      SameKeySame(key, xs, sorted[i], sorted[j]);
    }
  }

  lemma SameKeySame<T(!new)>(key: T -> string, xs: seq<T>, x: T, y: T)
    requires DistinctBy(key, xs) && x in xs && y in xs
    ensures key(x) == key(y) ==> x == y
  {
  }

  /** A sorted listing without repeated keys is determined by its members. */
  lemma SameListing<T(!new)>(key: T -> string, a: seq<T>, b: seq<T>)
    requires SortedBy(key, a) && DistinctBy(key, a) && SortedBy(key, b) && DistinctBy(key, b)
    requires forall x :: x in a <==> x in b
    ensures a == b
  {
    forall x ensures multiset(a)[x] == multiset(b)[x] {
      CountOnce(key, a, x);
      CountOnce(key, b, x);
    }
    assert multiset(a) == multiset(b);
    SortUnique(key, a, b);
  }
}

/** Go's time.Duration counts nanoseconds. */
module Durations {
  const SECOND := 1_000_000_000
  const MINUTE := 60 * SECOND
  const HOUR := 60 * MINUTE

  const MIN_BACKOFF := SECOND
  const MAX_BACKOFF := 15 * SECOND

  /** The wait after a wait that did not help. */
  function Doubled(backoff: int): int {
    if 2 * backoff > MAX_BACKOFF then MAX_BACKOFF else 2 * backoff
  }

  function FirstSleeps(): seq<int> { [1, 2, 4, 8] }

  /** The wait after this many failures in a row: 1, 2, 4, 8 and from then on 15 seconds. */
  function NthSleep(failures: nat): int {
    if failures < 4 then FirstSleeps()[failures] * SECOND else MAX_BACKOFF
  }

  lemma NthSleepIs(failures: nat)
    ensures NthSleep(failures)
            == (if failures == 0 then 1 else if failures == 1 then 2 else if failures == 2 then 4
                else if failures == 3 then 8 else 15) * 1_000_000_000
  {
  }
}

/** Python's stable sort, as insertion into a sorted list, and the order of strings. */
module Sorting {

  /** `before` is the strict part of a total preorder. */
  ghost predicate StrictOrder<T(!new)>(before: (T, T) -> bool) {
    && (forall a, b :: before(a, b) ==> !before(b, a))
    && (forall a, b, c :: before(a, c) ==> before(a, b) || before(b, c))
  }

  ghost predicate Sorted<T>(before: (T, T) -> bool, s: seq<T>) {
    forall i, j :: 0 <= i < j < |s| ==> !before(s[j], s[i])
  }

  /** Behind every element that x does not precede. */
  function Insert<T>(before: (T, T) -> bool, s: seq<T>, x: T): seq<T> {
    if s == [] then [x]
    else if before(x, s[0]) then [x] + s
    else [s[0]] + Insert(before, s[1..], x)
  }

  function Sort<T>(before: (T, T) -> bool, s: seq<T>): seq<T> {
    if s == [] then [] else Insert(before, Sort(before, s[..|s| - 1]), s[|s| - 1])
  }

  lemma {:induction false} InsertElements<T>(before: (T, T) -> bool, s: seq<T>, x: T)
    ensures multiset(Insert(before, s, x)) == multiset(s) + multiset{x}
  {
    if s != [] {
      assert s == [s[0]] + s[1..];
      InsertElements(before, s[1..], x);
    }
  }

  lemma InMultiset<T>(s: seq<T>, x: T)
    ensures x in s <==> x in multiset(s)
  {
  }

  lemma Between<T(!new)>(before: (T, T) -> bool, a: T, b: T, c: T)
    requires StrictOrder(before) && before(a, c)
    ensures before(a, b) || before(b, c)
  {
  }

  lemma {:induction false} InsertSorted<T(!new)>(before: (T, T) -> bool, s: seq<T>, x: T)
    requires StrictOrder(before) && Sorted(before, s)
    ensures Sorted(before, Insert(before, s, x))
  {
    if s == [] {
    } else if before(x, s[0]) {
      forall j | 0 <= j < |s|
        ensures !before(s[j], x)
      {
        Between(before, x, s[j], s[0]);
      }
    } else {
      var rest := Insert(before, s[1..], x);
      InsertSorted(before, s[1..], x);
      InsertElements(before, s[1..], x);
      forall j | 0 <= j < |rest|
        ensures !before(rest[j], s[0])
      {
        InMultiset(rest, rest[j]);
        InMultiset(s[1..], rest[j]);
        assert rest[j] == x || rest[j] in s[1..];
      }
    }
  }

  /** Sorting permutes the list and puts it in order. */
  lemma {:induction false} SortMeaning<T(!new)>(before: (T, T) -> bool, s: seq<T>)
    requires StrictOrder(before)
    ensures Sorted(before, Sort(before, s))
    ensures multiset(Sort(before, s)) == multiset(s) && |Sort(before, s)| == |s|
  {
    if s != [] {
      var n := |s| - 1;
      SortMeaning(before, s[..n]);
      InsertSorted(before, Sort(before, s[..n]), s[n]);
      InsertElements(before, Sort(before, s[..n]), s[n]);
      assert s == s[..n] + [s[n]];
      assert |multiset(Sort(before, s))| == |multiset(s)|;
    }
  }

  /** No two elements of the list tie. */
  ghost predicate NoTies<T>(before: (T, T) -> bool, s: seq<T>) {
    forall i, j :: 0 <= i < j < |s| ==> before(s[i], s[j]) || before(s[j], s[i])
  }

  lemma Untied<T>(before: (T, T) -> bool, s: seq<T>, p: nat, q: nat)
    requires NoTies(before, s) && p < |s| && q < |s| && p != q
    ensures before(s[p], s[q]) || before(s[q], s[p])
  {
  }

  ghost predicate StrictlySorted<T>(before: (T, T) -> bool, s: seq<T>) {
    forall i, j :: 0 <= i < j < |s| ==> before(s[i], s[j])
  }

  /** Without ties there is only one sorted arrangement. */
  lemma {:induction false} SortedUnique<T(!new)>(before: (T, T) -> bool, a: seq<T>, b: seq<T>)
    requires StrictOrder(before) && StrictlySorted(before, a) && StrictlySorted(before, b)
    requires multiset(a) == multiset(b)
    ensures a == b
  {
    assert |a| == |multiset(a)| == |multiset(b)| == |b|;
    if a != [] {
      InMultiset(a, b[0]);
      InMultiset(b, a[0]);
      InMultiset(a, a[0]);
      InMultiset(b, b[0]);
      assert a[0] in b && b[0] in a;
      assert a[0] == b[0];
      assert a == [a[0]] + a[1..] && b == [b[0]] + b[1..];
      assert multiset(a[1..]) == multiset(a) - multiset{a[0]};
      assert multiset(b[1..]) == multiset(b) - multiset{b[0]};
      SortedUnique(before, a[1..], b[1..]);
    }
  }

  lemma {:induction false} TiesPermute<T(!new)>(before: (T, T) -> bool, s: seq<T>, t: seq<T>)
    requires StrictOrder(before) && NoTies(before, s) && multiset(t) == multiset(s) && Sorted(before, t)
    ensures StrictlySorted(before, t)
  {
    forall i, j | 0 <= i < j < |t|
      ensures before(t[i], t[j])
    {
      if t[i] == t[j] {
        TwoCopies(t, i, j);
        TwoPlaces(s, t[i]);
      } else {
        InMultiset(t, t[i]);
        InMultiset(t, t[j]);
        InMultiset(s, t[i]);
        InMultiset(s, t[j]);
        var p :| 0 <= p < |s| && s[p] == t[i];
        var q :| 0 <= q < |s| && s[q] == t[j];
        Untied(before, s, p, q);
      }
    }
  }

  lemma TwoCopies<T>(t: seq<T>, i: nat, j: nat)
    requires i < j < |t| && t[i] == t[j]
    ensures multiset(t)[t[i]] >= 2
  {
    assert t == t[..j] + t[j..];
    assert t[i] in t[..j] && t[j] in t[j..];
  }

  lemma {:induction false} TwoPlaces<T>(s: seq<T>, x: T)
    requires multiset(s)[x] >= 2
    ensures exists i, j :: 0 <= i < j < |s| && s[i] == x && s[j] == x
  {
    var n := |s| - 1;
    assert s == s[..n] + [s[n]];
    if s[n] == x {
      InMultiset(s[..n], x);
      var i :| 0 <= i < n && s[..n][i] == x;
      assert s[i] == x && s[n] == x;
    } else {
      TwoPlaces(s[..n], x);
      var i, j :| 0 <= i < j < n && s[..n][i] == x && s[..n][j] == x;
      assert s[i] == x && s[j] == x;
    }
  }

  /** Without ties the result does not depend on the order of the list. */
  lemma {:induction false} SortIgnoresOrder<T(!new)>(before: (T, T) -> bool, s: seq<T>, t: seq<T>)
    requires StrictOrder(before) && NoTies(before, s) && multiset(s) == multiset(t)
    ensures Sort(before, s) == Sort(before, t)
  {
    SortMeaning(before, s);
    SortMeaning(before, t);
    TiesPermute(before, s, Sort(before, s));
    TiesPermute(before, s, Sort(before, t));
    SortedUnique(before, Sort(before, s), Sort(before, t));
  }

  // ---- strings ----

  predicate TextBefore(a: string, b: string) {
    if b == [] then false
    else if a == [] then true
    else a[0] < b[0] || (a[0] == b[0] && TextBefore(a[1..], b[1..]))
  }

  lemma {:induction false} TextAsymmetric(a: string, b: string)
    ensures !(TextBefore(a, b) && TextBefore(b, a))
    ensures TextBefore(a, b) || TextBefore(b, a) || a == b
  {
    if a != [] && b != [] {
      TextAsymmetric(a[1..], b[1..]);
      assert a == [a[0]] + a[1..] && b == [b[0]] + b[1..];
    }
  }

  lemma {:induction false} TextBetween(a: string, b: string, c: string)
    requires TextBefore(a, c)
    ensures TextBefore(a, b) || TextBefore(b, c)
  {
    if a != [] && b != [] {
      if a[0] == b[0] == c[0] {
        TextBetween(a[1..], b[1..], c[1..]);
      }
    }
  }
}

/**
 * List arithmetic shared by the store and the views: Firestore's
 * `arrayUnion` (append what is missing) and `arrayRemove` (drop every
 * occurrence), and the add-or-remove toggle used for selections.
 */
module Seqs {

  predicate Distinct<T(==,!new)>(s: seq<T>) {
    forall i, j :: 0 <= i < j < |s| ==> s[i] != s[j]
  }

  /** `a` can be obtained from `b` by deleting elements, keeping the order of the rest. */
  predicate IsSubsequence<T(==,!new)>(a: seq<T>, b: seq<T>)
    decreases |b|
  {
    a == [] || (b != [] && ((a[0] == b[0] && IsSubsequence(a[1..], b[1..])) || IsSubsequence(a, b[1..])))
  }

  lemma {:induction false} SubsequenceRefl<T(!new)>(s: seq<T>)
    ensures IsSubsequence(s, s)
    decreases |s|
  {
    if s != [] { SubsequenceRefl(s[1..]); }
  }

  /**
   * `arrayRemove(...xs)`: every element of `s` that equals some element of
   * `xs` is removed, the rest keeps its order.
   */
  function RemoveAll<T(==,!new)>(s: seq<T>, xs: seq<T>): (r: seq<T>)
    ensures forall x :: x in r <==> x in s && x !in xs
    ensures IsSubsequence(r, s)
    ensures |r| <= |s|
    ensures Distinct(s) ==> Distinct(r)
  {
    if s == [] then []
    else
      var rest := RemoveAll(s[1..], xs);
      assert s == [s[0]] + s[1..];
      if s[0] in xs then rest else [s[0]] + rest
  }

  /**
   * `arrayUnion(...xs)`: each element of `xs` not yet present is appended,
   * once, in the order of `xs`; what was there stays in front, untouched.
   */
  function AppendMissing<T(==,!new)>(s: seq<T>, xs: seq<T>): (r: seq<T>)
    ensures s <= r
    ensures forall x :: x in r <==> x in s || x in xs
    ensures |r| <= |s| + |xs|
    ensures Distinct(s) ==> Distinct(r)
    ensures IsSubsequence(r[|s|..], xs)
    decreases |xs|
  {
    if xs == [] then
      assert s[|s|..] == [];
      s
    else
      var s' := if xs[0] in s then s else s + [xs[0]];
      var rest := AppendMissing(s', xs[1..]);
      assert IsSubsequence(rest[|s|..], xs) by {
        if xs[0] in s {
          assert IsSubsequence(rest[|s|..], xs[1..]);
        } else {
          assert rest[|s|..][0] == xs[0];
          assert rest[|s|..][1..] == rest[|s'|..];
        }
      }
      rest
  }

  /** Removal distributes over concatenation, so it keeps relative order. */
  lemma {:induction false} RemoveAllConcat<T(!new)>(a: seq<T>, b: seq<T>, xs: seq<T>)
    ensures RemoveAll(a + b, xs) == RemoveAll(a, xs) + RemoveAll(b, xs)
    decreases |a|
  {
    if a != [] {
      assert (a + b)[0] == a[0];
      assert (a + b)[1..] == a[1..] + b;
      RemoveAllConcat(a[1..], b, xs);
    } else {
      assert a + b == b;
    }
  }

  /** Removing values that are not there changes nothing. */
  lemma {:induction false} RemoveAbsent<T(!new)>(s: seq<T>, xs: seq<T>)
    requires forall x :: x in xs ==> x !in s
    ensures RemoveAll(s, xs) == s
    decreases |s|
  {
    if s != [] {
      RemoveAbsent(s[1..], xs);
      assert s == [s[0]] + s[1..];
    }
  }

  /** Removing twice is removing once. */
  lemma RemoveAllIdempotent<T(!new)>(s: seq<T>, xs: seq<T>)
    ensures RemoveAll(RemoveAll(s, xs), xs) == RemoveAll(s, xs)
  {
    RemoveAbsent(RemoveAll(s, xs), xs);
  }

  /** Appending values that are all present changes nothing; so a second union is a no-op. */
  lemma {:induction false} AppendPresent<T(!new)>(s: seq<T>, xs: seq<T>)
    requires forall x :: x in xs ==> x in s
    ensures AppendMissing(s, xs) == s
    decreases |xs|
  {
    if xs != [] { AppendPresent(s, xs[1..]); }
  }

  lemma AppendMissingIdempotent<T(!new)>(s: seq<T>, xs: seq<T>)
    ensures AppendMissing(AppendMissing(s, xs), xs) == AppendMissing(s, xs)
  {
    AppendPresent(AppendMissing(s, xs), xs);
  }

  /**
   * A union followed by a removal of (at least) the same values is the
   * removal alone: whatever the union added is taken away again.
   */
  lemma {:induction false} RemoveAfterAppend<T(!new)>(s: seq<T>, xs: seq<T>, ys: seq<T>)
    requires forall x :: x in xs ==> x in ys
    ensures RemoveAll(AppendMissing(s, xs), ys) == RemoveAll(s, ys)
    decreases |xs|
  {
    if xs != [] {
      var s' := if xs[0] in s then s else s + [xs[0]];
      RemoveAfterAppend(s', xs[1..], ys);
      if xs[0] !in s {
        RemoveAllConcat(s, [xs[0]], ys);
        assert RemoveAll([xs[0]], ys) == [];
      }
    }
  }

  /** Add the value when absent, remove every occurrence when present. */
  function Toggle<T(==,!new)>(s: seq<T>, x: T): (r: seq<T>)
    ensures x in r <==> x !in s
    ensures forall y :: y != x ==> (y in r <==> y in s)
    ensures Distinct(s) ==> Distinct(r)
    ensures x !in s ==> r == s + [x]
    ensures x in s ==> IsSubsequence(r, s)
  {
    if x in s then RemoveAll(s, [x]) else s + [x]
  }

  /**
   * Toggling twice restores membership for every value, and restores the
   * list itself when the value was absent at first.
   */
  lemma ToggleTwice<T(!new)>(s: seq<T>, x: T)
    ensures forall y :: y in Toggle(Toggle(s, x), x) <==> y in s
    ensures x !in s ==> Toggle(Toggle(s, x), x) == s
  {
    if x !in s {
      RemoveAllConcat(s, [x], [x]);
      RemoveAbsent(s, [x]);
      assert RemoveAll([x], [x]) == [];
    }
  }
}

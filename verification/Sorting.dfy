/** Sorting by a text key, as `sort_by` and `BTreeMap` order do. */
module Sorting {
  import opened Text

  predicate Ascending<T>(key: T -> string, s: seq<T>) {
    forall i, j :: 0 <= i < j < |s| ==> !TextBelow(key(s[j]), key(s[i]))
  }

  predicate StrictlyAscending<T>(key: T -> string, s: seq<T>) {
    forall i, j :: 0 <= i < j < |s| ==> TextBelow(key(s[i]), key(s[j]))
  }

  predicate KeysAreUnique<T>(key: T -> string, s: seq<T>) {
    forall i, j :: 0 <= i < j < |s| ==> key(s[i]) != key(s[j])
  }

  function Inserted<T>(key: T -> string, x: T, s: seq<T>): seq<T> {
    if s == [] then [x]
    else if TextBelow(key(x), key(s[|s| - 1])) then Inserted(key, x, s[..|s| - 1]) + [s[|s| - 1]]
    else s + [x]
  }

  /** A stable sort. */
  function SortedBy<T>(key: T -> string, s: seq<T>): seq<T> {
    if s == [] then [] else Inserted(key, s[|s| - 1], SortedBy(key, s[..|s| - 1]))
  }

  lemma NotBelowIsTransitive(a: string, b: string, c: string)
    requires !TextBelow(b, a) && !TextBelow(c, b)
    ensures !TextBelow(c, a)
  {
    TextOrderIsTotal(a, b);
    TextOrderIsTotal(b, c);
    if TextBelow(a, b) && TextBelow(b, c) {
      TextOrderIsTransitive(a, b, c);
    }
    TextOrderIsTotal(a, c);
  }

  lemma {:induction false} InsertedIsSorted<T>(key: T -> string, x: T, s: seq<T>)
    requires Ascending(key, s)
    ensures multiset(Inserted(key, x, s)) == multiset(s) + multiset{x}
    ensures Ascending(key, Inserted(key, x, s))
  {
    if s != [] {
      var n := |s| - 1;
      assert s == s[..n] + [s[n]];
      if TextBelow(key(x), key(s[n])) {
        InsertedIsSorted(key, x, s[..n]);
        var front := Inserted(key, x, s[..n]);
        forall i | 0 <= i < |front| ensures !TextBelow(key(s[n]), key(front[i])) {
          assert front[i] in multiset(front);
          assert front[i] == x || front[i] in s[..n];
          TextOrderIsTotal(key(x), key(s[n]));
        }
      } else {
        forall i | 0 <= i < |s| ensures !TextBelow(key(x), key(s[i])) {
          if i < n {
            NotBelowIsTransitive(key(s[i]), key(s[n]), key(x));
          }
        }
      }
    }
  }

  lemma {:induction false} SortIsAnAscendingPermutation<T>(key: T -> string, s: seq<T>)
    ensures multiset(SortedBy(key, s)) == multiset(s)
    ensures Ascending(key, SortedBy(key, s))
  {
    if s != [] {
      var n := |s| - 1;
      SortIsAnAscendingPermutation(key, s[..n]);
      InsertedIsSorted(key, s[n], SortedBy(key, s[..n]));
      assert s == s[..n] + [s[n]];
    }
  }

  /** Ascending keys are strictly ascending exactly when they are unique. */
  lemma StrictIsUnique<T>(key: T -> string, s: seq<T>)
    requires Ascending(key, s)
    ensures StrictlyAscending(key, s) <==> KeysAreUnique(key, s)
  {
    forall i, j | 0 <= i < j < |s| ensures TextBelow(key(s[i]), key(s[j])) <==> key(s[i]) != key(s[j]) {
      TextOrderIsTotal(key(s[i]), key(s[j]));
    }
  }

  lemma TwoPlaces<T>(s: seq<T>, i: nat, j: nat)
    requires i < j < |s| && s[i] == s[j]
    ensures multiset(s)[s[i]] >= 2
  {
    assert s == s[..j] + s[j..];
    assert s[i] in multiset(s[..j]) by {
      assert s[..j][i] == s[i];
    }
    assert s[i] in multiset(s[j..]) by {
      assert s[j..][0] == s[i];
    }
  }

  lemma OnePlace<T>(s: seq<T>, k: nat)
    requires k < |s| && forall i :: 0 <= i < |s| && s[i] == s[k] ==> i == k
    ensures multiset(s)[s[k]] == 1
  {
    assert s == s[..k] + [s[k]] + s[k + 1..];
    assert s[k] !in multiset(s[..k]) && s[k] !in multiset(s[k + 1..]);
  }

  lemma UniqueKeysAreUniqueInAnyOrder<T>(key: T -> string, a: seq<T>, b: seq<T>)
    requires multiset(a) == multiset(b) && KeysAreUnique(key, a)
    ensures KeysAreUnique(key, b)
  {
    if i, j :| 0 <= i < j < |b| && key(b[i]) == key(b[j]) {
      var x, y := b[i], b[j];
      assert x in multiset(a) && y in multiset(a);
      var k :| 0 <= k < |a| && a[k] == x;
      var l :| 0 <= l < |a| && a[l] == y;
      assert k == l;
      TwoPlaces(b, i, j);
      OnePlace(a, k);
    }
  }

  /** Only the last key has to be compared. */
  lemma StrictPlusOne<T>(key: T -> string, front: seq<T>, last: T)
    ensures StrictlyAscending(key, front + [last]) <==>
              StrictlyAscending(key, front) && (front == [] || TextBelow(key(front[|front| - 1]), key(last)))
  {
    var n, whole := |front|, front + [last];
    if StrictlyAscending(key, whole) {
      forall i, j | 0 <= i < j < n ensures TextBelow(key(front[i]), key(front[j])) {
        assert TextBelow(key(whole[i]), key(whole[j]));
      }
      assert n > 0 ==> TextBelow(key(whole[n - 1]), key(whole[n]));
    }
    if StrictlyAscending(key, front) && n > 0 && TextBelow(key(front[n - 1]), key(last)) {
      forall i | 0 <= i < n ensures TextBelow(key(front[i]), key(last)) {
        if i < n - 1 {
          TextOrderIsTransitive(key(front[i]), key(front[n - 1]), key(last));
        }
      }
      forall i, j | 0 <= i < j <= n ensures TextBelow(key(whole[i]), key(whole[j])) {
        assert whole[i] == front[i] && (j < n ==> whole[j] == front[j]);
      }
    }
  }

  lemma StrictKeysAreUnique<T>(key: T -> string, s: seq<T>)
    requires StrictlyAscending(key, s)
    ensures KeysAreUnique(key, s)
  {
    forall i, j | 0 <= i < j < |s| ensures key(s[i]) != key(s[j]) {
      TextOrderIsTotal(key(s[i]), key(s[j]));
    }
  }

  lemma UniquePlusOne<T>(key: T -> string, front: seq<T>, last: T)
    ensures KeysAreUnique(key, front + [last]) <==>
              KeysAreUnique(key, front) && forall x <- front :: key(x) != key(last)
  {
    var n, whole := |front|, front + [last];
    assert forall i :: 0 <= i < n ==> front[i] == whole[i];
    assert whole[n] == last;
    if forall x <- front :: key(x) != key(last) {
      assert forall i :: 0 <= i < n ==> front[i] in front;
    }
  }

  /** There is only one strictly ascending arrangement of the same elements. */
  lemma {:induction false} StrictOrderIsUnique<T>(key: T -> string, a: seq<T>, b: seq<T>)
    requires StrictlyAscending(key, a) && StrictlyAscending(key, b)
    requires forall x :: x in a <==> x in b
    ensures a == b
  {
    assert a != [] ==> a[0] in a;
    assert b != [] ==> b[0] in b;
    if a != [] && b != [] {
      var m, n := |a| - 1, |b| - 1;
      assert a[m] in b && b[n] in a;
      var i :| 0 <= i <= n && b[i] == a[m];
      var j :| 0 <= j <= m && a[j] == b[n];
      TextOrderIsTotal(key(a[m]), key(b[n]));
      assert a[m] == b[n];
      forall x ensures x in a[..m] <==> x in b[..n] {
        LastIsNotBefore(key, a);
        LastIsNotBefore(key, b);
        assert x in a <==> x in a[..m] || x == a[m];
        assert x in b <==> x in b[..n] || x == b[n];
      }
      StrictOrderIsUnique(key, a[..m], b[..n]);
      assert a == a[..m] + [a[m]] && b == b[..n] + [b[n]];
    }
  }

  lemma LastIsNotBefore<T>(key: T -> string, s: seq<T>)
    requires StrictlyAscending(key, s) && s != []
    ensures s[|s| - 1] !in s[..|s| - 1]
  {
    if s[|s| - 1] in s[..|s| - 1] {
      var i :| 0 <= i < |s| - 1 && s[i] == s[|s| - 1];
      TextOrderIsTotal(key(s[i]), key(s[i]));
      assert false;
    }
  }
}

/** Small facts about sequences shared by the model. */
module Seqs {
  /** No element occurs twice. */
  predicate NoDup<T(==)>(s: seq<T>) {
    forall i, j :: 0 <= i < j < |s| ==> s[i] != s[j]
  }

  /** `x` occurs in `s` at an earlier position than `y`. */
  ghost predicate Before<T>(s: seq<T>, x: T, y: T) {
    exists i, j :: 0 <= i < j < |s| && s[i] == x && s[j] == y
  }

  /** Appending keeps a sequence free of duplicates exactly when the new element is not in it yet. */
  lemma NoDupSnoc<T>(s: seq<T>, x: T)
    ensures NoDup(s + [x]) <==> NoDup(s) && x !in s
  {
    var t := s + [x];
    if NoDup(t) {
      forall i, j | 0 <= i < j < |s| ensures s[i] != s[j] {
        assert s[i] == t[i] && s[j] == t[j];
      }
    }
    if x in s {
      var i :| 0 <= i < |s| && s[i] == x;
      assert t[i] == x && t[|s|] == x;
    }
  }

  /** `k` copies of `x`. */
  function Repeat<T>(x: T, k: nat): (r: seq<T>)
    ensures |r| == k
    ensures forall i :: 0 <= i < k ==> r[i] == x
  {
    if k == 0 then [] else Repeat(x, k - 1) + [x]
  }

  /** In a sequence without duplicates an element occurs at most once. */
  lemma {:induction false} NoDupCount<T>(s: seq<T>, x: T)
    requires NoDup(s)
    ensures multiset(s)[x] == if x in s then 1 else 0
  {
    if s != [] {
      var init := s[..|s| - 1];
      assert s == init + [s[|s| - 1]];
      assert NoDup(init);
      NoDupCount(init, x);
      if x == s[|s| - 1] {
        assert x !in init;
      }
    }
  }

  function Min(a: int, b: int): int { if a <= b then a else b }

  /** A non-empty set of ids has a member to pick. */
  lemma Member(s: set<int>)
    requires s != {}
    ensures exists x :: x in s
  {
    if forall x :: x !in s {
      assert false;
    }
  }

  /** The size of a set of ids, counted one member at a time. */
  ghost function Card(s: set<int>): nat
    decreases s
  {
    if s == {} then 0 else var x := Pick(s); 1 + Card(s - {x})
  }

  ghost function Pick(s: set<int>): (x: int)
    requires s != {}
    ensures x in s
  {
    Member(s);
    var x :| x in s; x
  }

  lemma {:induction false} CardIsSize(s: set<int>)
    ensures Card(s) == |s|
    decreases s
  {
    if s != {} {
      CardIsSize(s - {Pick(s)});
    }
  }

  lemma CardAdd(s: set<int>, v: int)
    requires v !in s
    ensures Card(s + {v}) == Card(s) + 1
  {
    CardIsSize(s);
    CardIsSize(s + {v});
  }
}

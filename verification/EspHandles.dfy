/** Ownership of handles: the lists of the session against the sets of open handles. */
module EspHandles {
  import opened Sequences
  import opened EspRuleInstall

  // ---------------------------------------------------------------- ownership

  /** Every open handle is either listed, once, or floating in the hands of a caller; empty
      slots of the list are NULL. */
  ghost predicate Owned(open: set<Handle>, listed: seq<Handle>, floating: set<Handle>) {
    && NULL !in open
    && (forall i :: 0 <= i < |listed| && listed[i] != NULL ==> listed[i] in open && listed[i] !in floating)
    && (forall i, j :: 0 <= i < j < |listed| && listed[i] != NULL ==> listed[i] != listed[j])
    && floating <= open
    && (forall h :: h in open ==> h in floating || h in listed)
  }

  /** A list without empty slots whose handles are exactly the open ones. */
  ghost predicate Dense(open: set<Handle>, listed: seq<Handle>) {
    && NULL !in listed
    && Distinct(listed)
    && open == Elements(listed)
  }

  ghost predicate Distinct(s: seq<Handle>) {
    |Elements(s)| == |s|
  }

  lemma {:induction false} ElementsJoin(a: seq<Handle>, b: seq<Handle>)
    ensures Elements(a + b) == Elements(a) + Elements(b)
  {
    forall h | h in Elements(a) + Elements(b) ensures h in a + b {}
  }

  lemma {:induction false} ElementsBound(s: seq<Handle>)
    ensures |Elements(s)| <= |s|
  {
    if s != [] {
      var front, last := s[..|s| - 1], s[|s| - 1];
      ElementsBound(front);
      assert s == front + [last];
      ElementsJoin(front, [last]);
      assert Elements([last]) == {last};
    }
  }

  /** Two lists joined are distinct exactly when each is and they share nothing. */
  lemma DistinctParts(a: seq<Handle>, b: seq<Handle>)
    ensures Distinct(a + b) <==> Distinct(a) && Distinct(b) && Elements(a) !! Elements(b)
  {
    ElementsJoin(a, b);
    ElementsBound(a);
    ElementsBound(b);
    assert |Elements(a) + Elements(b)| + |Elements(a) * Elements(b)| == |Elements(a)| + |Elements(b)|;
  }

  lemma {:induction false} DistinctPairs(s: seq<Handle>)
    requires Distinct(s)
    ensures forall i, j :: 0 <= i < j < |s| ==> s[i] != s[j]
  {
    if s != [] {
      var front, last := s[..|s| - 1], s[|s| - 1];
      assert s == front + [last];
      DistinctParts(front, [last]);
      DistinctPairs(front);
      assert last !in front;
    }
  }

  lemma ElementsOne(h: Handle)
    ensures Elements([h]) == {h}
  {}

  /** A fresh handle may join a dense list. */
  lemma DensePush(open: set<Handle>, listed: seq<Handle>, h: Handle)
    requires Dense(open, listed) && h != NULL && h !in open
    ensures Dense(open + {h}, listed + [h]) && h !in listed
  {
    ElementsJoin(listed, [h]);
    ElementsOne(h);
  }

  /** The handles of a list without its empty slots. */
  function NonNull(s: seq<Handle>): (r: seq<Handle>)
    ensures |r| <= |s|
    ensures forall h :: h in r <==> h in s && h != NULL
  {
    if s == [] then []
    else
      var front := NonNull(s[..|s| - 1]);
      if s[|s| - 1] == NULL then front else front + [s[|s| - 1]]
  }

  /** A list after `CloseReference`: every slot that held the handle is empty. */
  function Cleared(listed: seq<Handle>, h: Handle): (r: seq<Handle>)
    ensures |r| == |listed|
  {
    seq(|listed|, i requires 0 <= i < |listed| => if listed[i] == h then NULL else listed[i])
  }

  lemma OwnedPush(open: set<Handle>, listed: seq<Handle>, floating: set<Handle>, h: Handle)
    requires Owned(open, listed, floating + {h}) && h !in floating
    ensures Owned(open, listed + [h], floating)
  {}

  lemma OwnedClear(open: set<Handle>, listed: seq<Handle>, h: Handle)
    requires Owned(open, listed, {}) && (h == NULL || h in open)
    ensures Owned(open - {h}, Cleared(listed, h), {})
  {
    var r := Cleared(listed, h);
    forall x | x in open - {h} ensures x in r {
      var i :| 0 <= i < |listed| && listed[i] == x;
      assert r[i] == x;
    }
  }

  lemma DenseIsOwned(open: set<Handle>, listed: seq<Handle>)
    requires Dense(open, listed)
    ensures Owned(open, listed, {})
  {
    DistinctPairs(listed);
  }

  /** Closing the first handle of a list leaves the rest owned. */
  lemma OwnedNext(open: set<Handle>, listed: seq<Handle>, k: nat)
    requires k < |listed| && Owned(open, listed[k..], {})
    ensures var h := listed[k];
      (h != NULL ==> h in open) && Owned(if h == NULL then open else open - {h}, listed[k + 1..], {})
  {
    var h, rest := listed[k], listed[k + 1..];
    assert listed[k..] == [h] + rest;
    assert forall x :: x in open && x != h ==> x in rest;
  }

  lemma OwnedNothing(open: set<Handle>, listed: seq<Handle>)
    requires Owned(open, listed[|listed|..], {})
    ensures open == {}
  {
    assert listed[|listed|..] == [];
    assert forall x :: x !in open;
  }
}

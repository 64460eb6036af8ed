/** The log of every opening and closing of one kind of handle.

    A handle's number may be given out again once it is closed, so "closed exactly once" is said of
    the log: every opening has one closing of its own, before the number is opened again. */
module HandleLog {
  import opened Wrappers
  import opened Sequences
  import opened EspRuleInstall
  import opened EspHandles

  datatype HandleEvent = Opened(h: Handle) | Closed(h: Handle)

  /** The open references after a log, or None if the log closes one that is not open, opens one
      that is, or opens NULL. */
  function Replay(log: seq<HandleEvent>): Option<set<Handle>> {
    if log == [] then Some({})
    else
      var front, last := Replay(log[..|log| - 1]), log[|log| - 1];
      if front.None? then None
      else if last.Opened? then if last.h == NULL || last.h in front.value then None else Some(front.value + {last.h})
      else if last.h in front.value then Some(front.value - {last.h}) else None
  }

  lemma ReplayOne(log: seq<HandleEvent>, e: HandleEvent)
    ensures (log + [e])[..|log|] == log
    ensures Replay(log).Some? && e.Opened? && e.h != NULL && e.h !in Replay(log).value ==>
      Replay(log + [e]) == Some(Replay(log).value + {e.h})
    ensures Replay(log).Some? && e.Closed? && e.h in Replay(log).value ==>
      Replay(log + [e]) == Some(Replay(log).value - {e.h})
  {}

  lemma ReplayOpens(log: seq<HandleEvent>, open: set<Handle>, h: Handle)
    requires Replay(log) == Some(open) && h != NULL && h !in open
    ensures Replay(log + [Opened(h)]) == Some(open + {h})
  {
    ReplayOne(log, Opened(h));
  }

  lemma ReplayCloses(log: seq<HandleEvent>, open: set<Handle>, h: Handle)
    requires Replay(log) == Some(open) && h in open
    ensures Replay(log + [Closed(h)]) == Some(open - {h})
  {
    ReplayOne(log, Closed(h));
  }

  /** No other event about the handle lies between i and j. */
  predicate Adjacent(log: seq<HandleEvent>, i: nat, j: nat) {
    i < j < |log| && log[i].h == log[j].h && forall k :: i < k < j ==> log[k].h != log[i].h
  }

  /** The last event about the handle is its opening at i. */
  predicate LastOpens(log: seq<HandleEvent>, h: Handle, i: nat) {
    i < |log| && log[i] == Opened(h) && forall k :: i < k < |log| ==> log[k].h != h
  }

  /** In a log that replays, a handle is open exactly if its last event opened it. */
  lemma {:induction false} OpenByLastEvent(log: seq<HandleEvent>, h: Handle)
    requires Replay(log).Some?
    ensures h in Replay(log).value <==> exists i: nat :: LastOpens(log, h, i)
  {
    if log != [] {
      var n := |log| - 1;
      OpenByLastEvent(log[..n], h);
      if log[n].h != h {
        assert forall i: nat :: LastOpens(log[..n], h, i) <==> LastOpens(log, h, i);
      } else {
        assert forall i: nat :: LastOpens(log, h, i) ==> i == n;
        assert log[n].Opened? ==> LastOpens(log, h, n);
      }
    }
  }

  /** Nothing is closed twice: before every closing stands its own opening. */
  lemma ClosedOnlyAfterOpened(log: seq<HandleEvent>, j: nat) returns (i: nat)
    requires Replay(log).Some? && j < |log| && log[j].Closed?
    ensures Adjacent(log, i, j) && log[i] == Opened(log[j].h)
  {
    ReplayPrefix(log, j + 1);
    var front := log[..j + 1][..j];
    OpenByLastEvent(front, log[j].h);
    i :| LastOpens(front, log[j].h, i);
    assert forall k :: 0 <= k < j ==> front[k] == log[k];
  }

  /** Nothing is left open: if the log ends with no open handle, after every opening stands its
      own closing. */
  lemma {:induction false} OpenedIsClosed(log: seq<HandleEvent>, i: nat) returns (j: nat)
    requires Replay(log) == Some({}) && i < |log| && log[i].Opened?
    ensures Adjacent(log, i, j) && log[j] == Closed(log[i].h)
  {
    var h := log[i].h;
    OpenByLastEvent(log, h);
    assert !LastOpens(log, h, i);
    j := FirstAfter(log, i, h);
    ReplayPrefix(log, j + 1);
    var front := log[..j + 1][..j];
    OpenByLastEvent(front, h);
    assert LastOpens(front, h, i);
  }

  lemma {:induction false} FirstAfter(log: seq<HandleEvent>, i: nat, h: Handle) returns (j: nat)
    requires exists k :: i < k < |log| && log[k].h == h
    ensures i < j < |log| && log[j].h == h && forall k :: i < k < j ==> log[k].h != h
  {
    j := i + 1;
    while log[j].h != h
      invariant i < j < |log|
      invariant forall k :: i < k < j ==> log[k].h != h
      decreases |log| - j
    {
      j := j + 1;
    }
  }

  lemma {:induction false} ReplayPrefix(log: seq<HandleEvent>, n: nat)
    requires n <= |log| && Replay(log).Some?
    ensures Replay(log[..n]).Some?
  {
    if n == |log| {
      assert log[..n] == log;
    } else {
      ReplayPrefix(log[..|log| - 1], n);
      assert log[..|log| - 1][..n] == log[..n];
    }
  }

  /** Before every closing stands its own opening, and no other event about the handle between. */
  ghost predicate NothingClosedTwice(log: seq<HandleEvent>) {
    forall j: nat :: j < |log| && log[j].Closed? ==> exists i: nat :: Adjacent(log, i, j) && log[i] == Opened(log[j].h)
  }

  /** After every opening stands its own closing. */
  ghost predicate NothingLeftOpen(log: seq<HandleEvent>) {
    forall i: nat :: i < |log| && log[i].Opened? ==> exists j: nat :: Adjacent(log, i, j) && log[j] == Closed(log[i].h)
  }

  /** A log that replays closes nothing twice, and one that ends with nothing open left nothing
      open on the way. */
  lemma ReplayedLogs(log: seq<HandleEvent>)
    requires Replay(log).Some?
    ensures NothingClosedTwice(log)
    ensures Replay(log) == Some({}) ==> NothingLeftOpen(log)
  {
    forall j: nat | j < |log| && log[j].Closed? ensures exists i: nat :: Adjacent(log, i, j) && log[i] == Opened(log[j].h) {
      var i := ClosedOnlyAfterOpened(log, j);
    }
    if Replay(log) == Some({}) {
      forall i: nat | i < |log| && log[i].Opened? ensures exists j: nat :: Adjacent(log, i, j) && log[j] == Closed(log[i].h) {
        var j := OpenedIsClosed(log, i);
      }
    }
  }

  // ---------------------------------------------------------------- lists of handles

  function Openings(handles: seq<Handle>): seq<HandleEvent> {
    seq(|handles|, i requires 0 <= i < |handles| => Opened(handles[i]))
  }

  function Closings(handles: seq<Handle>): seq<HandleEvent> {
    seq(|handles|, i requires 0 <= i < |handles| => Closed(handles[i]))
  }

  /** What closing every handle of a list adds to the log. */
  function Closures(listed: seq<Handle>): seq<HandleEvent> {
    if listed == [] then [] else ClosureOf(listed[0]) + Closures(listed[1..])
  }

  function OpeningOf(h: Handle): seq<HandleEvent> {
    if h == NULL then [] else [Opened(h)]
  }

  function ClosureOf(h: Handle): seq<HandleEvent> {
    if h == NULL then [] else [Closed(h)]
  }

  lemma ClosingOne(log: seq<HandleEvent>, open: set<Handle>, listed: seq<Handle>) returns (rest: set<Handle>)
    requires listed != [] && Replay(log) == Some(open) && Owned(open, listed, {})
    ensures Replay(log + ClosureOf(listed[0])) == Some(rest) && Owned(rest, listed[1..], {})
  {
    var h := listed[0];
    assert listed[0..] == listed;
    OwnedNext(open, listed, 0);
    ReplayOne(log, Closed(h));
    assert log + [] == log;
    rest := if h == NULL then open else open - {h};
  }

  lemma ClosuresNext(log: seq<HandleEvent>, listed: seq<Handle>, k: nat)
    requires k < |listed|
    ensures log + Closures(listed[k..]) == log + ClosureOf(listed[k]) + Closures(listed[k + 1..])
  {
    assert listed[k..][1..] == listed[k + 1..];
  }

  lemma ClosuresJoin(log: seq<HandleEvent>, listed: seq<Handle>)
    requires listed != []
    ensures log + Closures(listed) == log + ClosureOf(listed[0]) + Closures(listed[1..])
  {}

  lemma ClosingNone(log: seq<HandleEvent>, open: set<Handle>)
    requires Replay(log) == Some(open) && Owned(open, [], {})
    ensures Replay(log + Closures([])) == Some({})
  {
    OwnedNothing(open, []);
    assert log + Closures([]) == log;
  }

  lemma {:induction false} ClosingAll(log: seq<HandleEvent>, open: set<Handle>, listed: seq<Handle>)
    requires Replay(log) == Some(open) && Owned(open, listed, {})
    ensures Replay(log + Closures(listed)) == Some({})
    decreases |listed|
  {
    if listed == [] {
      ClosingNone(log, open);
    } else {
      var rest := ClosingOne(log, open, listed);
      ClosingAll(log + ClosureOf(listed[0]), rest, listed[1..]);
      ClosuresJoin(log, listed);
    }
  }

  lemma OpeningsJoin(log: seq<HandleEvent>, front: seq<Handle>, h: Handle)
    ensures log + Openings(front + [h]) == log + Openings(front) + [Opened(h)]
  {}

  lemma ClosingsJoin(log: seq<HandleEvent>, front: seq<Handle>, h: Handle)
    ensures log + Closings(front + [h]) == log + Closings(front) + [Closed(h)]
  {}

  lemma {:induction false} ReplayOpenings(log: seq<HandleEvent>, before: seq<Handle>, handles: seq<Handle>)
    requires Replay(log) == Some(Elements(before)) && NULL !in handles && Distinct(before + handles)
    ensures Replay(log + Openings(handles)) == Some(Elements(before + handles))
  {
    if handles == [] {
      assert log + Openings([]) == log && before + [] == before;
    } else {
      var front, h := handles[..|handles| - 1], handles[|handles| - 1];
      assert handles == front + [h];
      assert before + (front + [h]) == before + front + [h];
      DistinctParts(before + front, [h]);
      ReplayOpenings(log, before, front);
      OpeningsJoin(log, front, h);
      ReplayOpening(log + Openings(front), before + front, h);
    }
  }

  lemma ReplayOpening(log: seq<HandleEvent>, listed: seq<Handle>, h: Handle)
    requires Replay(log) == Some(Elements(listed)) && h != NULL && Elements(listed) !! Elements([h])
    ensures Replay(log + [Opened(h)]) == Some(Elements(listed + [h]))
  {
    ElementsJoin(listed, [h]);
    ElementsOne(h);
    ReplayOpens(log, Elements(listed), h);
  }

  lemma {:induction false} ReplayClosings(log: seq<HandleEvent>, open: set<Handle>, handles: seq<Handle>)
    requires Replay(log) == Some(open) && Distinct(handles) && Elements(handles) <= open
    ensures Replay(log + Closings(handles)) == Some(open - Elements(handles))
  {
    if handles == [] {
      assert log + Closings(handles) == log && open - Elements(handles) == open;
    } else {
      var n := |handles| - 1;
      var front, h := handles[..n], handles[n];
      assert handles == front + [h];
      DistinctParts(front, [h]);
      ElementsJoin(front, [h]);
      ElementsOne(h);
      ReplayClosings(log, open, front);
      ClosingsJoin(log, front, h);
      ReplayCloses(log + Closings(front), open - Elements(front), h);
      assert open - Elements(front) - {h} == open - Elements(handles);
    }
  }

  /** The log of a kind of handle whose list owns what is open. */
  lemma OwnedLog(log: seq<HandleEvent>, open: set<Handle>, listed: seq<Handle>)
    requires Replay(log) == Some(open) && Owned(open, listed, {})
    ensures NothingClosedTwice(log)
    ensures listed == [] ==> NothingLeftOpen(log)
  {
    ReplayedLogs(log);
    if listed == [] {
      assert listed[|listed|..] == listed;
      OwnedNothing(open, listed);
    }
  }
}

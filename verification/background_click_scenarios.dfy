/**
 * Runs of `BackgroundClickService` that show how it behaves when a stack's `closeAll` does
 * not emit `emptied` synchronously, and after `ngOnDestroy`.
 */
module BackgroundClickScenarios {
  import opened Wrappers
  import opened BackgroundClick

  /** A service tracking no stack and holding no subscription, such as a freshly built one. */
  predicate Idle(s: Service)
  {
    s.decider.None? && s.stack.None? && s.live == [] && !s.stopCompleted
  }

  /** The two subscriptions one `startListener` for `st` adds, numbered from `n`. */
  function Pair(n: nat, st: StackId): (r: seq<Listener>)
    ensures |r| == 2 && r[0].kind == EmptiedOf(st) && r[1].kind == Mousedown
    ensures r[0].id == n && r[1].id == n + 1
  {
    [Listener(n, EmptiedOf(st)), Listener(n + 1, Mousedown)]
  }

  /** `startListener` without a synchronous `emptied`: the old state plus two subscriptions. */
  lemma StartWithoutEmptied(s: Service, d: Decider, st: StackId)
    requires WellFormed(s) && s.stack != Some(st)
    ensures Step(s, Start(d, st), false) == Outcome(
      s.(decider := Some(d), stack := Some(st), live := s.live + Pair(s.nextId, st), nextId := s.nextId + 2),
      if s.stack.Some? then [s.stack.value] else [], [], false)
  {
  }

  /** The dispatch snapshot of a list of listeners split in two. */
  lemma {:induction false} IdsOfKindAppend(a: seq<Listener>, b: seq<Listener>, k: Kind)
    ensures IdsOfKind(a + b, k) == IdsOfKind(a, k) + IdsOfKind(b, k)
  {
    if |a| > 0 {
      assert (a + b)[1..] == a[1..] + b;
      assert (a + b)[0] == a[0];
      IdsOfKindAppend(a[1..], b, k);
    } else {
      assert a + b == b;
    }
  }

  /** The dispatch snapshot of the pair of listeners one `startListener` subscribes. */
  lemma SnapshotOfPair(n: nat, st: StackId)
    ensures IdsOfKind(Pair(n, st), Mousedown) == [n + 1]
    ensures IdsOfKind(Pair(n, st), EmptiedOf(st)) == [n]
  {
    assert Pair(n, st)[1..][1..] == [];
  }

  /**
   * Switching stacks without a synchronous `emptied` adds one mousedown subscription and
   * cuts none: the old stack's listeners stay live.
   */
  lemma SwitchAddsMousedownListener(s: Service, d: Decider, st: StackId)
    requires WellFormed(s) && s.stack != Some(st)
    ensures var r := Step(s, Start(d, st), false).svc;
      |IdsOfKind(r.live, Mousedown)| == |IdsOfKind(s.live, Mousedown)| + 1
  {
    StartWithoutEmptied(s, d, st);
    IdsOfKindAppend(s.live, Pair(s.nextId, st), Mousedown);
    SnapshotOfPair(s.nextId, st);
  }

  /**
   * Switching to stack `st` and then clicking where the new decider accepts closes `st` once
   * for every mousedown subscription the service held before the switch, plus once more.
   */
  lemma SwitchThenClick(s: Service, d: Decider, st: StackId, e: MouseEvent)
    requires WellFormed(s) && s.stack != Some(st)
    requires IsHtmlElement(ResolveTarget(e)) && d(ResolveTarget(e).value)
    ensures var o1 := Step(s, Start(d, st), false);
      var o2 := Step(o1.svc, Down(e), false);
      && o2.svc == o1.svc && !o2.faulted
      && o2.closed == Repeat(st, |IdsOfKind(s.live, Mousedown)| + 1)
  {
    StartWithoutEmptied(s, d, st);
    SwitchAddsMousedownListener(s, d, st);
    var s1 := Step(s, Start(d, st), false).svc;
    AcceptedClickClosesPerListener(s1, e);
  }

  /** The two subscriptions of one stack: one mousedown listener and that stack's `emptied`. */
  lemma PairFacts(s: Service, n: nat, a: StackId)
    requires s.live == Pair(n, a)
    ensures |IdsOfKind(s.live, Mousedown)| == 1
    ensures Listener(n, EmptiedOf(a)) in s.live
  {
    SnapshotOfPair(n, a);
    assert s.live[0] in s.live;
  }

  /** An idle service started for one stack holds exactly that stack's two subscriptions. */
  lemma StartFromIdleState(s0: Service, d: Decider, a: StackId)
    requires WellFormed(s0) && s0.decider.None? && s0.stack.None? && s0.live == []
    ensures var o := Step(s0, Start(d, a), false);
      && o.closed == []
      && o.svc == s0.(decider := Some(d), stack := Some(a), live := Pair(s0.nextId, a), nextId := s0.nextId + 2)
  {
    StartWithoutEmptied(s0, d, a);
    assert [] + Pair(s0.nextId, a) == Pair(s0.nextId, a);
  }

  /** Starting an idle service tracks the stack with one mousedown listener and its `emptied`. */
  lemma StartFromIdle(s0: Service, d: Decider, a: StackId)
    requires WellFormed(s0) && s0.decider.None? && s0.stack.None? && s0.live == []
    ensures var o := Step(s0, Start(d, a), false);
      && o.closed == []
      && o.svc.decider == Some(d) && o.svc.stack == Some(a)
      && |IdsOfKind(o.svc.live, Mousedown)| == 1
      && Listener(s0.nextId, EmptiedOf(a)) in o.svc.live
  {
    StartFromIdleState(s0, d, a);
    PairFacts(Step(s0, Start(d, a), false).svc, s0.nextId, a);
  }

  /**
   * A stack that emits `emptied` while one of its subscriptions is live resets the service,
   * and, while the stop signal has not completed, stops every listener.
   */
  lemma EmptiedResets(s: Service, st: StackId, n: nat)
    requires WellFormed(s) && !s.stopCompleted
    requires Listener(n, EmptiedOf(st)) in s.live
    ensures var r := Step(s, StackEmptied(st), false).svc;
      r.stack == None && r.decider == None && r.live == []
  {
  }

  /**
   * Switching stacks leaves the old subscriptions live when the old stack's `closeAll` does
   * not emit `emptied`; the old mousedown listener then reads the new stack. So from a stack
   * `a` tracked with one mousedown subscription (as `startListener` leaves an idle service,
   * see `StartFromIdle`), switching to `b` closes `a` once, and one click the new decider
   * accepts closes `b` twice.
   */
  lemma SwitchWithoutEmptiedClosesTwice(s: Service, d: Decider, a: StackId, b: StackId, e: MouseEvent)
    requires WellFormed(s) && s.stack == Some(a) && a != b
    requires |IdsOfKind(s.live, Mousedown)| == 1
    requires IsHtmlElement(ResolveTarget(e)) && d(ResolveTarget(e).value)
    ensures var o1 := Step(s, Start(d, b), false);
      var o2 := Step(o1.svc, Down(e), false);
      o1.closed == [a] && o2.closed == [b, b]
  {
    StartWithoutEmptied(s, d, b);
    SwitchThenClick(s, d, b, e);
    assert Repeat(b, 2) == [b, b];
  }

  /**
   * A late `emptied` from the stack that was switched away from clears the newer stack: its
   * subscription survived the switch, so it resets the service and stops every listener.
   */
  lemma StaleEmptiedClearsNewerStack(s: Service, d: Decider, a: StackId, b: StackId, n: nat)
    requires WellFormed(s) && !s.stopCompleted && s.stack == Some(a) && a != b
    requires Listener(n, EmptiedOf(a)) in s.live
    ensures var o1 := Step(s, Start(d, b), false);
      var o2 := Step(o1.svc, StackEmptied(a), false);
      && o1.svc.stack == Some(b)
      && o2.svc.stack == None && o2.svc.decider == None && o2.svc.live == []
  {
    StartWithoutEmptied(s, d, b);
    var s1 := Step(s, Start(d, b), false).svc;
    assert Listener(n, EmptiedOf(a)) in s1.live by {
      assert s1.live == s.live + Pair(s.nextId, b);
    }
    EmptiedResets(s1, a, n);
  }

  /** An idle service torn down and then started for one stack. */
  lemma DestroyThenStart(s0: Service, d: Decider, a: StackId)
    requires WellFormed(s0) && Idle(s0)
    ensures var o0 := Step(s0, DestroyService, false);
      var o1 := Step(o0.svc, Start(d, a), false);
      && o1.svc.stopCompleted && o1.svc.decider == Some(d) && o1.svc.stack == Some(a)
      && o1.svc.live == Pair(s0.nextId, a)
  {
    var s1 := Step(s0, DestroyService, false).svc;
    assert s1 == s0.(stopCompleted := true);
    StartFromIdleState(s1, d, a);
  }

  /** After teardown an emptied stack resets the service but cuts no listener. */
  lemma OrphanedListener(s: Service, n: nat, a: StackId)
    requires WellFormed(s) && s.stopCompleted
    requires s.live == Pair(n, a)
    ensures var r := Step(s, StackEmptied(a), false).svc;
      r.live == s.live && r.decider.None? && r.stack.None?
  {
    assert s.live[0] in s.live;
  }

  /** A click on an element reaching a live mousedown listener with no decider throws. */
  lemma OrphanClickFaults(s: Service, n: nat, a: StackId, e: MouseEvent)
    requires WellFormed(s) && s.decider.None?
    requires s.live == Pair(n, a)
    requires IsHtmlElement(ResolveTarget(e))
    ensures Step(s, Down(e), false).faulted
  {
    SnapshotOfPair(n, a);
    assert s.live[1] in s.live;
    assert n + 1 in Ids(s.live);
  }

  /**
   * Once the stop signal is complete, stopping cuts nothing: a stack that empties leaves its
   * mousedown listener live with no decider, and the next click on an element calls the
   * missing decider.
   */
  lemma ClickAfterDestroyFaults(s0: Service, d: Decider, a: StackId, e: MouseEvent)
    requires WellFormed(s0) && Idle(s0)
    requires IsHtmlElement(ResolveTarget(e))
    ensures var o0 := Step(s0, DestroyService, false);
      var o1 := Step(o0.svc, Start(d, a), false);
      var o2 := Step(o1.svc, StackEmptied(a), false);
      Step(o2.svc, Down(e), false).faulted
  {
    DestroyThenStart(s0, d, a);
    var s1 := Step(s0, DestroyService, false).svc;
    var s2 := Step(s1, Start(d, a), false).svc;
    OrphanedListener(s2, s0.nextId, a);
    var s3 := Step(s2, StackEmptied(a), false).svc;
    OrphanClickFaults(s3, s0.nextId, a, e);
  }

  /** A click the tracked decider rejects closes nothing and changes nothing, on any state. */
  lemma RejectedClick(s: Service, e: MouseEvent, syncEmptied: bool)
    requires WellFormed(s) && s.decider.Some?
    requires IsHtmlElement(ResolveTarget(e)) && !s.decider.value(ResolveTarget(e).value)
    ensures var o := Step(s, Down(e), syncEmptied);
      o.closed == [] && o.svc == s && !o.faulted
  {
  }

  /**
   * A click that closes the first stack, a switch to a second stack, and a click the second
   * decider rejects, with stacks that do not emit `emptied` on `closeAll`: the first stack is
   * closed by the click and again by the switch, and nothing else closes.
   */
  lemma ClickSwitchRejectScenario(s0: Service, d1: Decider, d2: Decider, a: StackId, b: StackId, e1: MouseEvent, e2: MouseEvent)
    requires WellFormed(s0) && Idle(s0) && a != b
    requires IsHtmlElement(ResolveTarget(e1)) && d1(ResolveTarget(e1).value)
    requires IsHtmlElement(ResolveTarget(e2)) && !d2(ResolveTarget(e2).value)
    ensures var o1 := Step(s0, Start(d1, a), false);
      var o2 := Step(o1.svc, Down(e1), false);
      var o3 := Step(o2.svc, Start(d2, b), false);
      var o4 := Step(o3.svc, Down(e2), false);
      o1.closed == [] && o2.closed == [a] && o3.closed == [a] && o4.closed == [] && !o4.faulted
  {
    StartFromIdle(s0, d1, a);
    var s1 := Step(s0, Start(d1, a), false).svc;
    AcceptedClickClosesPerListener(s1, e1);
    assert Repeat(a, 1) == [a];
    var s2 := Step(s1, Down(e1), false).svc;
    StartWithoutEmptied(s2, d2, b);
    var s3 := Step(s2, Start(d2, b), false).svc;
    RejectedClick(s3, e2, false);
  }
}

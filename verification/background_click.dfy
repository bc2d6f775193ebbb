/**
 * `BackgroundClickService` (src/cdk-experimental/menu/background-click-service.ts): the
 * root-level coordinator that keeps at most one menu stack open and closes it out when a
 * mousedown lands on the background.
 *
 * Menu stacks are opaque ids. The service's rxjs subscriptions are an ordered list of live
 * listeners, each with a fresh id; all of them are cut by one shared stop signal
 * (`_stopListener`), which does nothing any more once it has been completed by
 * `ngOnDestroy`. Whether a stack's `closeAll()` synchronously emits that stack's `emptied`
 * is decided by the menu stack, whose code is not part of this model, so every step takes
 * it as the parameter `syncEmptied`. The outputs of a step are the `closeAll` calls it
 * issues, in order, and the ids of the listeners whose callbacks ran.
 */
module BackgroundClick {
  import opened Wrappers

  /** The identity of a `MenuStack`. */
  type StackId = nat

  /** What a mousedown can resolve to: an `HTMLElement`, or some other node (text, SVG, ...). */
  datatype Node = HtmlElement(id: nat) | OtherNode(id: nat)

  /** A `CloseDecider`: whether a background mousedown on this element closes the stack. */
  type Decider = Node -> bool

  /**
   * A mousedown event: `composedPath` is `None` when the browser lacks the method; the
   * resolved target is the first entry of the composed path, else `target`.
   */
  datatype MouseEvent = MouseEvent(composedPath: Option<seq<Node>>, target: Option<Node>)

  /** What a subscription listens to: one stack's `emptied`, or the document's mousedowns. */
  datatype Kind = EmptiedOf(stack: StackId) | Mousedown

  /** A live subscription, cut by the stop signal. */
  datatype Listener = Listener(id: nat, kind: Kind)

  /**
   * The service: the current `CloseDecider` and menu stack (both `undefined` when idle),
   * the live listeners in subscription order, the next listener id, and whether the stop
   * signal has been completed.
   */
  datatype Service = Service(
    decider: Option<Decider>,
    stack: Option<StackId>,
    live: seq<Listener>,
    nextId: nat,
    stopCompleted: bool)

  /** A freshly injected service. */
  const Initial: Service := Service(None, None, [], 0, false)

  /**
   * What a step produces: the service afterwards, the stacks told to `closeAll` in call
   * order, the ids of the listeners whose callbacks ran, and whether a callback threw
   * (the source calls an `undefined` decider in that case).
   */
  datatype Outcome = Outcome(svc: Service, closed: seq<StackId>, fired: seq<nat>, faulted: bool)

  /** The ids of a list of listeners. */
  function Ids(ls: seq<Listener>): (r: set<nat>)
  {
    set l | l in ls :: l.id
  }

  /** Listener ids are below the counter and increase along the list. */
  predicate WellFormed(s: Service)
  {
    && (forall k :: 0 <= k < |s.live| ==> s.live[k].id < s.nextId)
    && (forall j, k :: 0 <= j < k < |s.live| ==> s.live[j].id < s.live[k].id)
  }

  /** The ids of the listeners of one kind, in subscription order: the dispatch snapshot. */
  function IdsOfKind(ls: seq<Listener>, k: Kind): (r: seq<nat>)
    ensures forall i :: i in r ==> i in Ids(ls)
    ensures forall l :: l in ls && l.kind == k ==> l.id in r
    ensures |r| <= |ls|
  {
    if |ls| == 0 then []
    else
      var rest := IdsOfKind(ls[1..], k);
      assert forall l :: l in ls[1..] ==> l in ls;
      if ls[0].kind == k then [ls[0].id] + rest else rest
  }

  /** Subscribe a new listener of kind `k` (`.pipe(takeUntil(this._stopListener)).subscribe`). */
  function Subscribe(s: Service, k: Kind): (r: Service)
    requires WellFormed(s)
    ensures WellFormed(r)
    ensures r.live == s.live + [Listener(s.nextId, k)] && r.nextId == s.nextId + 1
    ensures r == s.(live := r.live, nextId := r.nextId)
  {
    s.(live := s.live + [Listener(s.nextId, k)], nextId := s.nextId + 1)
  }

  /** `_stopListener.next()`: every live listener unsubscribes, unless the signal is complete. */
  function Stop(s: Service): (r: Service)
    ensures s.stopCompleted ==> r == s
    ensures !s.stopCompleted ==> r == s.(live := [])
  {
    if s.stopCompleted then s else s.(live := [])
  }

  /** `_resetState()`: forget the decider and the stack; the subscriptions are untouched. */
  function Reset(s: Service): (r: Service)
    ensures r.decider.None? && r.stack.None?
    ensures r.live == s.live && r.nextId == s.nextId && r.stopCompleted == s.stopCompleted
  {
    s.(decider := None, stack := None)
  }

  /** Run the `emptied` callbacks of the snapshot `ids`, skipping any no longer live. */
  function RunEmptied(s: Service, ids: seq<nat>): (r: Outcome)
    decreases |ids|
    ensures !r.faulted && r.closed == []
    ensures r.svc.nextId == s.nextId && r.svc.stopCompleted == s.stopCompleted
    ensures forall i :: i in r.fired ==> i in ids && i in Ids(s.live)
    // No snapshot listener is live: nothing happens.
    ensures (forall k :: 0 <= k < |ids| ==> ids[k] !in Ids(s.live)) ==> r.svc == s && r.fired == []
    // Some snapshot listener is live: the service is reset and, unless destroyed, cut off.
    ensures (exists k :: 0 <= k < |ids| && ids[k] in Ids(s.live)) ==>
      && r.svc.decider.None? && r.svc.stack.None?
      && r.svc.live == (if s.stopCompleted then s.live else [])
  {
    if |ids| == 0 then Outcome(s, [], [], false)
    else if ids[0] !in Ids(s.live) then
      var r := RunEmptied(s, ids[1..]);
      assert forall k :: 1 <= k < |ids| ==> ids[k] == ids[1..][k - 1];
      r
    else
      var after := Stop(Reset(s));
      var r := RunEmptied(after, ids[1..]);
      assert forall i :: i in Ids(after.live) ==> i in Ids(s.live);
      assert forall k :: 0 <= k < |ids[1..]| && ids[1..][k] in Ids(after.live) ==> after.stopCompleted;
      r.(fired := [ids[0]] + r.fired)
  }

  /** Stack `st` emits `emptied`: its live subscribers reset the service and stop all listeners. */
  function EmitEmptied(s: Service, st: StackId): (r: Outcome)
    requires WellFormed(s)
    ensures WellFormed(r.svc)
    ensures !r.faulted && r.closed == []
    ensures r.svc.nextId == s.nextId && r.svc.stopCompleted == s.stopCompleted
    ensures forall i :: i in r.fired ==> i in Ids(s.live)
    ensures (exists l :: l in s.live && l.kind == EmptiedOf(st)) ==>
      && r.svc.decider.None? && r.svc.stack.None?
      && r.svc.live == (if s.stopCompleted then s.live else [])
    ensures (forall l :: l in s.live ==> l.kind != EmptiedOf(st)) ==> r.svc == s && r.fired == []
  {
    var ids := IdsOfKind(s.live, EmptiedOf(st));
    SubscriberInSnapshot(s.live, st);
    RunEmptied(s, ids)
  }

  /** A live `emptied` subscriber of `st` shows up, live, in the dispatch snapshot. */
  lemma SubscriberInSnapshot(live: seq<Listener>, st: StackId)
    ensures (exists l :: l in live && l.kind == EmptiedOf(st)) ==>
      var ids := IdsOfKind(live, EmptiedOf(st));
      exists k :: 0 <= k < |ids| && ids[k] in Ids(live)
    ensures (forall l :: l in live ==> l.kind != EmptiedOf(st)) ==> IdsOfKind(live, EmptiedOf(st)) == []
  {
    if exists l :: l in live && l.kind == EmptiedOf(st) {
      var l :| l in live && l.kind == EmptiedOf(st);
      LiveInSnapshot(live, EmptiedOf(st), l);
    } else {
      NoneOfKind(live, EmptiedOf(st));
    }
  }

  /** A live listener of the given kind puts a live id into that kind's dispatch snapshot. */
  lemma LiveInSnapshot(live: seq<Listener>, kind: Kind, l: Listener)
    requires l in live && l.kind == kind
    ensures exists k :: 0 <= k < |IdsOfKind(live, kind)| && IdsOfKind(live, kind)[k] in Ids(live)
  {
    var ids := IdsOfKind(live, kind);
    assert l.id in ids;
    var k :| 0 <= k < |ids| && ids[k] == l.id;
    assert l.id in Ids(live);
  }

  /** With no live listener of a kind, that kind's dispatch snapshot is empty. */
  lemma {:induction false} NoneOfKind(live: seq<Listener>, k: Kind)
    requires forall l :: l in live ==> l.kind != k
    ensures IdsOfKind(live, k) == []
  {
    if |live| > 0 {
      assert forall l :: l in live[1..] ==> l in live;
      NoneOfKind(live[1..], k);
    }
  }

  /** `event.composedPath ? event.composedPath()[0] : event.target`. */
  function ResolveTarget(e: MouseEvent): (t: Option<Node>)
    ensures e.composedPath.Some? ==>
      t == (if |e.composedPath.value| > 0 then Some(e.composedPath.value[0]) else None)
    ensures e.composedPath.None? ==> t == e.target
  {
    match e.composedPath
    case Some(path) => if |path| > 0 then Some(path[0]) else None
    case None => e.target
  }

  /** `target instanceof HTMLElement`. */
  predicate IsHtmlElement(t: Option<Node>)
  {
    t.Some? && t.value.HtmlElement?
  }

  /**
   * One mousedown callback: it reads the decider and the stack current at this moment, not
   * those current when it subscribed.
   */
  function MousedownCallback(s: Service, t: Option<Node>, syncEmptied: bool): (r: Outcome)
    requires WellFormed(s)
    ensures WellFormed(r.svc)
    ensures r.svc.nextId == s.nextId && r.svc.stopCompleted == s.stopCompleted
    ensures forall l :: l in r.svc.live ==> l in s.live
    ensures forall i :: i in r.fired ==> i in Ids(s.live)
    ensures !IsHtmlElement(t) ==> r == Outcome(s, [], [], false)
    ensures r.faulted <==> IsHtmlElement(t) && (s.decider.None? || (s.decider.value(t.value) && s.stack.None?))
    ensures r.closed != [] <==>
      IsHtmlElement(t) && s.decider.Some? && s.decider.value(t.value) && s.stack.Some?
    ensures r.closed != [] ==> r.closed == [s.stack.value]
    ensures r.closed == [] ==> r.svc == s && r.fired == []
    ensures !syncEmptied ==> r.svc == s && r.fired == []
  {
    if !IsHtmlElement(t) then Outcome(s, [], [], false)
    else
      match s.decider
      case None => Outcome(s, [], [], true)
      case Some(shouldClose) =>
        if !shouldClose(t.value) then Outcome(s, [], [], false)
        else
          match s.stack
          case None => Outcome(s, [], [], true)
          case Some(st) =>
            if syncEmptied then
              var e := EmitEmptied(s, st);
              Outcome(e.svc, [st], e.fired, false)
            else
              Outcome(s, [st], [], false)
  }

  /** `n` calls of `closeAll` on the same stack. */
  function Repeat(st: StackId, n: nat): (r: seq<StackId>)
    ensures |r| == n
    ensures forall k :: 0 <= k < n ==> r[k] == st
  {
    if n == 0 then [] else [st] + Repeat(st, n - 1)
  }

  /**
   * Run the mousedown callbacks of the snapshot `ids` in order, skipping any no longer live;
   * a callback that throws ends the dispatch.
   */
  function RunMousedown(s: Service, ids: seq<nat>, t: Option<Node>, syncEmptied: bool): (r: Outcome)
    requires WellFormed(s)
    decreases |ids|
    ensures WellFormed(r.svc)
    ensures r.svc.nextId == s.nextId && r.svc.stopCompleted == s.stopCompleted
    ensures forall l :: l in r.svc.live ==> l in s.live
    ensures forall i :: i in r.fired ==> i in Ids(s.live)
    // Every `closeAll` goes to the stack tracked when the event arrived.
    ensures forall k :: 0 <= k < |r.closed| ==> s.stack == Some(r.closed[k])
    ensures !IsHtmlElement(t) ==> r.svc == s && r.closed == [] && !r.faulted
    ensures IsHtmlElement(t) && s.decider.Some? && !s.decider.value(t.value) ==>
      r.svc == s && r.closed == [] && !r.faulted
  {
    if |ids| == 0 then Outcome(s, [], [], false)
    else if ids[0] !in Ids(s.live) then RunMousedown(s, ids[1..], t, syncEmptied)
    else
      var c := MousedownCallback(s, t, syncEmptied);
      if c.faulted then Outcome(c.svc, c.closed, [ids[0]] + c.fired, true)
      else
        var rest := RunMousedown(c.svc, ids[1..], t, syncEmptied);
        Outcome(rest.svc, c.closed + rest.closed, [ids[0]] + c.fired + rest.fired, rest.faulted)
  }

  /**
   * Without a synchronous `emptied`, a click the decider accepts leaves the service as it
   * was, so every live listener in the snapshot closes the tracked stack once.
   */
  lemma {:induction false} ClosesOncePerListener(s: Service, ids: seq<nat>, t: Option<Node>)
    requires WellFormed(s)
    requires IsHtmlElement(t) && s.decider.Some? && s.decider.value(t.value) && s.stack.Some?
    requires forall k :: 0 <= k < |ids| ==> ids[k] in Ids(s.live)
    ensures var r := RunMousedown(s, ids, t, false);
      r.svc == s && !r.faulted && r.closed == Repeat(s.stack.value, |ids|)
    decreases |ids|
  {
    if |ids| > 0 {
      assert forall k :: 0 <= k < |ids[1..]| ==> ids[1..][k] == ids[k + 1];
      ClosesOncePerListener(s, ids[1..], t);
    }
  }

  /** A mousedown reaches the document: every live mousedown listener is dispatched to. */
  function OnMousedown(s: Service, e: MouseEvent, syncEmptied: bool): (r: Outcome)
    requires WellFormed(s)
    ensures WellFormed(r.svc)
    ensures r.svc.nextId == s.nextId && r.svc.stopCompleted == s.stopCompleted
    ensures forall l :: l in r.svc.live ==> l in s.live
    ensures forall i :: i in r.fired ==> i in Ids(s.live)
    ensures forall k :: 0 <= k < |r.closed| ==> s.stack == Some(r.closed[k])
    ensures !IsHtmlElement(ResolveTarget(e)) ==> r.svc == s && r.closed == [] && !r.faulted
    ensures s.decider.Some? && IsHtmlElement(ResolveTarget(e)) && !s.decider.value(ResolveTarget(e).value) ==>
      r.svc == s && r.closed == [] && !r.faulted
  {
    RunMousedown(s, IdsOfKind(s.live, Mousedown), ResolveTarget(e), syncEmptied)
  }

  /**
   * Without a synchronous `emptied`, a click the decider accepts closes the tracked stack
   * once for every live mousedown subscription, and changes nothing.
   */
  lemma AcceptedClickClosesPerListener(s: Service, e: MouseEvent)
    requires WellFormed(s) && s.decider.Some? && s.stack.Some?
    requires IsHtmlElement(ResolveTarget(e)) && s.decider.value(ResolveTarget(e).value)
    ensures var o := Step(s, Down(e), false);
      && o.svc == s && !o.faulted
      && o.closed == Repeat(s.stack.value, |IdsOfKind(s.live, Mousedown)|)
  {
    var ids := IdsOfKind(s.live, Mousedown);
    assert forall k :: 0 <= k < |ids| ==> ids[k] in Ids(s.live);
    ClosesOncePerListener(s, ids, ResolveTarget(e));
  }

  /** `_closePreviousMenuStack()`: `this._menuStack?.closeAll()`. */
  function ClosePrevious(s: Service, syncEmptied: bool): (r: Outcome)
    requires WellFormed(s)
    ensures WellFormed(r.svc)
    ensures !r.faulted
    ensures r.svc.nextId == s.nextId && r.svc.stopCompleted == s.stopCompleted
    ensures forall i :: i in r.fired ==> i in Ids(s.live)
    ensures forall l :: l in r.svc.live ==> l in s.live
    ensures r.closed == (if s.stack.Some? then [s.stack.value] else [])
  {
    match s.stack
    case None => Outcome(s, [], [], false)
    case Some(previous) =>
      if syncEmptied then
        var e := EmitEmptied(s, previous);
        Outcome(e.svc, [previous], e.fired, false)
      else Outcome(s, [previous], [], false)
  }

  /** `startListener(shouldCloseMenu, menuStack)`. */
  function StartListener(s: Service, shouldClose: Decider, st: StackId, syncEmptied: bool): (r: Outcome)
    requires WellFormed(s)
    ensures WellFormed(r.svc)
    ensures !r.faulted
    ensures r.svc.stopCompleted == s.stopCompleted
    ensures forall i :: i in r.fired ==> i in Ids(s.live)
    // The stack already tracked: nothing at all happens.
    ensures s.stack == Some(st) ==> r == Outcome(s, [], [], false)
    ensures s.stack != Some(st) ==>
      // The previously tracked stack, and only it, is closed out first.
      && r.closed == (if s.stack.Some? then [s.stack.value] else [])
      // The new decider and stack are tracked.
      && r.svc.decider == Some(shouldClose) && r.svc.stack == Some(st)
      // Two fresh subscriptions: the stack's `emptied`, then the document's mousedowns.
      && r.svc.nextId == s.nextId + 2
      && |r.svc.live| >= 2
      && r.svc.live[|r.svc.live| - 2] == Listener(s.nextId, EmptiedOf(st))
      && r.svc.live[|r.svc.live| - 1] == Listener(s.nextId + 1, Mousedown)
      && forall k :: 0 <= k < |r.svc.live| - 2 ==> r.svc.live[k] in s.live
  {
    if s.stack == Some(st) then Outcome(s, [], [], false)
    else
      var before := ClosePrevious(s, syncEmptied);
      var tracked := before.svc.(decider := Some(shouldClose), stack := Some(st));
      var subscribed := Subscribe(Subscribe(tracked, EmptiedOf(st)), Mousedown);
      assert subscribed.live == before.svc.live + [Listener(s.nextId, EmptiedOf(st)), Listener(s.nextId + 1, Mousedown)];
      Outcome(subscribed, before.closed, before.fired, false)
  }

  /** `ngOnDestroy()`: signal stop, then complete the signal. */
  function Destroy(s: Service): (r: Service)
    ensures r.stopCompleted
    ensures !s.stopCompleted ==> r.live == []
    // A second `ngOnDestroy` signals a completed Subject, which cuts nothing.
    ensures s.stopCompleted ==> r.live == s.live
    ensures r == s.(live := r.live, stopCompleted := true)
  {
    Stop(s).(stopCompleted := true)
  }

  /** The inputs the service reacts to. */
  datatype Event =
    | Start(decider: Decider, stack: StackId)   // a trigger calls `startListener`
    | Down(event: MouseEvent)                   // a mousedown on the document
    | StackEmptied(stack: StackId)              // a stack emits `emptied` on its own
    | DestroyService                            // `ngOnDestroy`

  function Step(s: Service, ev: Event, syncEmptied: bool): (r: Outcome)
    requires WellFormed(s)
    ensures WellFormed(r.svc)
    ensures r.svc.nextId >= s.nextId
    ensures forall i :: i in r.fired ==> i in Ids(s.live)
    ensures forall l :: l in r.svc.live ==> l in s.live || l.id >= s.nextId
  {
    match ev
    case Start(d, st) =>
      var r := StartListener(s, d, st, syncEmptied);
      assert forall k :: 0 <= k < |r.svc.live| ==> r.svc.live[k] in s.live || r.svc.live[k].id >= s.nextId;
      r
    case Down(e) => OnMousedown(s, e, syncEmptied)
    case StackEmptied(st) => EmitEmptied(s, st)
    case DestroyService => Outcome(Destroy(s), [], [], false)
  }

  /** Feed a sequence of events to the service; a callback that throws ends the run. */
  function Run(s: Service, evs: seq<Event>, syncEmptied: bool): (r: Outcome)
    requires WellFormed(s)
    decreases |evs|
    ensures WellFormed(r.svc)
  {
    if |evs| == 0 then Outcome(s, [], [], false)
    else
      var o := Step(s, evs[0], syncEmptied);
      if o.faulted then o
      else
        var rest := Run(o.svc, evs[1..], syncEmptied);
        Outcome(rest.svc, o.closed + rest.closed, o.fired + rest.fired, rest.faulted)
  }

  // ---------------------------------------------------------------------------------------
  // At most one open menu stack, when closing a stack empties it at once
  // ---------------------------------------------------------------------------------------

  /**
   * Before `ngOnDestroy`, the service is idle with no listener, or tracks one stack with
   * exactly two listeners: that stack's `emptied`, then the document's mousedowns.
   */
  predicate Tracking(s: Service)
  {
    && WellFormed(s)
    && !s.stopCompleted
    && (s.decider.Some? <==> s.stack.Some?)
    && (s.stack.None? ==> s.live == [])
    && (s.stack.Some? ==>
          |s.live| == 2 && s.live[0].kind == EmptiedOf(s.stack.value) && s.live[1].kind == Mousedown)
  }

  /** In the single-stack shape, the mousedown snapshot is the one live mousedown listener. */
  lemma TrackingSnapshots(s: Service)
    requires Tracking(s) && s.stack.Some?
    ensures IdsOfKind(s.live, Mousedown) == [s.live[1].id]
    ensures s.live[1].id in Ids(s.live)
  {
    assert s.live[1..][1..] == [];
    assert s.live[1] in s.live;
  }

  /**
   * With a synchronous `emptied`, a mousedown closes the tracked stack exactly once when the
   * resolved target is an `HTMLElement` the decider accepts, and otherwise closes nothing.
   */
  lemma MousedownClosesOnce(s: Service, e: MouseEvent)
    requires Tracking(s)
    ensures var r := OnMousedown(s, e, true);
      var t := ResolveTarget(e);
      && !r.faulted
      && Tracking(r.svc)
      && r.closed == (if s.stack.Some? && IsHtmlElement(t) && s.decider.value(t.value)
                      then [s.stack.value] else [])
  {
    var t := ResolveTarget(e);
    var ids := IdsOfKind(s.live, Mousedown);
    if s.stack.None? {
      assert ids == [];
    } else {
      TrackingSnapshots(s);
      assert ids[1..] == [];
      assert s.live[0] in s.live;
      var c := MousedownCallback(s, t, true);
      assert c.closed != [] ==> c.svc.live == [] && c.svc.stack.None? && c.svc.decider.None?;
      assert Tracking(c.svc);
      assert RunMousedown(c.svc, [], t, true) == Outcome(c.svc, [], [], false);
    }
  }

  /** A stack emitting `emptied` resets the service if it is the tracked one, else changes nothing. */
  lemma EmptiedKeepsTracking(s: Service, st: StackId)
    requires Tracking(s)
    ensures var r := EmitEmptied(s, st);
      && Tracking(r.svc)
      && (s.stack == Some(st) ==> r.svc == Reset(s).(live := []))
      && (s.stack != Some(st) ==> r.svc == s)
  {
    if s.stack == Some(st) {
      assert s.live[0] in s.live;
    } else {
      assert forall l :: l in s.live ==> l.kind != EmptiedOf(st);
    }
  }

  /** `startListener` keeps one stack open: the new one, with a fresh pair of listeners. */
  lemma StartKeepsTracking(s: Service, d: Decider, st: StackId)
    requires Tracking(s)
    ensures var r := StartListener(s, d, st, true);
      && Tracking(r.svc)
      && (s.stack != Some(st) ==> |r.svc.live| == 2)
  {
    if s.stack.Some? && s.stack != Some(st) {
      EmptiedKeepsTracking(s, s.stack.value);
    }
  }

  /** Every event but `ngOnDestroy` keeps the single-stack shape, and no callback throws. */
  lemma StepKeepsTracking(s: Service, ev: Event)
    requires Tracking(s) && !ev.DestroyService?
    ensures !Step(s, ev, true).faulted && Tracking(Step(s, ev, true).svc)
  {
    match ev
    case Start(d, st) => StartKeepsTracking(s, d, st);
    case Down(e) => MousedownClosesOnce(s, e);
    case StackEmptied(st) => EmptiedKeepsTracking(s, st);
  }

  /** From the single-stack shape, any run without `ngOnDestroy` keeps that shape. */
  lemma {:induction false} RunKeepsTracking(s: Service, evs: seq<Event>)
    requires Tracking(s)
    requires forall k :: 0 <= k < |evs| ==> !evs[k].DestroyService?
    ensures !Run(s, evs, true).faulted && Tracking(Run(s, evs, true).svc)
    decreases |evs|
  {
    if |evs| > 0 {
      StepKeepsTracking(s, evs[0]);
      RunKeepsTracking(Step(s, evs[0], true).svc, evs[1..]);
    }
  }

  // ---------------------------------------------------------------------------------------
  // Teardown
  // ---------------------------------------------------------------------------------------

  /** All live listeners, and all future ones, have ids from `k` on. */
  predicate IdsFrom(s: Service, k: nat)
  {
    s.nextId >= k && forall l :: l in s.live ==> l.id >= k
  }

  lemma {:induction false} RunFiresOnlyFrom(s: Service, evs: seq<Event>, syncEmptied: bool, k: nat)
    requires WellFormed(s) && IdsFrom(s, k)
    ensures forall i :: i in Run(s, evs, syncEmptied).fired ==> i >= k
    decreases |evs|
  {
    if |evs| > 0 {
      var o := Step(s, evs[0], syncEmptied);
      assert IdsFrom(o.svc, k);
      RunFiresOnlyFrom(o.svc, evs[1..], syncEmptied, k);
    }
  }

  /**
   * After `ngOnDestroy`, whatever happens next, no listener subscribed before the destroy
   * runs its callback again.
   */
  lemma NoListenerFiresAfterDestroy(s: Service, evs: seq<Event>, syncEmptied: bool)
    requires WellFormed(s) && !s.stopCompleted
    ensures forall i :: i in Run(Destroy(s), evs, syncEmptied).fired ==> i >= s.nextId
    ensures forall l, i :: l in s.live && i in Run(Destroy(s), evs, syncEmptied).fired ==> i != l.id
  {
    RunFiresOnlyFrom(Destroy(s), evs, syncEmptied, s.nextId);
  }
}

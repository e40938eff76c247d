/** What the host-restart protocol keeps in every run: any number of requests, finalisers and unloads,
    interleaved in any way, after the mounts have been set up. */
module HostSafety {
  import opened Text
  import opened HostProtocol
  import Paths

  /** The state setup leaves: hosts created and configured, nobody running, the monitor free. */
  ghost predicate Start(s: State) {
    Inv(s) && s.threads == [] && s.owner == None
  }

  /** A run: each event is possible in the state it meets and leads to the next one. */
  ghost predicate IsRun(run: seq<Event>, states: seq<State>) {
    && |states| == |run| + 1
    && forall i {:trigger run[i]} :: 0 <= i < |run| ==> Enabled(states[i], run[i]) && states[i + 1] == Next(states[i], run[i])
  }

  ghost predicate IsRunFromStart(run: seq<Event>, states: seq<State>) {
    IsRun(run, states) && Start(states[0])
  }

  lemma {:induction false} EveryStateKeepsInv(run: seq<Event>, states: seq<State>, i: nat)
    requires IsRun(run, states) && Inv(states[0]) && i <= |run|
    ensures Inv(states[i])
  {
    if i > 0 {
      EveryStateKeepsInv(run, states, i - 1);
      assert Enabled(states[i - 1], run[i - 1]);
      NextKeepsInv(states[i - 1], run[i - 1]);
    }
  }

  lemma {:induction false} MountsNeverChange(run: seq<Event>, states: seq<State>, i: nat)
    requires IsRunFromStart(run, states) && i <= |run|
    ensures states[i].uri == states[0].uri && states[i].dir == states[0].dir && states[i].svr == states[0].svr
    ensures |states[i].slot| == |states[0].slot|
  {
    if i > 0 {
      MountsNeverChange(run, states, i - 1);
      assert Enabled(states[i - 1], run[i - 1]);
    }
  }

  /** In every state of every run a filled slot k holds a host created for key k from the URI and directory
      mounted at k, configured with that key and those paths, unless the thread that holds the lock has just
      stored it and is still to configure it or to take it out. */
  lemma SlotHoldsMountedHost(run: seq<Event>, states: seq<State>, i: nat, k: nat)
    requires IsRunFromStart(run, states) && i <= |run| && k < |states[i].slot| && states[i].slot[k].Some?
    ensures var s := states[i];
            var h := s.slot[k].value;
            && h < |s.hosts| && k < |states[0].uri| && k < |states[0].dir|
            && s.hosts[h].createdFor == k
            && s.hosts[h].uri == states[0].uri[k]
            && s.hosts[h].dir == states[0].dir[k]
            && (|| s.hosts[h].config == Some(Config(k, Paths.Configured(states[0].uri[k], states[0].dir[k])))
                || OwnerAt(s, Configure, Some(h))
                || OwnerAt(s, Recover, Some(h)))
  {
    EveryStateKeepsInv(run, states, i);
    MountsNeverChange(run, states, i);
    assert SlotOk(states[i], k);
    assert HostOk(states[i], states[i].slot[k].value);
  }

  // ----- progress -----

  /** No thread is stuck: one that is not done can take a step, unless it waits for the monitor, and then the
      thread that holds the monitor can. */
  lemma NobodyStuck(s: State, t: ThreadId) returns (u: ThreadId, a: Answer)
    requires Inv(s) && t < |s.threads| && !s.threads[t].pc.Done?
    ensures Enabled(s, Step(u, a))
    ensures u == t || (s.owner == Some(u) && (s.threads[t].pc == Enter || s.threads[t].pc == FinalEnter))
  {
    assert ThreadOk(s, t);
    var waits := (s.threads[t].pc.Enter? || s.threads[t].pc.FinalEnter?) && s.owner.Some?;
    u := if waits then s.owner.value else t;
    assert ThreadOk(s, u);
    a := if s.threads[u].pc.Dispatch? || s.threads[u].pc.Retry? then Unloaded else Goes;
  }

  /** How many steps a thread has left at most; one that read its slot empty has to connect. */
  function StepsLeft(t: Thread): nat {
    var connects := t.obj.None?;
    match t.pc
    case Read => 11
    case Dispatch => if connects then 11 else 7
    case Enter => if connects then 10 else 6
    case Load => if connects then 9 else 5
    case Compare => if connects then 8 else 4
    case Branch => if connects then 7 else 3
    case Create => 6
    case Publish => 5
    case Configure => 4
    case Query => 3
    case Recover => 2
    case Leave => 2
    case FinalEnter => 4
    case FinalTest => 3
    case FinalClear => 2
    case Done(_) => 0
    case _ => 1
  }

  lemma FinalizerGetsNearer(t: Thread, cur: Option<HostId>)
    requires Finalizing(t.pc)
    ensures StepsLeft(FinalizerStep(t, cur).thread) < StepsLeft(t)
  {
  }

  lemma ConnectGetsNearer(t: Thread, a: Answer, uri: string, dir: string, nextId: HostId)
    requires Connecting(t.pc)
    ensures StepsLeft(ConnectStep(t, a, uri, dir, nextId).thread) < StepsLeft(t)
  {
  }

  lemma RequestGetsNearer(t: Thread, a: Answer, cur: Option<HostId>)
    requires !Finalizing(t.pc) && !Connecting(t.pc) && !t.pc.Done?
    ensures StepsLeft(RequestStep(t, a, cur).thread) < StepsLeft(t)
  {
  }

  lemma EffectGetsNearer(s: State, i: ThreadId, a: Answer)
    requires Parallel(s) && InRange(s, i) && !s.threads[i].pc.Done?
    ensures StepsLeft(EffectOf(s, i, a).thread) < StepsLeft(s.threads[i])
  {
    var t := s.threads[i];
    if Finalizing(t.pc) {
      FinalizerGetsNearer(t, s.slot[t.key]);
    } else if Connecting(t.pc) {
      ConnectGetsNearer(t, a, s.uri[t.key], s.dir[t.key], |s.hosts|);
    } else {
      RequestGetsNearer(t, a, s.slot[t.key]);
    }
  }

  function StepBound(t: Thread): nat {
    if t.finalizer then 4 else 11
  }

  /** Every step of a thread brings it nearer to its end, no event takes another thread further from it, and a new
      thread starts within its bound. */
  lemma StepGetsNearer(s: State, e: Event, t: ThreadId)
    requires Enabled(s, e) && t < |Next(s, e).threads|
    ensures var t', own := Next(s, e).threads[t], if e.Step? && e.thread == t then 1 else 0;
            if t < |s.threads|
            then StepsLeft(t') + own <= StepsLeft(s.threads[t]) && StepBound(t') == StepBound(s.threads[t])
            else StepsLeft(t') <= StepBound(t') && own == 0
  {
    if e.Step? && e.thread == t {
      EffectGetsNearer(s, t, e.answer);
    }
  }

  /** How many of the first n events are steps of thread t. */
  function StepsOf(run: seq<Event>, n: nat, t: ThreadId): nat
    requires n <= |run|
  {
    if n == 0 then 0
    else StepsOf(run, n - 1, t) + if run[n - 1].Step? && run[n - 1].thread == t then 1 else 0
  }

  /** In every run, whatever the others do, a request takes at most 11 steps of its own and a finaliser at most 4. */
  lemma {:induction false} StepsAreBounded(run: seq<Event>, states: seq<State>, i: nat, t: ThreadId)
    requires IsRunFromStart(run, states) && i <= |run| && t < |states[i].threads|
    ensures StepsOf(run, i, t) + StepsLeft(states[i].threads[t]) <= StepBound(states[i].threads[t])
    decreases i
  {
    if i > 0 {
      assert Enabled(states[i - 1], run[i - 1]);
      StepGetsNearer(states[i - 1], run[i - 1], t);
      if t < |states[i - 1].threads| {
        StepsAreBounded(run, states, i - 1, t);
      } else {
        NoStepsYet(run, states, i - 1, t);
      }
    }
  }

  lemma {:induction false} NoStepsYet(run: seq<Event>, states: seq<State>, i: nat, t: ThreadId)
    requires IsRunFromStart(run, states) && i <= |run| && t >= |states[i].threads|
    ensures StepsOf(run, i, t) == 0
    decreases i
  {
    if i > 0 {
      assert Enabled(states[i - 1], run[i - 1]);
      NoStepsYet(run, states, i - 1, t);
    }
  }

  // ----- which host a request calls, and when an unconfigured one -----

  /** The thread that holds the lock has stored `h`, and is still to configure it or to take it out. */
  predicate InWindow(s: State, h: Option<HostId>) {
    OwnerAt(s, Configure, h) || OwnerAt(s, Recover, h)
  }

  lemma UnconfiguredInWindow(s: State, k: nat)
    requires Inv(s) && k < |s.slot| && s.slot[k].Some?
    ensures !IsConfigured(s.hosts, s.slot[k]) <==> InWindow(s, s.slot[k])
  {
    assert SlotOk(s, k);
    if InWindow(s, s.slot[k]) {
      assert ThreadOk(s, s.owner.value);
    }
  }

  /** In every state of every run a filled slot holds an unconfigured host exactly in that window. */
  lemma SlotUnconfiguredExactly(run: seq<Event>, states: seq<State>, i: nat, k: nat)
    requires IsRunFromStart(run, states) && i <= |run| && k < |states[i].slot| && states[i].slot[k].Some?
    ensures !IsConfigured(states[i].hosts, states[i].slot[k]) <==> InWindow(states[i], states[i].slot[k])
  {
    EveryStateKeepsInv(run, states, i);
    UnconfiguredInWindow(states[i], k);
  }

  /** Event `e` is the step in which ConnectHost configures `h`. */
  predicate Configures(s: State, e: Event, h: HostId) {
    e.Step? && e.answer == Goes && e.thread < |s.threads| &&
    s.threads[e.thread].pc == Configure && s.threads[e.thread].newHost == Some(h)
  }

  lemma ConfiguredStep(s: State, e: Event, h: HostId)
    requires Enabled(s, e) && h < |s.hosts|
    ensures h < |Next(s, e).hosts|
    ensures IsConfigured(Next(s, e).hosts, Some(h)) <==> IsConfigured(s.hosts, Some(h)) || Configures(s, e, h)
  {
  }

  /** Some step from i up to j configures `h`. */
  ghost predicate ConfiguredBetween(run: seq<Event>, states: seq<State>, i: nat, j: nat, h: HostId)
    requires j <= |run| && |states| == |run| + 1
  {
    exists n :: i <= n < j && Configures(states[n], run[n], h)
  }

  lemma {:induction false} ConfiguredSince(run: seq<Event>, states: seq<State>, i: nat, j: nat, h: HostId)
    requires IsRun(run, states) && i <= j <= |run| && h < |states[i].hosts|
    ensures h < |states[j].hosts|
    ensures IsConfigured(states[j].hosts, Some(h)) <==>
            IsConfigured(states[i].hosts, Some(h)) || ConfiguredBetween(run, states, i, j, h)
    decreases j
  {
    if i < j {
      ConfiguredSince(run, states, i, j - 1, h);
      OneMore(run, states, i, j, h);
      assert Enabled(states[j - 1], run[j - 1]);
      ConfiguredStep(states[j - 1], run[j - 1], h);
    }
  }

  lemma OneMore(run: seq<Event>, states: seq<State>, i: nat, j: nat, h: HostId)
    requires i < j <= |run| && |states| == |run| + 1
    ensures ConfiguredBetween(run, states, i, j, h) <==>
            ConfiguredBetween(run, states, i, j - 1, h) || Configures(states[j - 1], run[j - 1], h)
  {
  }

  lemma TakesSlot(s: State, e: Event, t: ThreadId)
    requires Enabled(s, e) && e.Step? && e.thread == t && s.threads[t].pc == Read
    ensures s.threads[t].key < |s.slot| && Next(s, e).hosts == s.hosts
    ensures Next(s, e).threads[t].obj == s.slot[s.threads[t].key] && Next(s, e).threads[t].pc != Read
  {
  }

  /** In every run: a request that reads its slot at step i, and is about to make its first or its second call at j,
      calls an unconfigured host exactly when it has not connected since, read inside the window, and no step since
      has configured the host. */
  lemma CallsUnconfiguredExactly(run: seq<Event>, states: seq<State>, i: nat, j: nat, t: ThreadId, h: HostId)
    requires IsRunFromStart(run, states) && i < j <= |run|
    requires run[i].Step? && run[i].thread == t && t < |states[i].threads| && states[i].threads[t].pc == Read
    requires t < |states[j].threads| && states[j].threads[t].obj == Some(h)
    requires states[j].threads[t].pc == Dispatch || states[j].threads[t].pc == Retry
    ensures states[j].threads[t].connects == 0 ==>
              states[i].threads[t].key < |states[i].slot| && states[i].slot[states[i].threads[t].key] == Some(h)
    ensures !IsConfigured(states[j].hosts, Some(h)) <==>
            && states[j].threads[t].connects == 0
            && InWindow(states[i], Some(h)) && !ConfiguredBetween(run, states, i + 1, j, h)
  {
    if states[j].threads[t].connects == 0 {
      TakenFromSlot(run, states, i, j, t, h);
      ReadInWindow(run, states, i, states[i].threads[t].key, h);
      ConfiguredSince(run, states, i + 1, j, h);
    } else {
      ConnectedCallsConfigured(run, states, j, t);
    }
  }

  lemma TakenFromSlot(run: seq<Event>, states: seq<State>, i: nat, j: nat, t: ThreadId, h: HostId)
    requires IsRunFromStart(run, states) && i < j <= |run|
    requires run[i].Step? && run[i].thread == t && t < |states[i].threads| && states[i].threads[t].pc == Read
    requires t < |states[j].threads| && states[j].threads[t].connects == 0 && states[j].threads[t].obj == Some(h)
    ensures states[i].threads[t].key < |states[i].slot| && states[i].slot[states[i].threads[t].key] == Some(h)
    ensures states[i + 1].hosts == states[i].hosts
  {
    assert Enabled(states[i], run[i]) && states[i + 1] == Next(states[i], run[i]);
    TakesSlot(states[i], run[i], t);
    ObjKept(run, states, i + 1, j, t);
  }

  /** If the thread has connected, it is to call a configured host. */
  predicate ConnectedOk(hosts: seq<Host>, t: Thread) {
    (t.pc == Leave || t.pc == Dispatch || t.pc == Retry) && t.connects != 0 ==> IsConfigured(hosts, t.obj)
  }

  /** In every run: a request that has connected goes on to call a configured host. */
  lemma {:induction false} ConnectedCallsConfigured(run: seq<Event>, states: seq<State>, j: nat, t: ThreadId)
    requires IsRunFromStart(run, states) && j <= |run| && t < |states[j].threads|
    ensures ConnectedOk(states[j].hosts, states[j].threads[t])
    decreases j
  {
    if j > 0 {
      EveryStateKeepsInv(run, states, j - 1);
      assert Enabled(states[j - 1], run[j - 1]);
      if t < |states[j - 1].threads| {
        ConnectedCallsConfigured(run, states, j - 1, t);
      }
      ConnectedStep(states[j - 1], run[j - 1], t);
    }
  }

  /** What a step does to `obj`: only the first read of the slot and the read back after connecting change it. */
  ghost predicate ObjAfter(t: Thread, cur: Option<HostId>, t': Thread) {
    && t'.pc != Read
    && (t'.connects == 0 && t.pc != Read ==> t.connects == 0 && t'.obj == t.obj)
    && ((t'.pc == Leave || t'.pc == Dispatch || t'.pc == Retry) && t'.connects != 0 ==>
          if t.pc == Query then t'.obj == cur
          else (t.pc == Leave || t.pc == Retry) && t.connects != 0 && t'.obj == t.obj)
  }

  lemma ConnectObjAfter(t: Thread, a: Answer, cur: Option<HostId>, uri: string, dir: string, nextId: HostId)
    requires Connecting(t.pc) && LocalsOk(t)
    ensures ObjAfter(t, cur, ConnectStep(t, a, uri, dir, nextId).thread)
  {
  }

  lemma RequestObjAfter(t: Thread, a: Answer, cur: Option<HostId>)
    requires !Finalizing(t.pc) && !Connecting(t.pc) && !t.pc.Done? && LocalsOk(t)
    ensures ObjAfter(t, cur, RequestStep(t, a, cur).thread)
  {
  }

  lemma EffectObjAfter(s: State, t: ThreadId, a: Answer)
    requires Parallel(s) && InRange(s, t) && !s.threads[t].pc.Done? && LocalsOk(s.threads[t])
    ensures ObjAfter(s.threads[t], s.slot[s.threads[t].key], EffectOf(s, t, a).thread)
  {
    var th := s.threads[t];
    if Connecting(th.pc) {
      ConnectObjAfter(th, a, s.slot[th.key], s.uri[th.key], s.dir[th.key], |s.hosts|);
    } else if !Finalizing(th.pc) {
      RequestObjAfter(th, a, s.slot[th.key]);
    }
  }

  lemma ConnectedStep(s: State, e: Event, t: ThreadId)
    requires Inv(s) && Enabled(s, e) && t < |Next(s, e).threads|
    requires t < |s.threads| ==> ConnectedOk(s.hosts, s.threads[t])
    ensures ConnectedOk(Next(s, e).hosts, Next(s, e).threads[t])
  {
    if t < |s.threads| {
      assert ThreadOk(s, t);
      if e.Step? && e.thread == t { EffectObjAfter(s, t, e.answer); }
      var obj := Next(s, e).threads[t].obj;
      if IsConfigured(s.hosts, obj) { ConfiguredStep(s, e, obj.value); }
    }
  }

  lemma ReadInWindow(run: seq<Event>, states: seq<State>, i: nat, k: nat, h: HostId)
    requires IsRunFromStart(run, states) && i <= |run| && k < |states[i].slot| && states[i].slot[k] == Some(h)
    ensures h < |states[i].hosts|
    ensures !IsConfigured(states[i].hosts, Some(h)) <==> InWindow(states[i], Some(h))
  {
    SlotUnconfiguredExactly(run, states, i, k);
    EveryStateKeepsInv(run, states, i);
    assert SlotOk(states[i], k);
  }

  /** A thread past its first read stays past it and, until it connects, has the same `obj` as `earlier`. */
  predicate StillHolds(s: State, t: ThreadId, earlier: Thread) {
    && t < |s.threads| && s.threads[t].pc != Read
    && (s.threads[t].connects == 0 ==> earlier.connects == 0 && s.threads[t].obj == earlier.obj)
  }

  lemma {:induction false} ObjKept(run: seq<Event>, states: seq<State>, i: nat, j: nat, t: ThreadId)
    requires IsRunFromStart(run, states) && i <= j <= |run| && t < |states[i].threads| && states[i].threads[t].pc != Read
    ensures StillHolds(states[j], t, states[i].threads[t])
    decreases j
  {
    if i < j {
      ObjKept(run, states, i, j - 1, t);
      ObjKeptInRun(run, states, j, t, states[i].threads[t]);
    }
  }

  lemma ObjKeptInRun(run: seq<Event>, states: seq<State>, j: nat, t: ThreadId, earlier: Thread)
    requires IsRunFromStart(run, states) && 0 < j <= |run| && StillHolds(states[j - 1], t, earlier)
    ensures StillHolds(states[j], t, earlier)
  {
    EveryStateKeepsInv(run, states, j - 1);
    assert Enabled(states[j - 1], run[j - 1]);
    ObjKeptStep(states[j - 1], run[j - 1], t, earlier);
  }

  lemma ObjKeptStep(s: State, e: Event, t: ThreadId, earlier: Thread)
    requires Inv(s) && Enabled(s, e) && StillHolds(s, t, earlier)
    ensures StillHolds(Next(s, e), t, earlier)
  {
    assert ThreadOk(s, t);
    if e.Step? && e.thread == t { EffectObjAfter(s, t, e.answer); }
  }

  /** In every run: a request calls a host created for its own key, from the URI and directory mounted there, and
      configured, if at all, with that key and those paths. */
  lemma CallsOwnHost(run: seq<Event>, states: seq<State>, i: nat, t: ThreadId)
    requires IsRunFromStart(run, states) && i <= |run| && t < |states[i].threads|
    requires states[i].threads[t].pc == Dispatch || states[i].threads[t].pc == Retry
    ensures var s := states[i];
            var k, obj := s.threads[t].key, s.threads[t].obj;
            && obj.Some? && obj.value < |s.hosts| && k < |states[0].uri| && k < |states[0].dir|
            && var host := s.hosts[obj.value];
            && host.createdFor == k && host.uri == states[0].uri[k] && host.dir == states[0].dir[k]
            && (host.config.Some? ==> host.config.value == Config(k, Paths.Configured(states[0].uri[k], states[0].dir[k])))
  {
    EveryStateKeepsInv(run, states, i);
    MountsNeverChange(run, states, i);
    assert ThreadOk(states[i], t);
    assert HostOk(states[i], states[i].threads[t].obj.value);
  }

  // ----- the lock -----

  /** Every write to a slot, also one that leaves its value as it was, is by the thread that holds the monitor,
      which goes on holding it; events that are not thread steps leave the slots alone. */
  lemma WritesUnderLock(s: State, e: Event)
    requires Inv(s) && Enabled(s, e)
    ensures e.Step? && EffectOf(s, e.thread, e.answer).write.Some? ==>
              s.owner == Some(e.thread) && Next(s, e).owner == Some(e.thread)
    ensures !(e.Step? && EffectOf(s, e.thread, e.answer).write.Some?) ==> Next(s, e).slot == s.slot
  {
    if e.Step? {
      assert ThreadOk(s, e.thread) && SlotOk(s, s.threads[e.thread].key);
      StepEffectOk(s, e.thread, e.answer);
    }
  }

  /** Every exit of HandleHostRequest and HostFinalized has given the monitor back: a thread holds it exactly
      while it is in a critical section, once, and with no such thread it is free. */
  lemma LockDiscipline(run: seq<Event>, states: seq<State>, i: nat)
    requires IsRunFromStart(run, states) && i <= |run|
    ensures var s := states[i];
            && (forall t {:trigger s.threads[t]} :: 0 <= t < |s.threads| ==>
                  (s.owner == Some(t) <==> InCritical(s.threads[t].pc)) &&
                  (s.threads[t].pc.Done? ==> s.owner != Some(t)))
            && s.holds == (if s.owner.Some? then 1 else 0)
            && (s.owner.Some? ==> s.owner.value < |s.threads|)
  {
    EveryStateKeepsInv(run, states, i);
    var s := states[i];
    forall t | 0 <= t < |s.threads|
      ensures (s.owner == Some(t) <==> InCritical(s.threads[t].pc)) && (s.threads[t].pc.Done? ==> s.owner != Some(t))
    {
      assert ThreadOk(s, t);
    }
  }

  /** The exit for a slot found empty right after a successful ConnectHost is never taken, and no request
      calls a host more than twice or connects more than once. */
  lemma RequestBounds(run: seq<Event>, states: seq<State>, i: nat, t: ThreadId)
    requires IsRunFromStart(run, states) && i <= |run| && t < |states[i].threads|
    ensures var th := states[i].threads[t];
            && th.pc != QueryFailed
            && th.dispatches <= 2 && th.connects <= 1 && th.dispatches + th.connects <= 2
            && (th.pc == Query ==> th.key < |states[i].slot| && states[i].slot[th.key] == th.newHost && th.newHost.Some?)
  {
    EveryStateKeepsInv(run, states, i);
    assert ThreadOk(states[i], t);
  }

  // ----- who takes a host out of its slot -----

  /** Every way in which slot k can lose host h in one step. */
  datatype Cause =
    | ItsFinalizer     // HostFinalized of h itself
    | ItsCaller        // a request that read h and whose call to h failed as unloaded
    | ItsConnector     // the thread that stored h, when configuring h failed
    | LateConnector    // a thread that read the slot empty before h was stored, and connects all the same

  ghost predicate Explains(c: Cause, t: Thread, h: HostId, after: Option<HostId>) {
    match c
    case ItsFinalizer => t.finalizer && t.pc == FinalClear && t.obj == Some(h) && after == None
    case ItsCaller => t.pc == Compare && t.obj == t.tryobj == Some(h) && t.dispatches == 1 && after == None
    case ItsConnector => t.pc == Recover && t.newHost == Some(h) && after == None
    case LateConnector =>
      && t.obj == None && t.tryobj == Some(h) && t.dispatches == 0 && t.connects == 1
      && ((t.pc == Publish && after == t.newHost) || (t.pc == Recover && t.newHost == None && after == None))
  }

  /** Which steps write a slot, and what: everything but the store of a new host empties it. */
  ghost predicate WritesOk(t: Thread, e: Effect, nextId: HostId) {
    && (e.write.Some? ==>
          && (t.pc.FinalClear? || t.pc.Recover? || t.pc.Publish? || (t.pc.Compare? && t.tryobj == t.obj))
          && e.write.value == if t.pc.Publish? then t.newHost else None)
    && (e.thread.pc.Publish? && e.thread.newHost.Some? ==> e.thread.newHost.value == nextId)
  }

  lemma RequestWrites(t: Thread, a: Answer, cur: Option<HostId>, nextId: HostId)
    requires !Finalizing(t.pc) && !Connecting(t.pc)
    ensures WritesOk(t, RequestStep(t, a, cur), nextId)
  {
  }

  lemma ThreadWrites(t: Thread, a: Answer, cur: Option<HostId>, uri: string, dir: string, nextId: HostId)
    ensures WritesOk(t, ThreadEffect(t, a, cur, uri, dir, nextId), nextId)
  {
    if !Finalizing(t.pc) && !Connecting(t.pc) {
      RequestWrites(t, a, cur, nextId);
    }
  }

  lemma SlotLosesHost(s: State, e: Event, k: nat, h: HostId) returns (c: Cause)
    requires Inv(s) && Enabled(s, e) && k < |s.slot|
    requires s.slot[k] == Some(h) && Next(s, e).slot[k] != Some(h)
    ensures e.Step? && s.threads[e.thread].key == k && s.owner == Some(e.thread)
    ensures Explains(c, s.threads[e.thread], h, Next(s, e).slot[k])
  {
    var t := s.threads[e.thread];
    assert ThreadOk(s, e.thread) && SlotOk(s, t.key);
    ThreadWrites(t, e.answer, s.slot[t.key], s.uri[t.key], s.dir[t.key], |s.hosts|);
    c := if t.pc == FinalClear then ItsFinalizer
         else if t.pc == Compare then ItsCaller
         else if t.pc == Recover && t.newHost.Some? then ItsConnector
         else LateConnector;
  }

  /** About to write over whatever the slot holds: with the new host, or, after CreateApplicationHost threw, with
      nothing. */
  predicate Displacing(t: Thread) {
    t.pc.Publish? || (t.pc.Recover? && t.newHost == None)
  }

  predicate SinceLoad(t: Thread) {
    !t.finalizer && (t.pc.Compare? || t.pc.Branch? || t.pc.Create? || Displacing(t))
  }

  lemma ConnectKeepsTryobj(t: Thread, a: Answer, uri: string, dir: string, nextId: HostId)
    requires Connecting(t.pc)
    ensures var t' := ConnectStep(t, a, uri, dir, nextId).thread;
            SinceLoad(t') ==> SinceLoad(t) && t'.tryobj == t.tryobj
  {
  }

  lemma RequestLoads(t: Thread, a: Answer, cur: Option<HostId>)
    requires !Finalizing(t.pc) && !Connecting(t.pc) && !t.pc.Done?
    ensures var t' := RequestStep(t, a, cur).thread;
            SinceLoad(t') ==>
              if SinceLoad(t) then t'.tryobj == t.tryobj else t.pc == Load && !a.Throws? && t'.tryobj == cur
  {
  }

  lemma LoadEffect(t: Thread, a: Answer, cur: Option<HostId>, uri: string, dir: string, nextId: HostId)
    requires !t.pc.Done? && SinceLoad(ThreadEffect(t, a, cur, uri, dir, nextId).thread)
    ensures var t' := ThreadEffect(t, a, cur, uri, dir, nextId).thread;
            if SinceLoad(t) then t'.tryobj == t.tryobj else t.pc == Load && !a.Throws? && t'.tryobj == cur
  {
    if Connecting(t.pc) {
      ConnectKeepsTryobj(t, a, uri, dir, nextId);
    } else if !Finalizing(t.pc) {
      RequestLoads(t, a, cur);
    }
  }

  lemma LoadStep(s: State, e: Event, t: ThreadId)
    requires Enabled(s, e) && t < |Next(s, e).threads| && SinceLoad(Next(s, e).threads[t])
    ensures t < |s.threads| && Next(s, e).threads[t].key == s.threads[t].key
    ensures if SinceLoad(s.threads[t]) then Next(s, e).threads[t].tryobj == s.threads[t].tryobj
            else
              && e == Step(t, Goes) && s.threads[t].pc == Load && s.threads[t].key < |s.slot|
              && Next(s, e).threads[t].tryobj == s.slot[s.threads[t].key]
  {
    if e.Step? && e.thread == t {
      var th := s.threads[t];
      LoadEffect(th, e.answer, s.slot[th.key], s.uri[th.key], s.dir[th.key], |s.hosts|);
    }
  }

  /** A thread past its read under the lock, at m, holds in `tryobj` what the slot held then. */
  lemma {:induction false} LoadedAt(run: seq<Event>, states: seq<State>, j: nat, t: ThreadId) returns (m: nat)
    requires IsRunFromStart(run, states) && j <= |run| && t < |states[j].threads| && SinceLoad(states[j].threads[t])
    ensures m < j && run[m] == Step(t, Goes) && t < |states[m].threads| && states[m].threads[t].pc == Load
    ensures states[m].threads[t].key == states[j].threads[t].key < |states[m].slot|
    ensures states[j].threads[t].tryobj == states[m].slot[states[j].threads[t].key]
    decreases j
  {
    assert j > 0;
    assert Enabled(states[j - 1], run[j - 1]);
    LoadStep(states[j - 1], run[j - 1], t);
    if SinceLoad(states[j - 1].threads[t]) {
      m := LoadedAt(run, states, j - 1, t);
    } else {
      m := j - 1;
    }
  }

  /** In every run: a request about to store its new host, or to clear the slot because creating one threw, had
      read the slot empty at first; it displaces a host exactly when it found one there after taking the lock, at m,
      and then that very host. */
  lemma ConnectDisplacesExactly(run: seq<Event>, states: seq<State>, j: nat, t: ThreadId) returns (m: nat)
    requires IsRunFromStart(run, states) && j <= |run| && t < |states[j].threads|
    requires states[j].threads[t].pc == Publish || (states[j].threads[t].pc == Recover && states[j].threads[t].newHost == None)
    ensures m < j && run[m] == Step(t, Goes) && t < |states[m].threads| && states[m].threads[t].pc == Load
    ensures states[j].threads[t].obj == None
    ensures var k := states[j].threads[t].key;
            k < |states[j].slot| && k < |states[m].slot| && states[j].slot[k] == states[m].slot[k]
  {
    EveryStateKeepsInv(run, states, j);
    assert ThreadOk(states[j], t);
    m := LoadedAt(run, states, j, t);
  }

  /** A finaliser step changes at most the slot that holds its own host: a late finaliser never clears a newer one. */
  lemma StaleFinalizerHarmless(s: State, i: ThreadId, a: Answer, k: nat)
    requires Inv(s) && Enabled(s, Step(i, a)) && s.threads[i].finalizer && k < |s.slot|
    requires s.slot[k] != s.threads[i].obj
    ensures Next(s, Step(i, a)).slot[k] == s.slot[k]
  {
    assert ThreadOk(s, i);
  }

  // ----- no host comes back -----

  /** h has been handed over to the slots, or will never be. */
  predicate Stored(s: State, h: HostId) {
    h < |s.hosts| && !OwnerAt(s, Publish, Some(h))
  }

  lemma StoredApply(s: State, i: ThreadId, e: Effect, h: HostId)
    requires Here(s, i) && EffectOk(s, i, e) && Stored(s, h)
    requires e.write.Some? && e.write.value.Some? ==>
               s.threads[i].pc == Publish && s.threads[i].newHost == e.write.value && s.owner == Some(i)
    requires e.thread.pc == Publish && e.thread.newHost.Some? ==> e.thread.newHost.value == |s.hosts|
    ensures Stored(Apply(s, i, e), h)
    ensures forall k :: 0 <= k < |s.slot| && s.slot[k] != Some(h) ==> Apply(s, i, e).slot[k] != Some(h)
  {
  }

  lemma StoredStays(s: State, e: Event, h: HostId)
    requires Inv(s) && Enabled(s, e) && Stored(s, h)
    ensures Stored(Next(s, e), h)
    ensures forall k :: 0 <= k < |s.slot| && s.slot[k] != Some(h) ==> Next(s, e).slot[k] != Some(h)
  {
    match e
    case Step(i, a) =>
      assert ThreadOk(s, i) && SlotOk(s, s.threads[i].key);
      StepEffectOk(s, i, a);
      var t := s.threads[i];
      ThreadWrites(t, a, s.slot[t.key], s.uri[t.key], s.dir[t.key], |s.hosts|);
      StoredApply(s, i, EffectOf(s, i, a), h);
    case _ =>
  }

  /** Over every run: a host that has left its slot never returns to it. */
  lemma HostNeverReturns(run: seq<Event>, states: seq<State>, i: nat, j: nat, m: nat, k: nat, h: HostId)
    requires IsRunFromStart(run, states) && i <= j <= m <= |run|
    requires k < |states[i].slot| && k < |states[j].slot|
    requires states[i].slot[k] == Some(h) && states[j].slot[k] != Some(h)
    ensures k < |states[m].slot| && states[m].slot[k] != Some(h)
  {
    StoredFrom(run, states, i, j, k, h);
    StaysOut(run, states, j, m, k, h);
  }

  lemma {:induction false} StoredFrom(run: seq<Event>, states: seq<State>, i: nat, j: nat, k: nat, h: HostId)
    requires IsRunFromStart(run, states) && i <= j <= |run| && k < |states[i].slot|
    requires states[i].slot[k] == Some(h)
    ensures Stored(states[j], h)
    decreases j
  {
    if i == j {
      EveryStateKeepsInv(run, states, i);
      assert SlotOk(states[i], k);
    } else {
      StoredFrom(run, states, i, j - 1, k, h);
      EveryStateKeepsInv(run, states, j - 1);
      assert Enabled(states[j - 1], run[j - 1]);
      StoredStays(states[j - 1], run[j - 1], h);
    }
  }

  // ----- a host found unloaded is out of its slot -----

  /** A host a thread has read was stored; and past the comparison under the lock a request's slot no longer
      holds the host its first call failed on. */
  predicate CallOk(s: State, t: Thread)
    requires t.key < |s.slot|
  {
    !t.finalizer && t.obj.Some? ==>
      && Stored(s, t.obj.value)
      && (FailedOn(t) ==> s.slot[t.key] != t.obj)
  }

  /** The request called the host in `obj`, was told it is unloaded, and has been through the comparison. */
  predicate FailedOn(t: Thread) {
    t.obj.Some? && t.connects == 0 && t.dispatches == 1 && (t.pc.Branch? || t.pc.Leave? || t.pc.Retry?)
  }

  /** A request takes `obj` from its slot only, and comes to have failed on it only by a comparison that
      empties the slot or finds another host there. */
  ghost predicate ObjOk(t: Thread, cur: Option<HostId>, e: Effect) {
    && (e.thread.obj.Some? ==> e.thread.obj == t.obj || e.thread.obj == cur)
    && (FailedOn(e.thread) ==> e.thread.obj == t.obj)
    && (FailedOn(e.thread) && !FailedOn(t) ==> if e.write.Some? then e.write.value == None else t.pc == Compare && t.tryobj != t.obj)
  }

  lemma ConnectObj(t: Thread, a: Answer, cur: Option<HostId>, uri: string, dir: string, nextId: HostId)
    requires Connecting(t.pc)
    ensures ObjOk(t, cur, ConnectStep(t, a, uri, dir, nextId))
  {
  }

  lemma RequestObj(t: Thread, a: Answer, cur: Option<HostId>)
    requires !Finalizing(t.pc) && !Connecting(t.pc) && (t.pc == Query ==> t.connects > 0)
    ensures ObjOk(t, cur, RequestStep(t, a, cur))
  {
  }

  lemma ObjFromSlot(s: State, i: ThreadId, a: Answer)
    requires Here(s, i) && Allows(s, i, s.threads[i], a) && !s.threads[i].finalizer
    ensures ObjOk(s.threads[i], s.slot[s.threads[i].key], EffectOf(s, i, a))
    ensures s.threads[i].pc == Compare ==> s.threads[i].tryobj == s.slot[s.threads[i].key]
  {
    var t := s.threads[i];
    if Connecting(t.pc) {
      ConnectObj(t, a, s.slot[t.key], s.uri[t.key], s.dir[t.key], |s.hosts|);
    } else {
      RequestObj(t, a, s.slot[t.key]);
    }
  }

  lemma OwnCallOk(s: State, i: ThreadId, a: Answer)
    requires Inv(s) && Enabled(s, Step(i, a)) && CallOk(s, s.threads[i])
    ensures CallOk(Next(s, Step(i, a)), Next(s, Step(i, a)).threads[i])
  {
    var t := s.threads[i];
    assert ThreadOk(s, i) && SlotOk(s, t.key);
    if !t.finalizer {
      ObjFromSlot(s, i, a);
      if t.obj.Some? { StoredStays(s, Step(i, a), t.obj.value); }
      if s.slot[t.key].Some? { StoredStays(s, Step(i, a), s.slot[t.key].value); }
    }
  }

  lemma OtherCallOk(s: State, e: Event, j: ThreadId)
    requires Inv(s) && Enabled(s, e) && j < |s.threads| && s.threads[j].key < |s.slot| && CallOk(s, s.threads[j])
    requires e.Step? ==> e.thread != j
    ensures Next(s, e).threads[j] == s.threads[j] && CallOk(Next(s, e), s.threads[j])
  {
    if !s.threads[j].finalizer && s.threads[j].obj.Some? { StoredStays(s, e, s.threads[j].obj.value); }
  }

  lemma {:induction false} EveryCallOk(run: seq<Event>, states: seq<State>, i: nat, t: ThreadId)
    requires IsRunFromStart(run, states) && i <= |run| && t < |states[i].threads|
    ensures states[i].threads[t].key < |states[i].slot| && CallOk(states[i], states[i].threads[t])
    decreases i
  {
    if i > 0 {
      if t < |states[i - 1].threads| {
        EveryCallOk(run, states, i - 1, t);
      }
      CallOkInRun(run, states, i, t);
    }
  }

  lemma CallOkInRun(run: seq<Event>, states: seq<State>, i: nat, t: ThreadId)
    requires IsRunFromStart(run, states) && 0 < i <= |run| && t < |states[i].threads|
    requires t < |states[i - 1].threads| ==>
               states[i - 1].threads[t].key < |states[i - 1].slot| && CallOk(states[i - 1], states[i - 1].threads[t])
    ensures states[i].threads[t].key < |states[i].slot| && CallOk(states[i], states[i].threads[t])
  {
    EveryStateKeepsInv(run, states, i - 1);
    assert Enabled(states[i - 1], run[i - 1]);
    CallOkStep(states[i - 1], run[i - 1], t);
  }

  lemma CallOkStep(s: State, e: Event, t: ThreadId)
    requires Inv(s) && Enabled(s, e) && t < |Next(s, e).threads|
    requires t < |s.threads| ==> s.threads[t].key < |s.slot| && CallOk(s, s.threads[t])
    ensures Next(s, e).threads[t].key < |Next(s, e).slot| && CallOk(Next(s, e), Next(s, e).threads[t])
  {
    NextKeepsInv(s, e);
    assert ThreadOk(Next(s, e), t);
    if t < |s.threads| {
      if e.Step? && e.thread == t {
        OwnCallOk(s, t, e.answer);
      } else {
        OtherCallOk(s, e, t);
      }
    }
  }

  /** In every interleaving: once a request has found its host unloaded and been through the lock, that host
      is out of the slot, and stays out for the rest of the run. */
  lemma UnloadedHostStaysOut(run: seq<Event>, states: seq<State>, i: nat, m: nat, t: ThreadId)
    requires IsRunFromStart(run, states) && i <= m <= |run| && t < |states[i].threads|
    requires !states[i].threads[t].finalizer && states[i].threads[t].obj.Some?
    requires states[i].threads[t].connects == 0 && states[i].threads[t].dispatches == 1
    requires states[i].threads[t].pc == Branch || states[i].threads[t].pc == Leave || states[i].threads[t].pc == Retry
    ensures var th := states[i].threads[t];
            th.key < |states[m].slot| && states[m].slot[th.key] != th.obj
  {
    EveryCallOk(run, states, i, t);
    StaysOut(run, states, i, m, states[i].threads[t].key, states[i].threads[t].obj.value);
  }

  lemma {:induction false} StaysOut(run: seq<Event>, states: seq<State>, i: nat, m: nat, k: nat, h: HostId)
    requires IsRunFromStart(run, states) && i <= m <= |run|
    requires k < |states[i].slot| && states[i].slot[k] != Some(h) && Stored(states[i], h)
    ensures k < |states[m].slot| && states[m].slot[k] != Some(h) && Stored(states[m], h)
    decreases m
  {
    if i < m {
      StaysOut(run, states, i, m - 1, k, h);
      EveryStateKeepsInv(run, states, m - 1);
      assert Enabled(states[m - 1], run[m - 1]);
      StoredStays(states[m - 1], run[m - 1], h);
    }
  }
}

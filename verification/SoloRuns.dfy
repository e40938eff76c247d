/** Runs in which one thread moves while the others stand still, computed on that thread's view alone. */
module SoloRuns {
  import opened HttpStatus
  import opened Text
  import opened HostProtocol
  import opened HostSafety
  import Paths

  /** What thread i sees and changes: its locals, the slot of its key, the hosts and the monitor. */
  datatype Local = Local(t: Thread, cur: Option<HostId>, hosts: seq<Host>, owner: Option<ThreadId>, holds: nat)

  predicate Fits(base: State, i: ThreadId, l: Local) {
    Parallel(base) && i < |base.threads| && l.t.key < |base.slot| &&
    (l.t.newHost.Some? ==> l.t.newHost.value < |l.hosts|)
  }

  /** `base` with thread i's view put in. */
  function Embed(base: State, i: ThreadId, l: Local): State
    requires Fits(base, i, l)
  {
    base.(slot := base.slot[l.t.key := l.cur], hosts := l.hosts, threads := base.threads[i := l.t],
          owner := l.owner, holds := l.holds)
  }

  function ViewOf(s: State, i: ThreadId): Local
    requires InRange(s, i)
  {
    Local(s.threads[i], s.slot[s.threads[i].key], s.hosts, s.owner, s.holds)
  }

  predicate LocalAllows(l: Local, i: ThreadId, a: Answer) {
    Permits(l.t.pc, Alive(l.hosts, l.t.obj), Available(l.owner, i), a)
  }

  function LocalApply(i: ThreadId, l: Local, e: Effect): Local {
    Local(e.thread, if e.write.Some? then e.write.value else l.cur, HostsAfter(e.host, l.hosts),
          OwnerAfter(e.lock, l.owner, l.holds, i), HoldsAfter(e.lock, l.holds))
  }

  function LocalNext(base: State, i: ThreadId, l: Local, a: Answer): Local
    requires Fits(base, i, l)
  {
    LocalApply(i, l, ThreadEffect(l.t, a, l.cur, base.uri[l.t.key], base.dir[l.t.key], |l.hosts|))
  }

  lemma EmbedApply(base: State, i: ThreadId, l: Local, e: Effect)
    requires Fits(base, i, l) && Fits(base, i, LocalApply(i, l, e)) && e.thread.key == l.t.key
    ensures InRange(Embed(base, i, l), i)
    ensures Apply(Embed(base, i, l), i, e) == Embed(base, i, LocalApply(i, l, e))
  {
  }

  lemma StepKeepsFit(base: State, i: ThreadId, l: Local, a: Answer)
    requires Fits(base, i, l)
    ensures Fits(base, i, LocalNext(base, i, l, a)) && LocalNext(base, i, l, a).t.key == l.t.key
  {
  }

  lemma EmbedStep(base: State, i: ThreadId, l: Local, a: Answer)
    requires Fits(base, i, l) && LocalAllows(l, i, a)
    ensures Fits(base, i, LocalNext(base, i, l, a))
    ensures Enabled(Embed(base, i, l), Step(i, a))
    ensures Next(Embed(base, i, l), Step(i, a)) == Embed(base, i, LocalNext(base, i, l, a))
  {
    StepKeepsFit(base, i, l, a);
    EmbedApply(base, i, l, ThreadEffect(l.t, a, l.cur, base.uri[l.t.key], base.dir[l.t.key], |l.hosts|));
  }

  lemma EmbedView(s: State, i: ThreadId)
    requires Parallel(s) && InRange(s, i)
    ensures Fits(s, i, ViewOf(s, i)) && Embed(s, i, ViewOf(s, i)) == s
  {
  }

  lemma Extend(run: seq<Event>, states: seq<State>, e: Event)
    requires IsRun(run, states) && Enabled(states[|run|], e)
    ensures IsRun(run + [e], states + [Next(states[|run|], e)])
  {
    var run', states' := run + [e], states + [Next(states[|run|], e)];
    forall i {:trigger run'[i]} | 0 <= i < |run'|
      ensures Enabled(states'[i], run'[i]) && states'[i + 1] == Next(states'[i], run'[i])
    {
      if i < |run| { assert run'[i] == run[i] && states'[i] == states[i] && states'[i + 1] == states[i + 1]; }
    }
  }

  /** The run so far has brought thread i to view `l` of `base`. */
  ghost predicate At(run: seq<Event>, states: seq<State>, base: State, i: ThreadId, l: Local) {
    IsRun(run, states) && Fits(base, i, l) && states[|run|] == Embed(base, i, l)
  }

  /** Extends a run by one step of thread i, with effect `e`. */
  lemma Advance(run: seq<Event>, states: seq<State>, base: State, i: ThreadId, l: Local, a: Answer, e: Effect)
    returns (run': seq<Event>, states': seq<State>, l': Local)
    requires At(run, states, base, i, l) && LocalAllows(l, i, a)
    requires ThreadEffect(l.t, a, l.cur, base.uri[l.t.key], base.dir[l.t.key], |l.hosts|) == e
    ensures At(run', states', base, i, l') && states'[0] == states[0]
    ensures l' == LocalApply(i, l, e)
  {
    EmbedStep(base, i, l, a);
    Extend(run, states, Step(i, a));
    run' := run + [Step(i, a)];
    states' := states + [Next(states[|run|], Step(i, a))];
    l' := LocalNext(base, i, l, a);
  }

  /** Turns to another thread. */
  lemma Switch(run: seq<Event>, states: seq<State>, base: State, i: ThreadId, l: Local, j: ThreadId)
    returns (base': State, l': Local)
    requires At(run, states, base, i, l) && j < |base.threads| && j != i
    requires base.threads[j].key < |base.slot| && base.threads[j].newHost == None
    ensures At(run, states, base', j, l') && base' == states[|run|] && l' == ViewOf(base', j) && l'.t == base.threads[j]
  {
    base' := states[|run|];
    EmbedView(base', j);
    l' := ViewOf(base', j);
  }

  /** A request arrives. */
  lemma Arrival(run: seq<Event>, states: seq<State>, key: nat)
    returns (run': seq<Event>, states': seq<State>, base: State, l: Local)
    requires IsRun(run, states) && Parallel(states[|run|]) && key < |states[|run|].slot|
    ensures var s := states[|run|];
            && At(run', states', base, |s.threads|, l) && states'[0] == states[0]
            && base == s.(threads := s.threads + [l.t])
            && l == Local(Thread(false, Read, key, None, None, None, 0, 0), s.slot[key], s.hosts, s.owner, s.holds)
  {
    var s := states[|run|];
    run', states' := run + [Arrive(key)], states + [Next(s, Arrive(key))];
    Extend(run, states, Arrive(key));
    base := states'[|run'|];
    l := ViewOf(base, |s.threads|);
    EmbedView(base, |s.threads|);
  }

  // ----- the stretches of a request, with their outcome -----

  /** The hosts one ConnectHost call adds. */
  function Connected(key: nat, uri: string, dir: string, created: bool, configured: bool): seq<Host> {
    if !created then []
    else [Host(key, uri, dir, if configured then Some(Config(key, Paths.Configured(uri, dir))) else None, true)]
  }

  /** The unlocked read of the slot. */
  lemma ReadSlot(run: seq<Event>, states: seq<State>, base: State, i: ThreadId, l: Local)
    returns (run': seq<Event>, states': seq<State>, l': Local)
    requires At(run, states, base, i, l) && l.t.pc == Read
    ensures At(run', states', base, i, l') && states'[0] == states[0]
    ensures l' == l.(t := l.t.(obj := l.cur, pc := if l.cur.Some? then Dispatch else Enter))
  {
    run', states', l' := Advance(run, states, base, i, l, Goes,
      Move(l.t.(obj := l.cur, pc := if l.cur.Some? then Dispatch else Enter)));
  }

  /** The first call of the host. */
  lemma CallHost(run: seq<Event>, states: seq<State>, base: State, i: ThreadId, l: Local, a: Answer)
    returns (run': seq<Event>, states': seq<State>, l': Local)
    requires At(run, states, base, i, l) && l.t.pc == Dispatch && LocalAllows(l, i, a)
    ensures At(run', states', base, i, l') && states'[0] == states[0]
    ensures l' == l.(t := l.t.(dispatches := l.t.dispatches + 1,
                               pc := if a.Replies? then Done(a.code) else if a.Unloaded? then Enter else Done(SERVER_ERROR)))
  {
    run', states', l' := Advance(run, states, base, i, l, a,
      Move(l.t.(dispatches := l.t.dispatches + 1,
                pc := if a.Replies? then Done(a.code) else if a.Unloaded? then Enter else Done(SERVER_ERROR))));
  }

  /** Monitor::Enter throws. */
  lemma FailToEnter(run: seq<Event>, states: seq<State>, base: State, i: ThreadId, l: Local)
    returns (run': seq<Event>, states': seq<State>, l': Local)
    requires At(run, states, base, i, l) && l.t.pc == Enter
    ensures At(run', states', base, i, l') && states'[0] == states[0]
    ensures l' == l.(t := l.t.(pc := Done(SERVER_ERROR)))
  {
    run', states', l' := Advance(run, states, base, i, l, Throws, Move(l.t.(pc := Done(SERVER_ERROR))));
  }

  /** The monitor is taken and the slot read again. */
  lemma EnterAndLoad(run: seq<Event>, states: seq<State>, base: State, i: ThreadId, l: Local, loads: bool)
    returns (run': seq<Event>, states': seq<State>, l': Local)
    requires At(run, states, base, i, l) && l.t.pc == Enter && l.owner == None && l.holds == 0
    ensures At(run', states', base, i, l') && states'[0] == states[0]
    ensures l' == l.(t := if loads then l.t.(tryobj := l.cur, pc := Compare) else l.t.(pc := CatchLocked),
                     owner := Some(i), holds := 1)
  {
    run', states', l' := Advance(run, states, base, i, l, Goes, Effect(l.t.(pc := Load), None, Same, Acquire));
    run', states', l' := Advance(run', states', base, i, l', if loads then Goes else Throws,
      Move(if loads then l.t.(tryobj := l.cur, pc := Compare) else l.t.(pc := CatchLocked)));
  }

  /** A slot that still is as first read is emptied. */
  lemma CompareAndBranch(run: seq<Event>, states: seq<State>, base: State, i: ThreadId, l: Local)
    returns (run': seq<Event>, states': seq<State>, l': Local)
    requires At(run, states, base, i, l) && l.t.pc == Compare
    ensures At(run', states', base, i, l') && states'[0] == states[0]
    ensures l' == l.(t := l.t.(pc := if l.t.obj.None? then Create else Leave),
                     cur := if l.t.tryobj == l.t.obj then None else l.cur)
  {
    var t := l.t.(pc := Branch);
    run', states', l' := Advance(run, states, base, i, l, Goes, if l.t.tryobj == l.t.obj then Write(t, None) else Move(t));
    run', states', l' := Advance(run', states', base, i, l', Goes, Move(t.(pc := if t.obj.None? then Create else Leave)));
  }

  /** ConnectHost creates a host, or null, and stores it. */
  lemma CreateAndPublish(run: seq<Event>, states: seq<State>, base: State, i: ThreadId, l: Local, a: Answer)
    returns (run': seq<Event>, states': seq<State>, l': Local)
    requires At(run, states, base, i, l) && l.t.pc == Create && (a.Goes? || a.Nothing?)
    ensures At(run', states', base, i, l') && states'[0] == states[0]
    ensures var h := if a.Goes? then Some(|l.hosts|) else None;
            l' == l.(t := l.t.(connects := l.t.connects + 1, newHost := h, pc := Configure), cur := h,
                     hosts := l.hosts + Connected(l.t.key, base.uri[l.t.key], base.dir[l.t.key], a.Goes?, false))
  {
    var t := l.t.(connects := l.t.connects + 1, newHost := if a.Goes? then Some(|l.hosts|) else None, pc := Publish);
    run', states', l' := Advance(run, states, base, i, l, a,
      if a.Goes? then Effect(t, None, AddHost(Host(l.t.key, base.uri[l.t.key], base.dir[l.t.key], None, true)), Keep) else Move(t));
    run', states', l' := Advance(run', states', base, i, l', Goes, Write(t.(pc := Configure), t.newHost));
  }

  /** CreateApplicationHost throws and ConnectHost empties the slot. */
  lemma FailToCreate(run: seq<Event>, states: seq<State>, base: State, i: ThreadId, l: Local)
    returns (run': seq<Event>, states': seq<State>, l': Local)
    requires At(run, states, base, i, l) && l.t.pc == Create
    ensures At(run', states', base, i, l') && states'[0] == states[0]
    ensures l' == l.(t := l.t.(connects := l.t.connects + 1, newHost := None, pc := ConnectFailed), cur := None)
  {
    var t := l.t.(connects := l.t.connects + 1, newHost := None, pc := Recover);
    run', states', l' := Advance(run, states, base, i, l, Throws, Move(t));
    run', states', l' := Advance(run', states', base, i, l', Goes, Write(t.(pc := ConnectFailed), None));
  }

  /** ConnectHost configures the host it stored. */
  lemma ConfigureNew(run: seq<Event>, states: seq<State>, base: State, i: ThreadId, l: Local)
    returns (run': seq<Event>, states': seq<State>, l': Local)
    requires At(run, states, base, i, l) && l.t.pc == Configure && l.t.newHost.Some?
    ensures At(run', states', base, i, l') && states'[0] == states[0]
    ensures var h := l.t.newHost.value;
            var config := Config(l.t.key, Paths.Configured(base.uri[l.t.key], base.dir[l.t.key]));
            l' == l.(t := l.t.(pc := Query), hosts := l.hosts[h := l.hosts[h].(config := Some(config))])
  {
    var config := Config(l.t.key, Paths.Configured(base.uri[l.t.key], base.dir[l.t.key]));
    run', states', l' := Advance(run, states, base, i, l, Goes,
      Effect(l.t.(pc := Query), None, SetConfig(l.t.newHost.value, config), Keep));
  }

  /** There is no host to configure, or Configure throws and ConnectHost empties the slot. */
  lemma FailToConfigure(run: seq<Event>, states: seq<State>, base: State, i: ThreadId, l: Local)
    returns (run': seq<Event>, states': seq<State>, l': Local)
    requires At(run, states, base, i, l) && l.t.pc == Configure
    ensures At(run', states', base, i, l') && states'[0] == states[0]
    ensures l' == l.(t := l.t.(pc := ConnectFailed), cur := if l.t.newHost.Some? then None else l.cur)
  {
    if l.t.newHost.None? {
      run', states', l' := Advance(run, states, base, i, l, Goes, Move(l.t.(pc := ConnectFailed)));
    } else {
      run', states', l' := Advance(run, states, base, i, l, Throws, Move(l.t.(pc := Recover)));
      run', states', l' := Advance(run', states', base, i, l', Goes, Write(l.t.(pc := ConnectFailed), None));
    }
  }

  /** The slot is read back after a successful ConnectHost. */
  lemma QuerySlot(run: seq<Event>, states: seq<State>, base: State, i: ThreadId, l: Local)
    returns (run': seq<Event>, states': seq<State>, l': Local)
    requires At(run, states, base, i, l) && l.t.pc == Query && l.cur.Some?
    ensures At(run', states', base, i, l') && states'[0] == states[0]
    ensures l' == l.(t := l.t.(obj := l.cur, pc := Leave))
  {
    run', states', l' := Advance(run, states, base, i, l, Goes, Move(l.t.(obj := l.cur, pc := Leave)));
  }

  /** A failing exit gives the monitor back. */
  lemma LeaveFailed(run: seq<Event>, states: seq<State>, base: State, i: ThreadId, l: Local)
    returns (run': seq<Event>, states': seq<State>, l': Local)
    requires At(run, states, base, i, l) && (l.t.pc == ConnectFailed || l.t.pc == CatchLocked) && l.holds == 1
    ensures At(run', states', base, i, l') && states'[0] == states[0]
    ensures l' == l.(t := l.t.(pc := Done(SERVER_ERROR)), owner := None, holds := 0)
  {
    run', states', l' := Advance(run, states, base, i, l, Goes, Effect(l.t.(pc := Done(SERVER_ERROR)), None, Same, Release));
  }

  /** The monitor is given back and the host called again. */
  lemma LeaveAndRetry(run: seq<Event>, states: seq<State>, base: State, i: ThreadId, l: Local, a: Answer)
    returns (run': seq<Event>, states': seq<State>, l': Local)
    requires At(run, states, base, i, l) && l.t.pc == Leave && l.holds == 1 && IsDispatch(a) && (a.Replies? ==> Alive(l.hosts, l.t.obj))
    ensures At(run', states', base, i, l') && states'[0] == states[0]
    ensures l' == l.(t := l.t.(dispatches := l.t.dispatches + 1, pc := Done(if a.Replies? then a.code else SERVER_ERROR)),
                     owner := None, holds := 0)
  {
    var t := l.t.(pc := Retry);
    run', states', l' := Advance(run, states, base, i, l, Goes, Effect(t, None, Same, Release));
    run', states', l' := Advance(run', states', base, i, l', a,
      Move(t.(dispatches := t.dispatches + 1, pc := Done(if a.Replies? then a.code else SERVER_ERROR))));
  }

  /** A host's finaliser starts. */
  lemma Collected(s: State, h: HostId)
    returns (run: seq<Event>, states: seq<State>, base: State, l: Local)
    requires Enabled(s, Collect(h)) && s.hosts[h].config.value.key < |s.slot|
    ensures var key := s.hosts[h].config.value.key;
            && At(run, states, base, |s.threads|, l) && states[0] == s
            && base == s.(threads := s.threads + [l.t])
            && l == Local(Thread(true, FinalEnter, key, Some(h), None, None, 0, 0), s.slot[key], s.hosts, s.owner, s.holds)
  {
    run, states := [Collect(h)], [s, Next(s, Collect(h))];
    base := states[1];
    l := ViewOf(base, |s.threads|);
    EmbedView(base, |s.threads|);
  }

  /** The finaliser takes the monitor and tests the slot. */
  lemma TestSlot(run: seq<Event>, states: seq<State>, base: State, i: ThreadId, l: Local)
    returns (run': seq<Event>, states': seq<State>, l': Local)
    requires At(run, states, base, i, l) && l.t.pc == FinalEnter && l.owner == None && l.holds == 0
    ensures At(run', states', base, i, l') && states'[0] == states[0]
    ensures l' == l.(t := l.t.(pc := if l.cur == l.t.obj then FinalClear else FinalExit), owner := Some(i), holds := 1)
  {
    run', states', l' := Advance(run, states, base, i, l, Goes, Effect(l.t.(pc := FinalTest), None, Same, Acquire));
    run', states', l' := Advance(run', states', base, i, l', Goes,
      Move(l.t.(pc := if l.cur == l.t.obj then FinalClear else FinalExit)));
  }

  lemma LeaveFinalizer(run: seq<Event>, states: seq<State>, base: State, i: ThreadId, l: Local)
    returns (run': seq<Event>, states': seq<State>, l': Local)
    requires At(run, states, base, i, l) && (l.t.pc == FinalClear || l.t.pc == FinalExit) && l.holds == 1
    ensures At(run', states', base, i, l') && states'[0] == states[0]
    ensures l' == l.(t := l.t.(pc := Done(0)), cur := if l.t.pc == FinalClear then None else l.cur, owner := None, holds := 0)
  {
    run', states', l' := run, states, l;
    if l.t.pc == FinalClear {
      run', states', l' := Advance(run, states, base, i, l, Goes, Write(l.t.(pc := FinalExit), None));
    }
    run', states', l' := Advance(run', states', base, i, l', Goes, Effect(l.t.(pc := Done(0)), None, Same, Release));
  }

  /** The whole finaliser, with the monitor free: it empties the slot exactly if that holds its host. */
  lemma Finalize(run: seq<Event>, states: seq<State>, base: State, i: ThreadId, l: Local)
    returns (run': seq<Event>, states': seq<State>, l': Local)
    requires At(run, states, base, i, l) && l.t.pc == FinalEnter && l.owner == None && l.holds == 0
    ensures At(run', states', base, i, l') && states'[0] == states[0]
    ensures l' == l.(t := l.t.(pc := Done(0)), cur := if l.cur == l.t.obj then None else l.cur)
  {
    run', states', l' := TestSlot(run, states, base, i, l);
    run', states', l' := LeaveFinalizer(run', states', base, i, l');
  }

  predicate IsDispatch(a: Answer) {
    a.Replies? || a.Unloaded? || a.Throws?
  }

  // ----- what the interleavings allow -----

  /** ConnectHost stores a host before it configures it: from every start with an empty slot there is a run in
      which a second request is about to call a host that has no configuration. */
  lemma UnconfiguredHostGetsCalled(s: State, k: nat) returns (run: seq<Event>, states: seq<State>)
    requires Start(s) && k < |s.slot| && s.slot[k] == None
    ensures IsRunFromStart(run, states) && states[0] == s
    ensures var end := states[|run|];
            && |end.threads| == 2 && end.threads[1].pc == Dispatch && end.threads[1].obj == Some(|s.hosts|)
            && |s.hosts| < |end.hosts| && end.hosts[|s.hosts|].config == None
  {
    var base, l;
    run, states, base, l := Arrival([], [s], k);
    run, states, l := ReadSlot(run, states, base, 0, l);
    run, states, l := EnterAndLoad(run, states, base, 0, l, true);
    run, states, l := CompareAndBranch(run, states, base, 0, l);
    run, states, l := CreateAndPublish(run, states, base, 0, l, Goes);
    var hosts := l.hosts;
    run, states, base, l := Arrival(run, states, k);
    run, states, l := ReadSlot(run, states, base, 1, l);
    assert l.hosts == hosts && hosts[|s.hosts|].config == None;
  }

  /** Two requests that both read an empty slot both connect: from every such start there is a run in which the
      second replaces a configured host that is alive and has just served a request. */
  lemma LiveHostGetsReplaced(s: State, k: nat) returns (run: seq<Event>, states: seq<State>)
    requires Start(s) && k < |s.slot| && s.slot[k] == None
    ensures IsRunFromStart(run, states) && states[0] == s
    ensures var end := states[|run|];
            && k < |end.slot| && end.slot[k] == Some(|s.hosts| + 1)
            && |s.hosts| < |end.hosts| && end.hosts[|s.hosts|].config.Some? && end.hosts[|s.hosts|].alive
            && |end.threads| == 2 && end.threads[0].pc == Done(200)
  {
    var base, l;
    run, states, base, l := BothReadNull(s, k);
    run, states, l := ServeFirst(run, states, base, 0, l);
    base, l := Switch(run, states, base, 0, l, 1);
    run, states, l := EnterAndLoad(run, states, base, 1, l, true);
    run, states, l := CompareAndBranch(run, states, base, 1, l);
    run, states, l := CreateAndPublish(run, states, base, 1, l, Goes);
  }

  lemma UnloadIt(s: State, k: nat, h: HostId) returns (run: seq<Event>, states: seq<State>)
    requires Start(s) && k < |s.slot| && s.slot[k] == Some(h)
    ensures h < |s.hosts| && IsRun(run, states) && states[0] == s
    ensures states[|run|] == s.(hosts := s.hosts[h := s.hosts[h].(alive := false)])
  {
    assert SlotOk(s, k);
    run, states := [Unload(h)], [s, Next(s, Unload(h))];
  }

  /** The host of a key is unloaded and then asked for: from every start with a filled slot there is a run in which a
      request calls the dead host, empties the slot and calls the same dead host again. */
  lemma DeadHostGetsCalledTwice(s: State, k: nat, h: HostId) returns (run: seq<Event>, states: seq<State>)
    requires Start(s) && k < |s.slot| && s.slot[k] == Some(h)
    ensures IsRunFromStart(run, states) && states[0] == s
    ensures var end := states[|run|];
            && h < |end.hosts| && !end.hosts[h].alive && k < |end.slot|
            && |end.threads| == 1 && end.threads[0].obj == Some(h) && end.threads[0].dispatches == 2
            && end.threads[0].pc == Done(500) && end.slot[k] == None
  {
    var base, l;
    run, states := UnloadIt(s, k, h);
    run, states, base, l := Arrival(run, states, k);
    run, states, l := ReadSlot(run, states, base, 0, l);
    run, states, l := CallHost(run, states, base, 0, l, Unloaded);
    run, states, l := EnterAndLoad(run, states, base, 0, l, true);
    run, states, l := CompareAndBranch(run, states, base, 0, l);
    run, states, l := LeaveAndRetry(run, states, base, 0, l, Unloaded);
  }

  lemma BothReadNull(s: State, k: nat) returns (run: seq<Event>, states: seq<State>, base: State, l: Local)
    requires Start(s) && k < |s.slot| && s.slot[k] == None
    ensures At(run, states, base, 0, l) && states[0] == s
    ensures var t := Thread(false, Enter, k, None, None, None, 0, 0);
            base == s.(threads := [t, t]) && l == Local(t, None, s.hosts, None, 0)
  {
    run, states, base, l := Arrival([], [s], k);
    run, states, l := ReadSlot(run, states, base, 0, l);
    run, states, base, l := Arrival(run, states, k);
    run, states, l := ReadSlot(run, states, base, 1, l);
    base, l := Switch(run, states, base, 1, l, 0);
    assert base.slot == s.slot;
  }

  /** A request that read an empty slot connects and is served. */
  lemma ServeFirst(run: seq<Event>, states: seq<State>, base: State, i: ThreadId, l: Local)
    returns (run': seq<Event>, states': seq<State>, l': Local)
    requires At(run, states, base, i, l) && l.t.pc == Enter && l.t.obj == None && l.cur == None
    requires l.owner == None && l.holds == 0
    ensures At(run', states', base, i, l') && states'[0] == states[0]
    ensures l'.t.pc == Done(200) && l'.t.key == l.t.key && l'.owner == None && l'.holds == 0
    ensures l'.cur == Some(|l.hosts|)
    ensures l'.hosts == l.hosts + Connected(l.t.key, base.uri[l.t.key], base.dir[l.t.key], true, true)
  {
    run', states', l' := EnterAndLoad(run, states, base, i, l, true);
    run', states', l' := CompareAndBranch(run', states', base, i, l');
    run', states', l' := CreateAndPublish(run', states', base, i, l', Goes);
    run', states', l' := ConfigureNew(run', states', base, i, l');
    run', states', l' := QuerySlot(run', states', base, i, l');
    run', states', l' := LeaveAndRetry(run', states', base, i, l', Replies(200));
  }
}

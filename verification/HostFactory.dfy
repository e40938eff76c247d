/** `HostFactory` as the object it is: four parallel lists updated in place.  Its methods run here without
    interference; `HandleHostRequest` carries along, as ghost state, the run of the restart protocol it performs. */
module HostFactories {
  import opened HttpStatus
  import opened Text
  import opened HostProtocol
  import opened HostSafety
  import opened SoloRuns
  import Paths

  /** The environment's answers to one request: the two dispatches, CreateApplicationHost and Host::Configure,
      and whether Monitor::Enter or the first read under the lock throws. */
  datatype Env = Env(first: Answer, second: Answer, create: Answer, configure: Answer, enterThrows: bool, loadThrows: bool)

  predicate Answers(env: Env) {
    && IsDispatch(env.first) && IsDispatch(env.second)
    && (env.create.Goes? || env.create.Throws? || env.create.Nothing?)
    && (env.configure.Goes? || env.configure.Throws?)
  }

  class HostFactory {
    var hostURI: seq<string>
    var hostDir: seq<string>
    var hostObj: seq<Option<HostId>>
    var hostSvr: seq<nat>
    var holds: nat             // how often this thread holds the monitor
    var domains: seq<Host>     // the application hosts created so far

    /** The requests served so far, as finished threads of the protocol. */
    ghost var served: seq<Thread>

    /** The lists as a state of the protocol between two calls. */
    ghost function View(): State
      reads this
    {
      State(hostURI, hostDir, hostSvr, hostObj, domains, served, None, 0)
    }

    ghost predicate Valid()
      reads this
    {
      holds == 0 && Inv(View())
    }

    constructor ()
      ensures Valid() && Start(View()) && hostObj == []
    {
      hostURI, hostDir, hostObj, hostSvr := [], [], [], [];
      holds, domains, served := 0, [], [];
    }

    /** ConnectHost: the new host is stored before it is configured, and taken out again if that fails. */
    method ConnectHost(key: nat, create: Answer, configure: Answer) returns (ok: bool)
      requires key < |hostObj| == |hostURI| == |hostDir|
      requires (create.Goes? || create.Throws? || create.Nothing?) && (configure.Goes? || configure.Throws?)
      modifies this`hostObj, this`domains
      ensures ok <==> create.Goes? && configure.Goes?
      ensures hostObj == old(hostObj)[key := if ok then Some(|old(domains)|) else None]
      ensures domains == old(domains) + Connected(key, hostURI[key], hostDir[key], create.Goes?, ok)
    {
      ok := false;
      if create.Throws? {
        hostObj := hostObj[key := None];
        return;
      }
      var newHost := None;
      if create.Goes? {
        newHost := Some(|domains|);
        domains := domains + [Host(key, hostURI[key], hostDir[key], None, true)];
      }
      hostObj := hostObj[key := newHost];
      if newHost.Some? {
        if configure.Throws? {
          hostObj := hostObj[key := None];
          return;
        }
        var config := Config(key, Paths.Configured(hostURI[key], hostDir[key]));
        domains := domains[newHost.value := domains[newHost.value].(config := Some(config))];
        ok := true;
      }
    }

    /** Mounts a host during setup.  The key of the n-th call is n, and keeps its place in all four lists,
        even when the mount fails and -1 is returned. */
    method CreateHost(virtualPath: string, physicalPath: string, serverRec: nat, create: Answer, configure: Answer)
      returns (newHostKey: int)
      requires Valid() && served == []
      requires (create.Goes? || create.Throws? || create.Nothing?) && (configure.Goes? || configure.Throws?)
      modifies this
      ensures Valid() && served == [] && Start(View())
      ensures hostURI == old(hostURI) + [virtualPath]
      ensures hostDir == old(hostDir) + [Paths.Back(physicalPath)]
      ensures hostSvr == old(hostSvr) + [serverRec]
      ensures newHostKey == if create.Goes? && configure.Goes? then |old(hostObj)| else -1
      ensures hostObj == old(hostObj) + [if newHostKey >= 0 then Some(|old(domains)|) else None]
      ensures domains == old(domains) + Connected(|old(hostObj)|, virtualPath, Paths.Back(physicalPath), create.Goes?, newHostKey >= 0)
    {
      ghost var before := View();
      var dir := Paths.Back(physicalPath);
      newHostKey := |hostObj|;
      hostSvr := hostSvr + [serverRec];
      hostURI := hostURI + [virtualPath];
      hostDir := hostDir + [dir];
      hostObj := hostObj + [None];
      ghost var listed := View();
      ListedKeepsInv(before, virtualPath, dir, serverRec);
      var key := newHostKey;
      var ok := ConnectHost(key, create, configure);
      MountKeepsInv(listed, View(), key, ok, create.Goes?);
      if !ok {
        newHostKey := -1;
      }
    }

    /** HostFinalized: empties the slot exactly if it still holds the finalised host. */
    method HostFinalized(key: nat, thisHost: HostId)
      requires Valid() && key < |hostObj|
      modifies this`hostObj, this`holds
      ensures Valid()
      ensures hostObj == if old(hostObj)[key] == Some(thisHost) then old(hostObj)[key := None] else old(hostObj)
    {
      ghost var before := View();
      holds := holds + 1;
      if hostObj[key] == Some(thisHost) {
        hostObj := hostObj[key := None];
        EmptiedKeepsInv(before, key);
      }
      holds := holds - 1;
    }

    /** A configured host is finalised: HostFinalized for its own key, as the steps of a finaliser of the protocol.
        Afterwards the host is in no slot. */
    method FinalizeHost(h: HostId) returns (ghost run: seq<Event>, ghost states: seq<State>)
      requires Valid() && h < |domains| && domains[h].config.Some?
      modifies this`hostObj, this`holds, this`served
      ensures Valid()
      ensures IsRun(run, states) && states[0] == old(View()) && states[|run|] == View()
      ensures |served| == |old(served)| + 1 && served[..|old(served)|] == old(served)
      ensures var t := served[|old(served)|]; t.finalizer && t.obj == Some(h) && t.pc == Done(0)
      ensures Some(h) !in hostObj && |hostObj| == |old(hostObj)|
      ensures forall k :: 0 <= k < |hostObj| && old(hostObj)[k] != Some(h) ==> hostObj[k] == old(hostObj)[k]
    {
      ghost var t, slot;
      run, states, slot, t := FinalizerRun(View(), h);
      assert HostOk(View(), h);
      HostFinalized(domains[h].config.value.key, h);
      served := served + [t];
    }

    /** HandleHostRequest, as written: after an unloaded host it clears the slot but calls the stale host
        again; it connects only when it read the slot empty.  `dispatches` and `connects` count its calls. */
    method ServeRequest(key: nat, env: Env) returns (status: int, dispatches: nat, connects: nat)
      requires key < |hostObj| == |hostURI| == |hostDir| && holds == 0
      requires Answers(env)
      modifies this`hostObj, this`domains, this`holds
      ensures holds == 0 && |hostObj| == |old(hostObj)| && hostObj == old(hostObj)[key := hostObj[key]]
      ensures Handled(key, env, hostURI[key], hostDir[key], old(hostObj[key]), old(domains),
                      hostObj[key], domains, status, dispatches, connects)
    {
      status, dispatches, connects := SERVER_ERROR, 0, 0;
      var obj := hostObj[key];
      assert hostObj[key := obj] == hostObj;
      if obj.Some? {
        dispatches := 1;
        match env.first {
          case Replies(code) =>
            status := code;
            return;
          case Unloaded =>
          case _ =>
            return;
        }
      }

      if env.enterThrows {
        return;
      }
      holds := holds + 1;
      if env.loadThrows {
        holds := holds - 1;
        return;
      }
      var tryobj := hostObj[key];
      if tryobj == obj {
        hostObj := hostObj[key := None];
        obj := tryobj;
      }
      if obj == None {
        connects := 1;
        var ok := ConnectHost(key, env.create, env.configure);
        if !ok {
          holds := holds - 1;
          return;
        }
        obj := hostObj[key];
        if obj == None {
          assert false;
        }
      }
      holds := holds - 1;
      dispatches := dispatches + 1;
      if env.second.Replies? {
        status := env.second.code;
      }
    }

    /** The request together with what it did as steps of the protocol: `run`. */
    method HandleHostRequest(key: nat, env: Env) returns (status: int, ghost run: seq<Event>, ghost states: seq<State>)
      requires Valid() && key < |hostObj|
      requires Answers(env)
      requires (env.first.Replies? || env.second.Replies?) && hostObj[key].Some? ==> Alive(domains, hostObj[key])
      modifies this`hostObj, this`domains, this`holds, this`served
      ensures Valid()
      ensures IsRun(run, states) && states[0] == old(View()) && states[|run|] == View()
      ensures |served| == |old(served)| + 1 && served[..|old(served)|] == old(served)
      ensures served[|old(served)|].pc == Done(status)
      ensures hostObj == old(hostObj)[key := hostObj[key]]
      ensures Handled(key, env, hostURI[key], hostDir[key], old(hostObj[key]), old(domains),
                      hostObj[key], domains, status, served[|old(served)|].dispatches, served[|old(served)|].connects)
    {
      ghost var t, cur, hosts;
      run, states, t, cur, hosts := RequestRun(View(), key, env);
      var dispatches, connects;
      status, dispatches, connects := ServeRequest(key, env);
      served := served + [t];
    }
  }

  /** A finaliser on an otherwise idle factory, as a run of the protocol that keeps its invariant. */
  lemma FinalizerRun(s: State, h: HostId) returns (run: seq<Event>, states: seq<State>, slot: seq<Option<HostId>>, t: Thread)
    requires Inv(s) && s.owner == None && h < |s.hosts| && s.hosts[h].config.Some?
    ensures s.hosts[h].config.value.key < |s.slot|
    ensures var key := s.hosts[h].config.value.key;
            slot == if s.slot[key] == Some(h) then s.slot[key := None] else s.slot
    ensures IsRun(run, states) && states[0] == s && states[|run|] == s.(slot := slot, threads := s.threads + [t])
    ensures t.finalizer && t.obj == Some(h) && t.pc == Done(0)
    ensures Inv(states[|run|]) && Some(h) !in slot
  {
    assert HostOk(s, h);
    var key := s.hosts[h].config.value.key;
    var base, l;
    run, states, base, l := Collected(s, h);
    run, states, l := Finalize(run, states, base, |s.threads|, l);
    t, slot := l.t, s.slot[key := l.cur];
    assert base.threads[|s.threads| := t] == s.threads + [t];
    EveryStateKeepsInv(run, states, |run|);
    assert Some(h) !in slot by {
      forall k | 0 <= k < |slot| ensures slot[k] != Some(h) { assert SlotOk(s, k); }
    }
  }

  /** What one request, running alone, did to the slot of its key and to the hosts, what it returned, and how often
      it called out: `obj` and `hosts` are what it found, `cur` and `hosts'` what it left. */
  ghost predicate Handled(key: nat, env: Env, uri: string, dir: string, obj: Option<HostId>, hosts: seq<Host>,
                          cur: Option<HostId>, hosts': seq<Host>, status: int, dispatches: nat, connects: nat)
  {
    var again := if env.second.Replies? then env.second.code else SERVER_ERROR;
    if obj.Some? && !env.first.Unloaded? then
      && cur == obj && hosts' == hosts && dispatches == 1 && connects == 0
      && status == (if env.first.Replies? then env.first.code else SERVER_ERROR)
    else if env.enterThrows || env.loadThrows then
      && cur == obj && hosts' == hosts && dispatches == (if obj.Some? then 1 else 0) && connects == 0
      && status == SERVER_ERROR
    else if obj.Some? then
      && cur == None && hosts' == hosts && dispatches == 2 && connects == 0
      && status == again
    else
      var ok := env.create.Goes? && env.configure.Goes?;
      && cur == (if ok then Some(|hosts|) else None)
      && hosts' == hosts + Connected(key, uri, dir, env.create.Goes?, ok)
      && connects == 1 && dispatches == (if ok then 1 else 0)
      && status == (if ok then again else SERVER_ERROR)
  }

  /** The protocol steps of ConnectHost, from Create to its return. */
  lemma ConnectSteps(run: seq<Event>, states: seq<State>, base: State, i: ThreadId, l: Local, env: Env)
    returns (run': seq<Event>, states': seq<State>, l': Local)
    requires At(run, states, base, i, l) && l.t.pc == Create
    requires Answers(env)
    ensures At(run', states', base, i, l') && states'[0] == states[0]
    ensures var ok := env.create.Goes? && env.configure.Goes?;
            && l'.t.pc == (if ok then Query else ConnectFailed)
            && l'.t == l.t.(pc := l'.t.pc, connects := l.t.connects + 1, newHost := l'.t.newHost)
            && l'.cur == (if ok then Some(|l.hosts|) else None)
            && l'.hosts == l.hosts + Connected(l.t.key, base.uri[l.t.key], base.dir[l.t.key], env.create.Goes?, ok)
            && l'.owner == l.owner && l'.holds == l.holds
  {
    if env.create.Throws? {
      run', states', l' := FailToCreate(run, states, base, i, l);
    } else {
      run', states', l' := CreateAndPublish(run, states, base, i, l, env.create);
      if env.create.Goes? && env.configure.Goes? {
        run', states', l' := ConfigureNew(run', states', base, i, l');
      } else {
        run', states', l' := FailToConfigure(run', states', base, i, l');
      }
    }
  }

  /** Inside the lock: a request that read its slot empty connects, leaves and calls the new host. */
  lemma ConnectAndCall(run: seq<Event>, states: seq<State>, base: State, i: ThreadId, l: Local, env: Env)
    returns (run': seq<Event>, states': seq<State>, l': Local)
    requires At(run, states, base, i, l) && l.t.pc == Create && l.owner == Some(i) && l.holds == 1 && Answers(env)
    ensures At(run', states', base, i, l') && states'[0] == states[0]
    ensures l'.owner == None && l'.holds == 0 && l'.t.key == l.t.key
    ensures var ok := env.create.Goes? && env.configure.Goes?;
            && l'.cur == (if ok then Some(|l.hosts|) else None)
            && l'.hosts == l.hosts + Connected(l.t.key, base.uri[l.t.key], base.dir[l.t.key], env.create.Goes?, ok)
            && l'.t.connects == l.t.connects + 1
            && l'.t.dispatches == (if ok then l.t.dispatches + 1 else l.t.dispatches)
            && l'.t.pc == Done(if ok && env.second.Replies? then env.second.code else SERVER_ERROR)
  {
    run', states', l' := ConnectSteps(run, states, base, i, l, env);
    if env.create.Goes? && env.configure.Goes? {
      run', states', l' := QuerySlot(run', states', base, i, l');
      run', states', l' := LeaveAndRetry(run', states', base, i, l', env.second);
    } else {
      run', states', l' := LeaveFailed(run', states', base, i, l');
    }
  }

  /** From Monitor::Enter on, with nothing thrown at the lock. */
  lemma LockedSteps(run: seq<Event>, states: seq<State>, base: State, i: ThreadId, l: Local, env: Env)
    returns (run': seq<Event>, states': seq<State>, l': Local)
    requires At(run, states, base, i, l) && l.t.pc == Enter && l.owner == None && l.holds == 0
    requires l.t.obj == l.cur && !env.enterThrows && !env.loadThrows && Answers(env)
    requires l.t.obj.Some? && env.second.Replies? ==> Alive(l.hosts, l.t.obj)
    ensures At(run', states', base, i, l') && states'[0] == states[0]
    ensures l'.owner == None && l'.holds == 0 && l'.t.key == l.t.key
    ensures var ok := l.t.obj.None? && env.create.Goes? && env.configure.Goes?;
            && l'.cur == (if ok then Some(|l.hosts|) else None)
            && l'.hosts == (if l.t.obj.Some? then l.hosts
                            else l.hosts + Connected(l.t.key, base.uri[l.t.key], base.dir[l.t.key], env.create.Goes?, ok))
            && l'.t.connects == (if l.t.obj.Some? then l.t.connects else l.t.connects + 1)
            && l'.t.dispatches == (if l.t.obj.Some? || ok then l.t.dispatches + 1 else l.t.dispatches)
            && l'.t.pc == Done(if (l.t.obj.Some? || ok) && env.second.Replies? then env.second.code else SERVER_ERROR)
  {
    run', states', l' := EnterAndLoad(run, states, base, i, l, true);
    run', states', l' := CompareAndBranch(run', states', base, i, l');
    if l.t.obj.None? {
      run', states', l' := ConnectAndCall(run', states', base, i, l', env);
    } else {
      run', states', l' := LeaveAndRetry(run', states', base, i, l', env.second);
    }
  }

  /** The whole request, running alone. */
  lemma RequestSteps(run: seq<Event>, states: seq<State>, base: State, i: ThreadId, l: Local, env: Env)
    returns (run': seq<Event>, states': seq<State>, l': Local)
    requires At(run, states, base, i, l) && l.t == Thread(false, Read, l.t.key, None, None, None, 0, 0)
    requires l.owner == None && l.holds == 0 && Answers(env)
    requires (env.first.Replies? || env.second.Replies?) && l.cur.Some? ==> Alive(l.hosts, l.cur)
    ensures At(run', states', base, i, l') && states'[0] == states[0]
    ensures l'.owner == None && l'.holds == 0 && l'.t.key == l.t.key
    ensures l'.t.pc.Done?
    ensures Handled(l.t.key, env, base.uri[l.t.key], base.dir[l.t.key], l.cur, l.hosts, l'.cur, l'.hosts,
                    l'.t.pc.status, l'.t.dispatches, l'.t.connects)
  {
    run', states', l' := ReadSlot(run, states, base, i, l);
    if l.cur.Some? {
      run', states', l' := CallHost(run', states', base, i, l', env.first);
    }
    if l'.t.pc == Enter {
      if env.enterThrows {
        run', states', l' := FailToEnter(run', states', base, i, l');
      } else if env.loadThrows {
        run', states', l' := EnterAndLoad(run', states', base, i, l', false);
        run', states', l' := LeaveFailed(run', states', base, i, l');
      } else {
        run', states', l' := LockedSteps(run', states', base, i, l', env);
      }
    }
  }

  /** A request on an otherwise idle factory, as a run of the protocol that keeps its invariant. */
  lemma RequestRun(s: State, key: nat, env: Env) returns (run: seq<Event>, states: seq<State>, t: Thread, cur: Option<HostId>, hosts: seq<Host>)
    requires Inv(s) && s.owner == None && key < |s.slot| && Answers(env)
    requires (env.first.Replies? || env.second.Replies?) && s.slot[key].Some? ==> Alive(s.hosts, s.slot[key])
    ensures IsRun(run, states) && states[0] == s
    ensures states[|run|] == s.(slot := s.slot[key := cur], hosts := hosts, threads := s.threads + [t])
    ensures Inv(states[|run|])
    ensures t.pc.Done?
    ensures Handled(key, env, s.uri[key], s.dir[key], s.slot[key], s.hosts, cur, hosts,
                    t.pc.status, t.dispatches, t.connects)
  {
    var base, l;
    run, states, base, l := Arrival([], [s], key);
    run, states, l := RequestSteps(run, states, base, |s.threads|, l, env);
    t, cur, hosts := l.t, l.cur, l.hosts;
    assert base.threads[|s.threads| := t] == s.threads + [t];
    EveryStateKeepsInv(run, states, |run|);
  }

  /** Recovery takes two requests: the first one that finds the host of its key unloaded empties the slot, as
      `between` shows, and fails with the stale host; the next one connects once, and its host stays in the slot. */
  method RecoverWithinTwoRequests(f: HostFactory, key: nat, env1: Env, env2: Env)
    returns (status1: int, status2: int, between: seq<Option<HostId>>)
    requires f.Valid() && key < |f.hostObj| && Answers(env1) && Answers(env2)
    requires f.hostObj[key].Some? && !Alive(f.domains, f.hostObj[key])
    requires env1.first.Unloaded? && !env1.second.Replies? && !env1.enterThrows && !env1.loadThrows
    requires env2.create.Goes? && env2.configure.Goes? && !env2.enterThrows && !env2.loadThrows
    modifies f
    ensures f.Valid() && |f.served| == |old(f.served)| + 2
    ensures status1 == 500 && between == old(f.hostObj)[key := None]
    ensures status2 == if env2.second.Replies? then env2.second.code else SERVER_ERROR
    ensures var t1, t2 := f.served[|old(f.served)|], f.served[|old(f.served)| + 1];
            t1.dispatches == 2 && t1.connects == 0 && t2.dispatches == 1 && t2.connects == 1
    ensures f.hostObj == old(f.hostObj)[key := Some(|old(f.domains)|)]
    ensures f.domains == old(f.domains) + Connected(key, f.hostURI[key], f.hostDir[key], true, true)
    ensures f.hostURI == old(f.hostURI) && f.hostDir == old(f.hostDir)
    ensures Alive(f.domains, f.hostObj[key])
  {
    ghost var run, states;
    status1, run, states := f.HandleHostRequest(key, env1);
    between := f.hostObj;
    ghost var served1 := f.served;
    status2, run, states := f.HandleHostRequest(key, env2);
    assert f.served[|served1| - 1] == served1[|served1| - 1];
  }

  /** Adding a mount with an empty slot keeps the invariant. */
  lemma ListedKeepsInv(s: State, uri: string, dir: string, svr: nat)
    requires Inv(s) && s.threads == [] && s.owner == None
    ensures Inv(s.(uri := s.uri + [uri], dir := s.dir + [dir], svr := s.svr + [svr], slot := s.slot + [None]))
  {
    var s' := s.(uri := s.uri + [uri], dir := s.dir + [dir], svr := s.svr + [svr], slot := s.slot + [None]);
    forall h | 0 <= h < |s'.hosts| ensures HostOk(s', h) { assert HostOk(s, h); }
    forall k | 0 <= k < |s'.slot| ensures SlotOk(s', k) { if k < |s.slot| { assert SlotOk(s, k); } }
  }

  /** Emptying a slot while nobody holds the monitor keeps it. */
  lemma EmptiedKeepsInv(s: State, key: nat)
    requires Inv(s) && s.owner == None && key < |s.slot|
    ensures Inv(s.(slot := s.slot[key := None]))
  {
    var s' := s.(slot := s.slot[key := None]);
    forall h | 0 <= h < |s'.hosts| ensures HostOk(s', h) { assert HostOk(s, h); }
    forall k | 0 <= k < |s'.slot| ensures SlotOk(s', k) { assert SlotOk(s, k); }
    forall i | 0 <= i < |s'.threads| ensures ThreadOk(s', i) { assert ThreadOk(s, i); }
  }

  /** Connecting, alone, the host of an empty slot keeps it too. */
  lemma MountKeepsInv(s: State, s': State, key: nat, ok: bool, created: bool)
    requires Inv(s) && s.threads == [] && s.owner == None && key < |s.slot| && s.slot[key] == None
    requires ok ==> created
    requires s'.uri == s.uri && s'.dir == s.dir && s'.svr == s.svr && s'.threads == [] && s'.owner == None && s'.holds == 0
    requires s'.slot == s.slot[key := if ok then Some(|s.hosts|) else None]
    requires s'.hosts == s.hosts + Connected(key, s.uri[key], s.dir[key], created, ok)
    ensures Inv(s')
  {
    forall h | 0 <= h < |s'.hosts| ensures HostOk(s', h) { if h < |s.hosts| { assert HostOk(s, h); } }
    forall k | 0 <= k < |s'.slot| ensures SlotOk(s', k) { assert SlotOk(s, k); }
  }
}

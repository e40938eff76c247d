/** The host-restart protocol of `HostFactory` as interleaved steps of request threads and finaliser
    threads over the shared lists and the factory's monitor.  Every read or write of a `hostObj` slot is a
    step of its own, so the unlocked first read of a request can be overtaken by anything. */
module HostProtocol {
  import opened HttpStatus
  import opened Text
  import Paths

  type HostId = nat
  type ThreadId = nat

  /** What `Configure` stored in a host. */
  datatype Config = Config(key: nat, mount: Paths.Mount)

  /** An application host: the key, URI and directory it was created for, its configuration once
      `Configure` has run, and whether its application domain is still loaded. */
  datatype Host = Host(createdFor: nat, uri: string, dir: string, config: Option<Config>, alive: bool)

  /** Where a thread stands; `Request` threads run HandleHostRequest, `Finalizer` threads run HostFinalized. */
  datatype Pc =
    | Read          // obj = hostObj[HostKey], without the lock
    | Dispatch      // first call of the host
    | Enter         // Monitor::Enter
    | Load          // tryobj = hostObj[HostKey]
    | Compare       // tryobj == obj ?  hostObj[HostKey] = nullptr
    | Branch        // obj == nullptr ?
    | Create        // ConnectHost: CreateApplicationHost
    | Publish       // ConnectHost: hostObj[HostKey] = newHost
    | Configure     // ConnectHost: newHost tested and configured
    | Recover       // ConnectHost: catch, hostObj[HostKey] = nullptr
    | ConnectFailed // ConnectHost returned false: Monitor::Exit, 500
    | Query         // obj = hostObj[HostKey]; obj null ?
    | QueryFailed   // Monitor::Exit, 500
    | Leave         // Monitor::Exit
    | CatchLocked   // outer catch with welocked: Monitor::Exit, 500
    | Retry         // second call of the host
    | FinalEnter | FinalTest | FinalClear | FinalExit
    | Done(status: int)

  datatype Thread = Thread(
    finalizer: bool, pc: Pc, key: nat,
    obj: Option<HostId>, tryobj: Option<HostId>, newHost: Option<HostId>,
    dispatches: nat, connects: nat)

  datatype State = State(
    uri: seq<string>, dir: seq<string>, svr: seq<nat>, slot: seq<Option<HostId>>,
    hosts: seq<Host>, threads: seq<Thread>, owner: Option<ThreadId>, holds: nat)

  /** What the environment answers in a step that calls out, or that an exception may interrupt. */
  datatype Answer =
    | Goes               // the step goes through
    | Replies(code: int) // a dispatch returns a status
    | Unloaded           // a dispatch throws RemotingException or AppDomainUnloadedException
    | Throws             // any other exception
    | Nothing            // CreateApplicationHost returns null

  datatype Event =
    | Arrive(key: nat)               // a request for a mounted key
    | Unload(host: HostId)           // a host's application domain goes away
    | Collect(host: HostId)          // a host's finaliser starts
    | Step(thread: ThreadId, answer: Answer)

  predicate InCritical(pc: Pc) {
    pc.Load? || pc.Compare? || pc.Branch? || Connecting(pc) || pc.ConnectFailed? || pc.Query? || pc.QueryFailed? ||
    pc.Leave? || pc.CatchLocked? || pc.FinalTest? || pc.FinalClear? || pc.FinalExit?
  }

  predicate Connecting(pc: Pc) {
    pc.Create? || pc.Publish? || pc.Configure? || pc.Recover?
  }

  predicate Finalizing(pc: Pc) {
    pc.FinalEnter? || pc.FinalTest? || pc.FinalClear? || pc.FinalExit?
  }

  /** Which answers a step can get: `live` says whether the host about to be called is still loaded,
      `free` whether the monitor can be taken. */
  predicate Permits(pc: Pc, live: bool, free: bool, a: Answer) {
    match pc
    case Dispatch => !a.Goes? && !a.Nothing? && (a.Replies? ==> live)
    case Retry => !a.Goes? && !a.Nothing? && (a.Replies? ==> live)
    case Create => a.Goes? || a.Throws? || a.Nothing?
    case Enter => (a.Goes? && free) || a.Throws?
    case FinalEnter => a.Goes? && free
    case Load => a.Goes? || a.Throws?
    case Configure => a.Goes? || a.Throws?
    case Done(_) => false
    case _ => a.Goes?
  }

  predicate Allows(s: State, i: ThreadId, t: Thread, a: Answer) {
    Permits(t.pc, Alive(s.hosts, t.obj), Available(s.owner, i), a)
  }

  /** The monitor is free, or already held by this thread. */
  predicate Available(owner: Option<ThreadId>, i: ThreadId) {
    owner == None || owner == Some(i)
  }

  predicate Alive(hosts: seq<Host>, h: Option<HostId>) {
    h.Some? && h.value < |hosts| && hosts[h.value].alive
  }

  /** The four lists run in parallel. */
  predicate Parallel(s: State) {
    |s.uri| == |s.dir| == |s.svr| == |s.slot|
  }

  predicate InRange(s: State, i: ThreadId) {
    i < |s.threads| && s.threads[i].key < |s.slot| &&
    (s.threads[i].newHost.Some? ==> s.threads[i].newHost.value < |s.hosts|)
  }

  predicate Enabled(s: State, e: Event) {
    Parallel(s) &&
    match e
    case Arrive(key) => key < |s.slot|
    case Unload(h) => h < |s.hosts|
      // an unconfigured host has no factory to call: its finaliser faults and is ignored
    case Collect(h) => h < |s.hosts| && s.hosts[h].config.Some?
    case Step(i, a) => InRange(s, i) && Allows(s, i, s.threads[i], a)
  }

  function Next(s: State, e: Event): State
    requires Enabled(s, e)
  {
    match e
    case Arrive(key) =>
      s.(threads := s.threads + [Thread(false, Read, key, None, None, None, 0, 0)])
    case Unload(h) => s.(hosts := s.hosts[h := s.hosts[h].(alive := false)])
    case Collect(h) =>
      s.(threads := s.threads + [Thread(true, FinalEnter, s.hosts[h].config.value.key, Some(h), None, None, 0, 0)])
    case Step(i, a) => Apply(s, i, EffectOf(s, i, a))
  }

  // ----- thread steps -----

  datatype HostChange = Same | AddHost(host: Host) | SetConfig(id: HostId, config: Config)
  datatype LockChange = Keep | Acquire | Release

  /** What one step of a thread does: its new locals, a write to the slot of its key, a change to the
      hosts and a monitor operation. */
  datatype Effect = Effect(thread: Thread, write: Option<Option<HostId>>, host: HostChange, lock: LockChange)

  function HostsAfter(c: HostChange, hosts: seq<Host>): seq<Host> {
    match c
    case Same => hosts
    case AddHost(host) => hosts + [host]
    case SetConfig(h, config) => if h < |hosts| then hosts[h := hosts[h].(config := Some(config))] else hosts
  }

  function OwnerAfter(c: LockChange, owner: Option<ThreadId>, holds: nat, i: ThreadId): Option<ThreadId> {
    match c
    case Keep => owner
    case Acquire => Some(i)
    case Release => if holds <= 1 then None else owner
  }

  function HoldsAfter(c: LockChange, holds: nat): nat {
    match c
    case Keep => holds
    case Acquire => holds + 1
    case Release => if holds <= 1 then 0 else holds - 1
  }

  function Apply(s: State, i: ThreadId, e: Effect): State
    requires InRange(s, i)
  {
    State(s.uri, s.dir, s.svr,
          if e.write.Some? then s.slot[s.threads[i].key := e.write.value] else s.slot,
          HostsAfter(e.host, s.hosts),
          s.threads[i := e.thread],
          OwnerAfter(e.lock, s.owner, s.holds, i),
          HoldsAfter(e.lock, s.holds))
  }

  function Move(t: Thread): Effect {
    Effect(t, None, Same, Keep)
  }

  function Write(t: Thread, h: Option<HostId>): Effect {
    Effect(t, Some(h), Same, Keep)
  }

  function EffectOf(s: State, i: ThreadId, a: Answer): Effect
    requires Parallel(s) && InRange(s, i)
  {
    var t := s.threads[i];
    ThreadEffect(t, a, s.slot[t.key], s.uri[t.key], s.dir[t.key], |s.hosts|)
  }

  function ThreadEffect(t: Thread, a: Answer, cur: Option<HostId>, uri: string, dir: string, nextId: HostId): (e: Effect)
    ensures e.thread.key == t.key && e.thread.finalizer == t.finalizer
    ensures e.thread.newHost.Some? ==>
              e.thread.newHost == t.newHost || (e.host.AddHost? && e.thread.newHost == Some(nextId))
  {
    if Finalizing(t.pc) then FinalizerStep(t, cur)
    else if Connecting(t.pc) then ConnectStep(t, a, uri, dir, nextId)
    else RequestStep(t, a, cur)
  }

  /** HostFinalized; `cur` is the slot of the thread's key. */
  function FinalizerStep(t: Thread, cur: Option<HostId>): Effect {
    match t.pc
    case FinalEnter => Effect(t.(pc := FinalTest), None, Same, Acquire)
    case FinalTest => Move(t.(pc := if cur == t.obj then FinalClear else FinalExit))
    case FinalClear => Write(t.(pc := FinalExit), None)
    case _ => Effect(t.(pc := Done(0)), None, Same, Release)
  }

  /** ConnectHost, run by a request thread that holds the lock; `nextId` is the identity a new host gets. */
  function ConnectStep(t: Thread, a: Answer, uri: string, dir: string, nextId: HostId): Effect {
    match t.pc
    case Create =>
      var t' := t.(connects := t.connects + 1);
      if a.Throws? then Move(t'.(newHost := None, pc := Recover))
      else if a.Nothing? then Move(t'.(newHost := None, pc := Publish))
      else
        Effect(t'.(newHost := Some(nextId), pc := Publish), None, AddHost(Host(t.key, uri, dir, None, true)), Keep)
    case Publish => Write(t.(pc := Configure), t.newHost)
    case Configure =>
      if t.newHost.None? then Move(t.(pc := ConnectFailed))
      else if a.Throws? then Move(t.(pc := Recover))
      else
        Effect(t.(pc := Query), None,
               SetConfig(t.newHost.value, Config(t.key, Paths.Configured(uri, dir))), Keep)
    case _ => // Recover
      Write(t.(pc := ConnectFailed), None)
  }

  /** HandleHostRequest outside ConnectHost; `cur` is the slot of the thread's key. */
  function RequestStep(t: Thread, a: Answer, cur: Option<HostId>): Effect {
    match t.pc
    case Read => Move(t.(obj := cur, pc := if cur.Some? then Dispatch else Enter))
    case Dispatch =>
      Move(t.(dispatches := t.dispatches + 1,
              pc := if a.Replies? then Done(a.code) else if a.Unloaded? then Enter else Done(SERVER_ERROR)))
    case Enter =>
      if a.Throws? then Move(t.(pc := Done(SERVER_ERROR)))
      else Effect(t.(pc := Load), None, Same, Acquire)
    case Load =>
      if a.Throws? then Move(t.(pc := CatchLocked))
      else Move(t.(tryobj := cur, pc := Compare))
    case Compare =>
      // obj = tryobj changes nothing: the two are equal
      if t.tryobj == t.obj then Write(t.(pc := Branch), None) else Move(t.(pc := Branch))
    case Branch => Move(t.(pc := if t.obj.None? then Create else Leave))
    case Query => Move(t.(obj := cur, pc := if cur.None? then QueryFailed else Leave))
    case Leave => Effect(t.(pc := Retry), None, Same, Release)
    case Retry =>
      Move(t.(dispatches := t.dispatches + 1, pc := Done(if a.Replies? then a.code else SERVER_ERROR)))
    case _ => // ConnectFailed, QueryFailed, CatchLocked
      Effect(t.(pc := Done(SERVER_ERROR)), None, Same, Release)
  }

  // ----- the invariant -----

  predicate HostOk(s: State, h: HostId)
    requires Parallel(s) && h < |s.hosts|
  {
    var host := s.hosts[h];
    && host.createdFor < |s.slot|
    && host.uri == s.uri[host.createdFor]
    && host.dir == s.dir[host.createdFor]
    && (host.config.Some? ==> host.config.value == Config(host.createdFor, Paths.Configured(host.uri, host.dir)))
  }

  predicate HostFor(hosts: seq<Host>, h: Option<HostId>, k: nat) {
    h.Some? ==> h.value < |hosts| && hosts[h.value].createdFor == k
  }

  predicate IsConfigured(hosts: seq<Host>, h: Option<HostId>) {
    h.Some? && h.value < |hosts| && hosts[h.value].config.Some?
  }

  predicate OwnerAt(s: State, pc: Pc, newHost: Option<HostId>) {
    s.owner.Some? && s.owner.value < |s.threads| &&
    s.threads[s.owner.value].pc == pc && s.threads[s.owner.value].newHost == newHost
  }

  /** A mounted slot holds a host created for its key; it is configured, except while the connecting
      thread that just stored it has yet to configure it, or is about to take it out again. */
  predicate SlotOk(s: State, k: nat)
    requires k < |s.slot|
  {
    && HostFor(s.hosts, s.slot[k], k)
    && (s.slot[k].Some? ==>
          && (IsConfigured(s.hosts, s.slot[k]) || OwnerAt(s, Configure, s.slot[k]) || OwnerAt(s, Recover, s.slot[k]))
          && !OwnerAt(s, Publish, s.slot[k]))
  }

  /** What a thread may rely on about the shared state at each point. */
  predicate SeesOk(hosts: seq<Host>, cur: Option<HostId>, t: Thread) {
    match t.pc
    case Compare => t.tryobj == cur
    case Branch => cur == if t.tryobj == t.obj then None else t.tryobj
    case Create => cur == if t.tryobj == t.obj then None else t.tryobj
    case Publish =>
      && cur == (if t.tryobj == t.obj then None else t.tryobj)
      && (t.newHost.Some? ==> t.newHost.value + 1 == |hosts| && hosts[t.newHost.value].config == None)
    case Configure => cur == t.newHost && (cur.Some? ==> !IsConfigured(hosts, cur))
    case Recover =>
      if t.newHost.Some? then cur == t.newHost && !IsConfigured(hosts, cur)
      else cur == if t.tryobj == t.obj then None else t.tryobj
    case Query => cur == t.newHost && IsConfigured(hosts, cur)
    case FinalClear => cur == t.obj
    case _ => true
  }

  /** Past its first dispatch: the host it read was called, and threw, or there was none. */
  predicate CalledOnce(t: Thread) {
    t.dispatches == if t.obj.Some? then 1 else 0
  }

  predicate LocalsOk(t: Thread) {
    match t.pc
    case Read => t.dispatches == 0 && t.connects == 0
    case Query => t.obj == None && t.newHost.Some? && t.dispatches == 0 && t.connects == 1
    case Dispatch => t.obj.Some? && t.dispatches == 0 && t.connects == 0
    case Enter => CalledOnce(t) && t.connects == 0
    case Load => CalledOnce(t) && t.connects == 0
    case Compare => CalledOnce(t) && t.connects == 0
    case Branch => CalledOnce(t) && t.connects == 0
    case Create => t.obj == None && t.dispatches == 0 && t.connects == 0
    case Publish => t.obj == None && t.dispatches == 0 && t.connects == 1
    case Configure => t.obj == None && t.dispatches == 0 && t.connects == 1
    case Recover => t.obj == None && t.dispatches == 0 && t.connects == 1
    case Leave => t.obj.Some? && t.dispatches + t.connects <= 1
    case Retry => t.obj.Some? && t.dispatches + t.connects <= 1
    case QueryFailed => false
    case FinalEnter => t.obj.Some? && t.dispatches == 0 && t.connects == 0
    case FinalTest => t.obj.Some? && t.dispatches == 0 && t.connects == 0
    case FinalClear => t.obj.Some? && t.dispatches == 0 && t.connects == 0
    case FinalExit => t.dispatches == 0 && t.connects == 0
    case Done(_) => t.dispatches + t.connects <= 2 && t.connects <= 1
    case _ => t.dispatches + t.connects <= 1
  }

  predicate RoleOk(t: Thread) {
    if t.finalizer then Finalizing(t.pc) || t.pc.Done? else !Finalizing(t.pc)
  }

  predicate ThreadOk(s: State, i: ThreadId)
    requires i < |s.threads|
  {
    var t := s.threads[i];
    && t.key < |s.slot|
    && HostFor(s.hosts, t.obj, t.key) && HostFor(s.hosts, t.newHost, t.key)
    && RoleOk(t)
    && (InCritical(t.pc) <==> s.owner == Some(i))
    && SeesOk(s.hosts, s.slot[t.key], t)
    && LocalsOk(t)
  }

  predicate LockOk(s: State) {
    if s.owner.None? then s.holds == 0 else s.owner.value < |s.threads| && s.holds == 1
  }

  ghost predicate Inv(s: State) {
    && Parallel(s)
    && LockOk(s)
    && (forall h {:trigger s.hosts[h]} :: 0 <= h < |s.hosts| ==> HostOk(s, h))
    && (forall k {:trigger s.slot[k]} :: 0 <= k < |s.slot| ==> SlotOk(s, k))
    && (forall i {:trigger s.threads[i]} :: 0 <= i < |s.threads| ==> ThreadOk(s, i))
  }

  lemma UnloadKeepsInv(s: State, h: HostId)
    requires Inv(s) && h < |s.hosts|
    ensures Inv(s.(hosts := s.hosts[h := s.hosts[h].(alive := false)]))
  {
    var s' := s.(hosts := s.hosts[h := s.hosts[h].(alive := false)]);
    forall g | 0 <= g < |s'.hosts| ensures HostOk(s', g) { assert HostOk(s, g); }
    forall k | 0 <= k < |s'.slot| ensures SlotOk(s', k) { assert SlotOk(s, k); }
    forall i | 0 <= i < |s'.threads| ensures ThreadOk(s', i) { assert ThreadOk(s, i); }
  }

  lemma NewThreadKeepsInv(s: State, t: Thread)
    requires Inv(s) && t.key < |s.slot| && !InCritical(t.pc) && t.newHost == None
    requires HostFor(s.hosts, t.obj, t.key) && RoleOk(t) && LocalsOk(t)
    ensures Inv(s.(threads := s.threads + [t]))
  {
    var s' := s.(threads := s.threads + [t]);
    forall k | 0 <= k < |s'.slot| ensures SlotOk(s', k) { assert SlotOk(s, k); }
    forall i | 0 <= i < |s'.threads| ensures ThreadOk(s', i) {
      if i < |s.threads| { assert ThreadOk(s, i); }
    }
    forall h | 0 <= h < |s'.hosts| ensures HostOk(s', h) { assert HostOk(s, h); }
  }

  /** The local conditions under which an effect of thread i keeps the invariant. */
  predicate EffectOk(s: State, i: ThreadId, e: Effect)
    requires InRange(s, i)
  {
    var t, t', k := s.threads[i], e.thread, s.threads[i].key;
    var cur := if e.write.Some? then e.write.value else s.slot[k];
    && t'.key == t.key && t'.finalizer == t.finalizer
    && LocalsOk(t') && RoleOk(t')
    && (match e.lock
        case Keep => InCritical(t.pc) == InCritical(t'.pc)
        case Acquire => s.owner == None && InCritical(t'.pc)
        case Release => InCritical(t.pc) && !InCritical(t'.pc))
    && (e.write.Some? || !e.host.Same? ==> e.lock.Keep? && InCritical(t.pc))
    && HostFor(s.hosts, t'.obj, k)
    && (match e.host
        case Same =>
          && HostFor(s.hosts, t'.newHost, k)
          && SeesOk(s.hosts, cur, t')
          && (s.owner == Some(i) ==> HoldsOk(s.hosts, cur, t'))
          && (e.write.Some? ==> HostFor(s.hosts, e.write.value, k))
        case AddHost(host) =>
          && k < |s.uri| && k < |s.dir| && host == Host(k, s.uri[k], s.dir[k], None, true)
          && t'.newHost == Some(|s.hosts|) && t'.pc == Publish && e.write.None?
          && cur == (if t'.tryobj == t'.obj then None else t'.tryobj)
          && (cur.Some? ==> IsConfigured(s.hosts, cur))
        case SetConfig(h, config) =>
          && k < |s.uri| && k < |s.dir| && config == Config(k, Paths.Configured(s.uri[k], s.dir[k]))
          && h < |s.hosts| && s.hosts[h].createdFor == k
          && cur == Some(h) == t'.newHost && t'.pc == Query && e.write.None?)
  }

  /** What the owner of the lock at `t` leaves in the slot of its key. */
  predicate HoldsOk(hosts: seq<Host>, cur: Option<HostId>, t: Thread) {
    cur.Some? ==>
      && (IsConfigured(hosts, cur) || ((t.pc.Configure? || t.pc.Recover?) && t.newHost == cur))
      && !(t.pc.Publish? && t.newHost == cur)
  }

  /** The part of the invariant a step of thread i relies on. */
  predicate Here(s: State, i: ThreadId) {
    Parallel(s) && LockOk(s) && InRange(s, i) && ThreadOk(s, i) && SlotOk(s, s.threads[i].key)
  }

  lemma FinalizerEffectOk(s: State, i: ThreadId, a: Answer)
    requires Here(s, i) && Allows(s, i, s.threads[i], a) && Finalizing(s.threads[i].pc)
    ensures EffectOk(s, i, EffectOf(s, i, a))
  {
  }

  lemma ConnectEffectOk(s: State, i: ThreadId, a: Answer)
    requires Here(s, i) && Allows(s, i, s.threads[i], a) && Connecting(s.threads[i].pc)
    ensures EffectOk(s, i, EffectOf(s, i, a))
  {
  }

  lemma LockedRequestEffectOk(s: State, i: ThreadId, a: Answer)
    requires Here(s, i) && Allows(s, i, s.threads[i], a) && !Finalizing(s.threads[i].pc) && !Connecting(s.threads[i].pc)
    requires InCritical(s.threads[i].pc)
    ensures EffectOk(s, i, EffectOf(s, i, a))
  {
  }

  lemma CallingEffectOk(s: State, i: ThreadId, a: Answer)
    requires Here(s, i) && Allows(s, i, s.threads[i], a) && (s.threads[i].pc.Dispatch? || s.threads[i].pc.Retry?)
    ensures EffectOk(s, i, EffectOf(s, i, a))
  {
  }

  lemma WaitingEffectOk(s: State, i: ThreadId, a: Answer)
    requires Here(s, i) && Allows(s, i, s.threads[i], a) && (s.threads[i].pc.Read? || s.threads[i].pc.Enter?)
    ensures EffectOk(s, i, EffectOf(s, i, a))
  {
  }

  lemma StepEffectOk(s: State, i: ThreadId, a: Answer)
    requires Here(s, i) && Allows(s, i, s.threads[i], a)
    ensures EffectOk(s, i, EffectOf(s, i, a))
  {
    if Finalizing(s.threads[i].pc) {
      FinalizerEffectOk(s, i, a);
    } else if Connecting(s.threads[i].pc) {
      ConnectEffectOk(s, i, a);
    } else if InCritical(s.threads[i].pc) {
      LockedRequestEffectOk(s, i, a);
    } else if s.threads[i].pc.Dispatch? || s.threads[i].pc.Retry? {
      CallingEffectOk(s, i, a);
    } else {
      WaitingEffectOk(s, i, a);
    }
  }

  lemma ApplyHost(s: State, i: ThreadId, e: Effect, h: HostId)
    requires Inv(s) && InRange(s, i) && EffectOk(s, i, e) && h < |Apply(s, i, e).hosts|
    ensures HostOk(Apply(s, i, e), h)
  {
    if h < |s.hosts| { assert HostOk(s, h); }
  }

  lemma ApplyOwnSlot(s: State, i: ThreadId, e: Effect)
    requires Here(s, i) && EffectOk(s, i, e)
    ensures SlotOk(Apply(s, i, e), s.threads[i].key)
  {
  }

  lemma ApplyOtherSlot(s: State, i: ThreadId, e: Effect, k: nat)
    requires Here(s, i) && EffectOk(s, i, e) && k < |s.slot| && SlotOk(s, k) && k != s.threads[i].key
    ensures SlotOk(Apply(s, i, e), k)
  {
  }

  lemma ApplySlot(s: State, i: ThreadId, e: Effect, k: nat)
    requires Inv(s) && InRange(s, i) && EffectOk(s, i, e) && k < |s.slot|
    ensures SlotOk(Apply(s, i, e), k)
  {
    assert ThreadOk(s, i) && SlotOk(s, s.threads[i].key) && SlotOk(s, k);
    if k == s.threads[i].key { ApplyOwnSlot(s, i, e); } else { ApplyOtherSlot(s, i, e, k); }
  }

  lemma ApplySelf(s: State, i: ThreadId, e: Effect)
    requires Inv(s) && InRange(s, i) && EffectOk(s, i, e)
    ensures ThreadOk(Apply(s, i, e), i) && LockOk(Apply(s, i, e))
  {
    assert ThreadOk(s, i);
  }

  lemma ApplyOther(s: State, i: ThreadId, e: Effect, j: ThreadId)
    requires Inv(s) && InRange(s, i) && EffectOk(s, i, e) && j < |s.threads| && j != i
    ensures ThreadOk(Apply(s, i, e), j)
  {
    assert ThreadOk(s, i) && ThreadOk(s, j);
  }

  lemma ApplyKeepsInv(s: State, i: ThreadId, e: Effect)
    requires Inv(s) && InRange(s, i) && EffectOk(s, i, e)
    ensures Inv(Apply(s, i, e))
  {
    var s' := Apply(s, i, e);
    ApplySelf(s, i, e);
    forall h | 0 <= h < |s'.hosts| ensures HostOk(s', h) { ApplyHost(s, i, e, h); }
    forall k | 0 <= k < |s'.slot| ensures SlotOk(s', k) { ApplySlot(s, i, e, k); }
    forall j | 0 <= j < |s'.threads| ensures ThreadOk(s', j) {
      if j != i { ApplyOther(s, i, e, j); }
    }
  }

  /** Every event, in every state that satisfies the invariant, keeps it. */
  lemma NextKeepsInv(s: State, e: Event)
    requires Inv(s) && Enabled(s, e)
    ensures Inv(Next(s, e))
  {
    match e
    case Step(i, a) =>
      assert ThreadOk(s, i) && SlotOk(s, s.threads[i].key);
      StepEffectOk(s, i, a);
      ApplyKeepsInv(s, i, EffectOf(s, i, a));
    case Unload(h) => UnloadKeepsInv(s, h);
    case Arrive(key) => NewThreadKeepsInv(s, Thread(false, Read, key, None, None, None, 0, 0));
    case Collect(h) =>
      assert HostOk(s, h);
      NewThreadKeepsInv(s, Thread(true, FinalEnter, s.hosts[h].config.value.key, Some(h), None, None, 0, 0));
  }
}

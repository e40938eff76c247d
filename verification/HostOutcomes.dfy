/** What comes of the threads of the restart protocol in every run: a finaliser takes its host out for good, a host
    that is gone answers no call, and a request hands back exactly what a host replied, or 500. */
module HostOutcomes {
  import opened Text
  import opened HostProtocol
  import opened HostSafety

  // ----- finalisers -----

  /** Finaliser `t` of host `h`: the host has been stored, and is out of its slot once the slot has been tested. */
  ghost predicate FinalizerOk(s: State, t: ThreadId, h: HostId) {
    && t < |s.threads| && s.threads[t].finalizer && s.threads[t].obj == Some(h)
    && Stored(s, h)
    && (s.threads[t].pc.FinalExit? || s.threads[t].pc.Done? ==>
          s.threads[t].key < |s.slot| && s.slot[s.threads[t].key] != Some(h))
  }

  lemma CollectStarts(s: State, h: HostId)
    requires Inv(s) && Enabled(s, Collect(h))
    ensures FinalizerOk(Next(s, Collect(h)), |s.threads|, h)
  {
    if s.owner.Some? {
      assert ThreadOk(s, s.owner.value);
    }
  }

  /** The finaliser's own step leaves its slot without the host when it passes the test. */
  lemma FinalizerTests(t: Thread, cur: Option<HostId>)
    requires Finalizing(t.pc)
    ensures var e := FinalizerStep(t, cur);
            && e.thread.finalizer == t.finalizer && e.thread.obj == t.obj
            && (e.thread.pc.FinalExit? || e.thread.pc.Done? ==>
                  if e.write.Some? then e.write.value == None
                  else t.pc.FinalExit? || (t.pc.FinalTest? && cur != t.obj))
  {
  }

  lemma FinalizerStays(s: State, e: Event, t: ThreadId, h: HostId)
    requires Inv(s) && Enabled(s, e) && FinalizerOk(s, t, h)
    ensures FinalizerOk(Next(s, e), t, h)
  {
    assert ThreadOk(s, t);
    StoredStays(s, e, h);
    if e.Step? && e.thread == t {
      FinalizerTests(s.threads[t], s.slot[s.threads[t].key]);
    }
  }

  lemma {:induction false} FinalizerOf(run: seq<Event>, states: seq<State>, c: nat, i: nat, h: HostId)
    requires IsRunFromStart(run, states) && c < i <= |run| && run[c] == Collect(h)
    ensures FinalizerOk(states[i], |states[c].threads|, h)
    decreases i
  {
    var s, e := states[i - 1], run[i - 1];
    EveryStateKeepsInv(run, states, i - 1);
    assert Enabled(s, e) && states[i] == Next(s, e);
    if i - 1 == c {
      CollectStarts(s, h);
    } else {
      FinalizerOf(run, states, c, i - 1, h);
      FinalizerStays(s, e, |states[c].threads|, h);
    }
  }

  /** In every interleaving: when the finaliser that started at c has been through its test and store, its host is in
      no slot, and stays out of all of them for the rest of the run. */
  lemma FinalizedHostStaysOut(run: seq<Event>, states: seq<State>, c: nat, i: nat, m: nat, h: HostId)
    requires IsRunFromStart(run, states) && c < i <= m <= |run| && run[c] == Collect(h)
    requires |states[c].threads| < |states[i].threads|
    requires states[i].threads[|states[c].threads|].pc.FinalExit? || states[i].threads[|states[c].threads|].pc.Done?
    ensures Some(h) !in states[m].slot
  {
    var t := |states[c].threads|;
    FinalizerOf(run, states, c, i, h);
    EveryStateKeepsInv(run, states, i);
    assert ThreadOk(states[i], t);
    StaysOut(run, states, i, m, states[i].threads[t].key, h);
    OnlyOwnSlot(run, states, i, m, states[i].threads[t].key, h);
  }

  /** A host can be in no slot but that of the key it was created for. */
  lemma OnlyOwnSlot(run: seq<Event>, states: seq<State>, i: nat, m: nat, key: nat, h: HostId)
    requires IsRunFromStart(run, states) && i <= m <= |run|
    requires h < |states[i].hosts| && states[i].hosts[h].createdFor == key
    ensures forall k :: 0 <= k < |states[m].slot| && states[m].slot[k] == Some(h) ==> k == key
  {
    HostsKept(run, states, i, m, h);
    EveryStateKeepsInv(run, states, m);
    forall k | 0 <= k < |states[m].slot| && states[m].slot[k] == Some(h) ensures k == key {
      assert SlotOk(states[m], k);
    }
  }

  // ----- hosts that are gone -----

  lemma HostKept(s: State, e: Event, h: HostId)
    requires Enabled(s, e) && h < |s.hosts|
    ensures h < |Next(s, e).hosts| && Next(s, e).hosts[h].createdFor == s.hosts[h].createdFor
    ensures Next(s, e).hosts[h].alive <==> s.hosts[h].alive && e != Unload(h)
  {
  }

  lemma OneMoreEvent(run: seq<Event>, i: nat, j: nat, e: Event)
    requires i < j <= |run|
    ensures e in run[i..j] <==> e in run[i..j - 1] || e == run[j - 1]
  {
    assert run[i..j] == run[i..j - 1] + [run[j - 1]];
  }

  /** A host keeps its key, and is alive exactly as long as its application domain has not been unloaded. */
  lemma {:induction false} HostsKept(run: seq<Event>, states: seq<State>, i: nat, j: nat, h: HostId)
    requires IsRun(run, states) && i <= j <= |run| && h < |states[i].hosts|
    ensures h < |states[j].hosts| && states[j].hosts[h].createdFor == states[i].hosts[h].createdFor
    ensures states[j].hosts[h].alive <==> states[i].hosts[h].alive && Unload(h) !in run[i..j]
    decreases j
  {
    if i < j {
      HostsKept(run, states, i, j - 1, h);
      assert Enabled(states[j - 1], run[j - 1]);
      HostKept(states[j - 1], run[j - 1], h);
      OneMoreEvent(run, i, j, Unload(h));
    }
  }

  /** No call is answered by a host whose application domain was unloaded before. */
  lemma UnloadedHostNeverReplies(run: seq<Event>, states: seq<State>, c: nat, j: nat, t: ThreadId, code: int, h: HostId)
    requires IsRun(run, states) && c < j < |run| && run[c] == Unload(h) && run[j] == Step(t, Replies(code))
    ensures t < |states[j].threads| && states[j].threads[t].obj != Some(h)
  {
    assert Enabled(states[c], run[c]) && Enabled(states[j], run[j]);
    HostsKept(run, states, c, j, h);
    assert run[c..j][0] == Unload(h);
  }

  // ----- what a request hands back -----

  predicate IsReply(e: Event, t: ThreadId) {
    e.Step? && e.thread == t && e.answer.Replies?
  }

  /** The last reply a call of thread t has got in the first n events. */
  function ReplyTo(run: seq<Event>, n: nat, t: ThreadId): Option<int>
    requires n <= |run|
  {
    if n == 0 then None
    else if IsReply(run[n - 1], t) then Some(run[n - 1].answer.code)
    else ReplyTo(run, n - 1, t)
  }

  /** A reply is handed back; without one a finished request hands back 500. */
  predicate HandsBack(t: Thread, reply: Option<int>) {
    match reply
    case Some(code) => t.pc == Done(code)
    case None => !t.finalizer && t.pc.Done? ==> t.pc.status == 500
  }

  lemma RequestHandsBack(t: Thread, a: Answer, cur: Option<HostId>, live: bool, free: bool)
    requires !Finalizing(t.pc) && !Connecting(t.pc) && Permits(t.pc, live, free, a)
    ensures HandsBack(RequestStep(t, a, cur).thread, if a.Replies? then Some(a.code) else None)
  {
  }

  lemma OwnStepHandsBack(s: State, t: ThreadId, a: Answer)
    requires Enabled(s, Step(t, a)) && RoleOk(s.threads[t])
    ensures HandsBack(Next(s, Step(t, a)).threads[t], if a.Replies? then Some(a.code) else None)
  {
    var th := s.threads[t];
    if !Finalizing(th.pc) && !Connecting(th.pc) {
      RequestHandsBack(th, a, s.slot[th.key], Alive(s.hosts, th.obj), Available(s.owner, t));
    }
  }

  lemma StepHandsBack(s: State, e: Event, t: ThreadId, reply: Option<int>)
    requires Inv(s) && Enabled(s, e) && t < |s.threads| && HandsBack(s.threads[t], reply)
    ensures HandsBack(Next(s, e).threads[t], if IsReply(e, t) then Some(e.answer.code) else reply)
  {
    assert ThreadOk(s, t);
    if e.Step? && e.thread == t { OwnStepHandsBack(s, t, e.answer); }
  }

  /** In every run: what a finished request hands back is the reply a host gave it, as soon as one did, and 500
      without one. */
  lemma {:induction false} RequestStatus(run: seq<Event>, states: seq<State>, i: nat, t: ThreadId)
    requires IsRunFromStart(run, states) && i <= |run| && t < |states[i].threads|
    ensures HandsBack(states[i].threads[t], ReplyTo(run, i, t))
    decreases i
  {
    if i > 0 {
      var s, e := states[i - 1], run[i - 1];
      EveryStateKeepsInv(run, states, i - 1);
      assert Enabled(s, e) && states[i] == Next(s, e);
      if t < |s.threads| {
        RequestStatus(run, states, i - 1, t);
        StepHandsBack(s, e, t, ReplyTo(run, i - 1, t));
      } else {
        NoReplyYet(run, states, i - 1, t);
      }
    }
  }

  lemma {:induction false} NoReplyYet(run: seq<Event>, states: seq<State>, i: nat, t: ThreadId)
    requires IsRunFromStart(run, states) && i <= |run| && t >= |states[i].threads|
    ensures ReplyTo(run, i, t) == None
    decreases i
  {
    if i > 0 {
      assert Enabled(states[i - 1], run[i - 1]);
      NoReplyYet(run, states, i - 1, t);
    }
  }
}

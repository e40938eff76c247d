/** Life of one request after its body has been preread, as interleaved steps of the thread in `Handler`
    and of the runtime threads that send the response and end the request.

    A sender passes its brigade to the output filters first and sets `body_sent` afterwards, and the
    exception path tests `body_sent` before it writes the status: each of these is two steps here. */
module Completion {
  import opened HttpStatus

  datatype Phase =
    | Prereading
    | Processing        // inside HttpRuntime::ProcessRequest
    | Caught            // exception caught, body_sent not yet tested
    | Failing           // tested body_sent == 0, status not yet written
    | Waiting           // blocked on wait_complete
    | Woken             // wait over, result not yet chosen
    | Returned(code: int, byStatus: bool)

  /** `passed` counts the brigades given to the output filters.  `midSend` counts the senders between passing a
      brigade and setting body_sent, `midFail` those that passed none (the file handle was refused) and are about
      to set it. */
  datatype State = State(
    phase: Phase, bodySent: bool, status: int, completed: bool, callback: bool, notified: nat,
    passed: nat, midSend: nat, midFail: nat)

  datatype Event =
    | PrereadFails | PrereadDone | ProcessReturns | ProcessThrows
    | TestBodySent | WriteServerError | Wake | Return
    | SendStatus(code: int) | PassBrigade | RefuseFile | MarkSent | MarkSentAfterRefusal
    | SetEndOfSendNotification | FlushNotifies | EndOfRequest

  function Initial(status: int): State {
    State(Prereading, false, status, false, false, 0, 0, 0, 0)
  }

  predicate Enabled(s: State, e: Event) {
    match e
    case PrereadFails | PrereadDone => s.phase == Prereading
    case ProcessReturns | ProcessThrows => s.phase == Processing
    case TestBodySent => s.phase == Caught
    case WriteServerError => s.phase == Failing
    case Wake => s.phase == Waiting && s.completed
    case Return => s.phase == Woken
    case MarkSent => s.midSend > 0
    case MarkSentAfterRefusal => s.midFail > 0
    case _ => s.phase != Prereading
  }

  function Notify(s: State): State {
    if s.callback then s.(notified := s.notified + 1, callback := false) else s
  }

  function Next(s: State, e: Event): State
    requires Enabled(s, e)
  {
    match e
    case PrereadFails => s.(phase := Returned(SERVER_ERROR, false))
    case PrereadDone => s.(phase := Processing)
    case ProcessReturns => s.(phase := Waiting)
    case ProcessThrows => s.(phase := Caught)
    case TestBodySent => s.(phase := if s.bodySent then Waiting else Failing)
    case WriteServerError => s.(phase := Waiting, status := SERVER_ERROR)
    case Wake => s.(phase := Woken)
    case Return => s.(phase := if s.bodySent then Returned(OK, false) else Returned(s.status, true))
    case SendStatus(code) => s.(status := code)
    case PassBrigade => s.(passed := s.passed + 1, midSend := s.midSend + 1)
    case RefuseFile => s.(midFail := s.midFail + 1)
    case MarkSent => s.(bodySent := true, midSend := s.midSend - 1)
    case MarkSentAfterRefusal => s.(bodySent := true, midFail := s.midFail - 1)
    case SetEndOfSendNotification => s  // the callback is not stored
    case FlushNotifies => Notify(s)     // the last step of a final FlushResponse
    case EndOfRequest => Notify(s).(completed := true)
  }

  /** A run: each event is possible in the state it meets and leads to the next one. */
  ghost predicate IsRun(status: int, run: seq<Event>, states: seq<State>) {
    && |states| == |run| + 1
    && states[0] == Initial(status)
    && forall i :: 0 <= i < |run| ==> Enabled(states[i], run[i]) && states[i + 1] == Next(states[i], run[i])
  }

  /** The events lead from `s` to `s'`, one after the other. */
  ghost predicate Leads(s: State, events: seq<Event>, s': State)
    decreases |events|
  {
    if events == [] then s' == s else Enabled(s, events[0]) && Leads(Next(s, events[0]), events[1..], s')
  }

  lemma LeadsOne(s: State, e: Event)
    ensures Enabled(s, e) ==> Leads(s, [e], Next(s, e))
  {
  }

  lemma LeadsTwo(s: State, e: Event, f: Event)
    ensures Enabled(s, e) && Enabled(Next(s, e), f) ==> Leads(s, [e, f], Next(Next(s, e), f))
  {
    assert [e, f][1..] == [f];
    if Enabled(s, e) { LeadsOne(Next(s, e), f); }
  }

  /** The steps of a send, of one whose file handle is refused, and of a final flush. */
  lemma SendLeads(s: State)
    requires s.phase != Prereading
    ensures Enabled(s, PassBrigade) && Enabled(Next(s, PassBrigade), MarkSent)
    ensures Leads(s, [PassBrigade, MarkSent], Next(Next(s, PassBrigade), MarkSent))
  {
    LeadsTwo(s, PassBrigade, MarkSent);
  }

  lemma RefusalLeads(s: State)
    requires s.phase != Prereading
    ensures Enabled(s, RefuseFile) && Enabled(Next(s, RefuseFile), MarkSentAfterRefusal)
    ensures Leads(s, [RefuseFile, MarkSentAfterRefusal], Next(Next(s, RefuseFile), MarkSentAfterRefusal))
  {
    LeadsTwo(s, RefuseFile, MarkSentAfterRefusal);
  }

  lemma FlushLeads(s: State)
    requires s.phase != Prereading
    ensures Enabled(s, PassBrigade) && Enabled(Next(s, PassBrigade), MarkSent)
    ensures Enabled(Next(Next(s, PassBrigade), MarkSent), FlushNotifies)
    ensures Leads(s, [PassBrigade, MarkSent, FlushNotifies], Next(Next(Next(s, PassBrigade), MarkSent), FlushNotifies))
  {
    assert [PassBrigade, MarkSent, FlushNotifies][1..] == [MarkSent, FlushNotifies];
    LeadsTwo(Next(s, PassBrigade), MarkSent, FlushNotifies);
  }

  lemma {:induction false} LeadsOn(s: State, events: seq<Event>, mid: State, more: seq<Event>, s': State)
    requires Leads(s, events, mid) && Leads(mid, more, s')
    ensures Leads(s, events + more, s')
    decreases |events|
  {
    if events == [] {
      assert [] + more == more;
    } else {
      LeadsOn(Next(s, events[0]), events[1..], mid, more, s');
      assert (events + more)[1..] == events[1..] + more;
    }
  }

  /** Events that lead on from the start are a run. */
  lemma LeadsIsRun(status: int, events: seq<Event>, s': State) returns (states: seq<State>)
    requires Leads(Initial(status), events, s')
    ensures IsRun(status, events, states) && states[|events|] == s'
  {
    states := PathOf(Initial(status), events, s');
  }

  lemma {:induction false} PathOf(s: State, events: seq<Event>, s': State) returns (states: seq<State>)
    requires Leads(s, events, s')
    ensures |states| == |events| + 1 && states[0] == s && states[|events|] == s'
    ensures forall i :: 0 <= i < |events| ==> Enabled(states[i], events[i]) && states[i + 1] == Next(states[i], events[i])
    decreases |events|
  {
    if events == [] {
      states := [s];
    } else {
      var rest := PathOf(Next(s, events[0]), events[1..], s');
      states := [s] + rest;
      forall i | 0 <= i < |events|
        ensures Enabled(states[i], events[i]) && states[i + 1] == Next(states[i], events[i])
      {
        if i > 0 { assert states[i] == rest[i - 1] && events[i] == events[1..][i - 1]; }
      }
    }
  }

  /** From ProcessRequest's return, or its exception, to the wait, with nobody sending meanwhile: after an exception
      the status of a response that has not started becomes 500. */
  lemma AfterProcessing(s: State, throws: bool) returns (events: seq<Event>)
    requires s.phase == Processing
    ensures Leads(s, events, s.(phase := Waiting, status := if throws && !s.bodySent then 500 else s.status))
  {
    if !throws {
      events := [ProcessReturns];
      LeadsOne(s, ProcessReturns);
    } else {
      events := [ProcessThrows, TestBodySent];
      LeadsTwo(s, ProcessThrows, TestBodySent);
      if !s.bodySent {
        var failing := s.(phase := Failing);
        LeadsOne(failing, WriteServerError);
        LeadsOn(s, events, failing, [WriteServerError], Next(failing, WriteServerError));
        events := events + [WriteServerError];
      }
    }
  }

  /** And on to Handler's return, if the request has been ended by then. */
  lemma Ending(s: State, throws: bool) returns (events: seq<Event>, end: State)
    requires s.phase == Processing
    ensures Leads(s, events, end)
    ensures var status := if throws && !s.bodySent then 500 else s.status;
            if s.completed then end.phase == if s.bodySent then Returned(OK, false) else Returned(status, true)
            else end == s.(phase := Waiting, status := status)
    ensures end.status == (if throws && !s.bodySent then 500 else s.status) && end.bodySent == s.bodySent
  {
    events := AfterProcessing(s, throws);
    end := s.(phase := Waiting, status := if throws && !s.bodySent then 500 else s.status);
    if s.completed {
      LeadsTwo(end, Wake, Return);
      LeadsOn(s, events, end, [Wake, Return], Next(Next(end, Wake), Return));
      events := events + [Wake, Return];
      end := Next(Next(end, Wake), Return);
    }
  }

  // ----- what every step keeps -----

  ghost predicate Inv(s: State) {
    && !s.callback
    && s.notified == 0
    && (!s.bodySent ==> s.passed == s.midSend)
    && s.midSend <= s.passed
    && (s.phase == Prereading ==> !s.bodySent && s.passed == 0 && s.midFail == 0)
    && (s.phase == Woken ==> s.completed)
  }

  lemma NextKeepsInv(s: State, e: Event)
    requires Inv(s) && Enabled(s, e)
    ensures Inv(Next(s, e))
  {
  }

  lemma {:induction false} EveryRunKeepsInv(status: int, run: seq<Event>, states: seq<State>, i: nat)
    requires IsRun(status, run, states) && i <= |run|
    ensures Inv(states[i])
  {
    if i > 0 {
      EveryRunKeepsInv(status, run, states, i - 1);
      NextKeepsInv(states[i - 1], run[i - 1]);
    }
  }

  // ----- completion -----

  lemma InLonger(run: seq<Event>, lo: nat, i: nat, e: Event)
    requires lo < i <= |run|
    ensures e in run[lo..i] <==> e in run[lo..i - 1] || e == run[i - 1]
  {
    assert run[lo..i] == run[lo..i - 1] + [run[i - 1]];
  }

  lemma CompletedStep(s: State, e: Event)
    requires Enabled(s, e)
    ensures Next(s, e).completed <==> s.completed || e == EndOfRequest
  {
  }

  lemma {:induction false} CompletedMeansEnded(status: int, run: seq<Event>, states: seq<State>, i: nat)
    requires IsRun(status, run, states) && i <= |run|
    ensures states[i].completed <==> EndOfRequest in run[..i]
  {
    if i > 0 {
      CompletedMeansEnded(status, run, states, i - 1);
      InLonger(run, 0, i, EndOfRequest);
      CompletedStep(states[i - 1], run[i - 1]);
    }
  }

  /** Past the preread, Handler returns only after EndOfRequest, in every interleaving. */
  lemma HandlerReturnsAfterEndOfRequest(status: int, run: seq<Event>, states: seq<State>, i: nat)
    requires IsRun(status, run, states) && i < |run| && run[i] == Return
    ensures EndOfRequest in run[..i]
  {
    EveryRunKeepsInv(status, run, states, i);
    CompletedMeansEnded(status, run, states, i);
  }

  lemma {:induction false} BodySentNeverReverts(status: int, run: seq<Event>, states: seq<State>, i: nat, j: nat)
    requires IsRun(status, run, states) && i <= j <= |run| && states[i].bodySent
    ensures states[j].bodySent
  {
    if i < j {
      BodySentNeverReverts(status, run, states, i, j - 1);
    }
  }

  /** The end-of-send notification is registered but never delivered. */
  lemma NotificationNeverDelivered(status: int, run: seq<Event>, states: seq<State>, i: nat)
    requires IsRun(status, run, states) && i <= |run|
    ensures states[i].notified == 0
  {
    EveryRunKeepsInv(status, run, states, i);
  }

  // ----- what the returned value says about the response -----

  lemma SendingStep(s: State, e: Event)
    requires Enabled(s, e)
    ensures Next(s, e).bodySent <==> s.bodySent || e == MarkSent || e == MarkSentAfterRefusal
    ensures Next(s, e).passed == s.passed + if e == PassBrigade then 1 else 0
  {
  }

  /** What the counters say of the run: a brigade has been passed, body_sent has been set. */
  lemma {:induction false} SendingInRun(status: int, run: seq<Event>, states: seq<State>, i: nat)
    requires IsRun(status, run, states) && i <= |run|
    ensures states[i].bodySent <==> MarkSent in run[..i] || MarkSentAfterRefusal in run[..i]
    ensures states[i].passed > 0 <==> PassBrigade in run[..i]
  {
    if i > 0 {
      SendingInRun(status, run, states, i - 1);
      SendingStep(states[i - 1], run[i - 1]);
      InLonger(run, 0, i, MarkSent);
      InLonger(run, 0, i, MarkSentAfterRefusal);
      InLonger(run, 0, i, PassBrigade);
    }
  }

  /** In every interleaving Handler returns a status although something was passed to the output filters exactly
      when a brigade was passed and no sender, of that brigade or any other, has got to setting body_sent; and it
      returns OK exactly when some sender has. */
  lemma StatusReturnWithBrigade(status: int, run: seq<Event>, states: seq<State>, i: nat)
    requires IsRun(status, run, states) && i < |run| && run[i] == Return
    ensures states[i + 1].phase.Returned?
    ensures states[i + 1].phase.byStatus && states[i].passed > 0 <==>
            PassBrigade in run[..i] && MarkSent !in run[..i] && MarkSentAfterRefusal !in run[..i]
    ensures !states[i + 1].phase.byStatus <==> MarkSent in run[..i] || MarkSentAfterRefusal in run[..i]
    ensures !states[i + 1].phase.byStatus ==> states[i + 1].phase.code == OK
  {
    SendingInRun(status, run, states, i);
  }

  /** A runtime that ends the request only when its sends have returned, and sends nothing more. */
  ghost predicate EndsOrderly(run: seq<Event>, states: seq<State>)
    requires |states| == |run| + 1
  {
    forall i :: 0 <= i < |run| && run[i] == EndOfRequest ==>
      states[i].midSend == 0 && PassBrigade !in run[i..]
  }

  lemma MidSendStep(s: State, e: Event)
    requires Enabled(s, e) && e != PassBrigade
    ensures Next(s, e).midSend <= s.midSend
    ensures e == EndOfRequest ==> Next(s, e).midSend == s.midSend
  {
  }

  lemma {:induction false} OrderlyLeavesNoneMidSend(status: int, run: seq<Event>, states: seq<State>, i: nat)
    requires IsRun(status, run, states) && EndsOrderly(run, states) && i <= |run|
    ensures states[i].completed ==> states[i].midSend == 0
  {
    if i > 0 && states[i].completed {
      OrderlyLeavesNoneMidSend(status, run, states, i - 1);
      CompletedStep(states[i - 1], run[i - 1]);
      if states[i - 1].completed {
        CompletedMeansEnded(status, run, states, i - 1);
        var k :| 0 <= k < i - 1 && run[..i - 1][k] == EndOfRequest;
        assert run[i - 1] == run[k..][i - 1 - k] && PassBrigade !in run[k..];
      }
      MidSendStep(states[i - 1], run[i - 1]);
    }
  }

  /** With an orderly runtime, a status handed back to Apache means nothing was sent. */
  lemma OrderlyStatusReturnSentNothing(status: int, run: seq<Event>, states: seq<State>, i: nat)
    requires IsRun(status, run, states)
    requires forall e :: 0 <= e < |run| && run[e] == EndOfRequest ==> states[e].midSend == 0 && PassBrigade !in run[e..]
    requires i < |run| && run[i] == Return && states[i + 1].phase.byStatus
    ensures states[i].passed == 0
  {
    EveryRunKeepsInv(status, run, states, i);
    OrderlyLeavesNoneMidSend(status, run, states, i);
  }

  /** Without that discipline it can fail: the request is ended, and its status returned, while a sender is
      between its brigade and body_sent. */
  lemma StatusReturnedAfterBrigade() returns (run: seq<Event>, states: seq<State>)
    ensures IsRun(200, run, states) && run != [] && run[|run| - 1] == Return
    ensures states[|run|].phase == Returned(200, true) && states[|run|].passed == 1
  {
    run := [PrereadDone, ProcessReturns, PassBrigade, EndOfRequest, Wake, Return];
    var s0 := Initial(200);
    var s1 := Next(s0, PrereadDone);
    var s2 := Next(s1, ProcessReturns);
    var s3 := Next(s2, PassBrigade);
    var s4 := Next(s3, EndOfRequest);
    var s5 := Next(s4, Wake);
    states := [s0, s1, s2, s3, s4, s5, Next(s5, Return)];
  }

  // ----- the exception path -----

  lemma FailingStep(s: State, e: Event)
    requires Enabled(s, e) && Next(s, e).phase == Failing
    ensures s.phase != Failing ==> e == TestBodySent && !s.bodySent && Next(s, e).passed == s.passed
  {
  }

  /** Between the exception path's test, at t, and its write, brigades are passed by PassBrigade events only. */
  lemma {:induction false} SinceTest(status: int, run: seq<Event>, states: seq<State>, i: nat) returns (t: nat)
    requires IsRun(status, run, states) && i <= |run| && states[i].phase == Failing
    ensures t < i && run[t] == TestBodySent && !states[t].bodySent
    ensures forall k :: t < k <= i ==> states[k].phase == Failing
    ensures states[i].passed > 0 <==> states[t].passed > 0 || PassBrigade in run[t + 1..i]
  {
    assert i > 0;
    FailingStep(states[i - 1], run[i - 1]);
    if states[i - 1].phase == Failing {
      t := SinceTest(status, run, states, i - 1);
      InLonger(run, t + 1, i, PassBrigade);
      SendingStep(states[i - 1], run[i - 1]);
    } else {
      t := i - 1;
    }
  }

  /** In every interleaving the exception path writes the status of a started response exactly when some send
      overlapped its test of body_sent, at t: a sender was between its two steps then, or passed a brigade
      before the write. */
  lemma ExceptionPathStatus(status: int, run: seq<Event>, states: seq<State>, i: nat) returns (t: nat)
    requires IsRun(status, run, states) && i < |run| && run[i] == WriteServerError
    ensures t < i && run[t] == TestBodySent && forall k :: t < k <= i ==> states[k].phase == Failing
    ensures states[i].passed > 0 <==> states[t].midSend > 0 || PassBrigade in run[t + 1..i]
  {
    t := SinceTest(status, run, states, i);
    EveryRunKeepsInv(status, run, states, t);
  }

  /** Such an overlap is possible: a brigade leaves with the request's own status, which then becomes 500. */
  lemma ExceptionPathOverwritesStartedStatus() returns (run: seq<Event>, states: seq<State>)
    ensures IsRun(200, run, states) && run != [] && run[|run| - 1] == WriteServerError
    ensures states[|run| - 1].passed == 1 && states[|run| - 1].status == 200 && states[|run|].status == SERVER_ERROR
  {
    run := [PrereadDone, ProcessThrows, TestBodySent, PassBrigade, WriteServerError];
    var s0 := Initial(200);
    var s1 := Next(s0, PrereadDone);
    var s2 := Next(s1, ProcessThrows);
    var s3 := Next(s2, TestBodySent);
    var s4 := Next(s3, PassBrigade);
    states := [s0, s1, s2, s3, s4, Next(s4, WriteServerError)];
  }

  // ----- which status is returned -----

  predicate WritesStatus(e: Event) {
    e.SendStatus? || e == WriteServerError
  }

  function StatusWritten(e: Event): int
    requires WritesStatus(e)
  {
    if e.SendStatus? then e.code else SERVER_ERROR
  }

  /** The status at any moment is the one written last, at w, or the initial one if none was (w == -1). */
  lemma {:induction false} StatusIsLastWritten(status: int, run: seq<Event>, states: seq<State>, i: nat) returns (w: int)
    requires IsRun(status, run, states) && i <= |run|
    ensures -1 <= w < i && forall k :: w < k < i ==> !WritesStatus(run[k])
    ensures if w == -1 then states[i].status == status
            else WritesStatus(run[w]) && states[i].status == StatusWritten(run[w])
  {
    if i == 0 {
      w := -1;
    } else if WritesStatus(run[i - 1]) {
      w := i - 1;
    } else {
      w := StatusIsLastWritten(status, run, states, i - 1);
    }
  }

  /** The status Handler hands to Apache is the last one SendStatus or the exception path wrote before the return,
      or else the request's own; it hands it over exactly when no sender has set body_sent. */
  lemma ReturnedStatus(status: int, run: seq<Event>, states: seq<State>, i: nat) returns (w: int)
    requires IsRun(status, run, states) && i < |run| && run[i] == Return
    ensures -1 <= w < i && (w >= 0 ==> WritesStatus(run[w])) && forall k :: w < k < i ==> !WritesStatus(run[k])
    ensures states[i + 1].phase ==
            if MarkSent in run[..i] || MarkSentAfterRefusal in run[..i] then Returned(OK, false)
            else Returned(if w == -1 then status else StatusWritten(run[w]), true)
  {
    w := StatusIsLastWritten(status, run, states, i);
    SendingInRun(status, run, states, i);
  }

  lemma ReturnedStep(s: State, e: Event)
    requires Enabled(s, e)
    ensures s.phase.Returned? ==> Next(s, e).phase == s.phase
    ensures Next(s, e).phase.Returned? && !s.phase.Returned? ==> e == PrereadFails || e == Return
    ensures e == PrereadFails ==> Next(s, e).phase.Returned?
  {
  }

  /** A result stands from the event at r that decided it. */
  lemma {:induction false} ReturnedAt(status: int, run: seq<Event>, states: seq<State>, i: nat) returns (r: nat)
    requires IsRun(status, run, states) && i <= |run| && states[i].phase.Returned?
    ensures r < i && (run[r] == PrereadFails || run[r] == Return) && states[r + 1].phase == states[i].phase
    ensures PrereadFails in run[..i] <==> run[r] == PrereadFails
  {
    assert i > 0;
    ReturnedStep(states[i - 1], run[i - 1]);
    InLonger(run, 0, i, PrereadFails);
    if states[i - 1].phase.Returned? {
      r := ReturnedAt(status, run, states, i - 1);
    } else {
      r := i - 1;
      FailedPreread(status, run, states, i - 1);
    }
  }

  lemma {:induction false} FailedPreread(status: int, run: seq<Event>, states: seq<State>, i: nat)
    requires IsRun(status, run, states) && i <= |run|
    ensures PrereadFails in run[..i] ==> states[i].phase.Returned?
    decreases i
  {
    if i > 0 {
      FailedPreread(status, run, states, i - 1);
      InLonger(run, 0, i, PrereadFails);
      ReturnedStep(states[i - 1], run[i - 1]);
    }
  }

  /** Whatever happens and whenever one looks: what Handler has returned is 500 if the preread failed; otherwise, the
      return being at r, OK if some sender had set body_sent by then, and if none had the status written last before
      it, at w, or the request's own. */
  lemma ReturnedCode(status: int, run: seq<Event>, states: seq<State>, i: nat) returns (r: nat, w: int)
    requires IsRun(status, run, states) && i <= |run| && states[i].phase.Returned?
    ensures r < i && (PrereadFails in run[..i] || run[r] == Return)
    ensures -1 <= w < r && (w >= 0 ==> WritesStatus(run[w])) && forall k :: w < k < r ==> !WritesStatus(run[k])
    ensures states[i].phase.code ==
            if PrereadFails in run[..i] then 500
            else if MarkSent in run[..r] || MarkSentAfterRefusal in run[..r] then 0
            else if w == -1 then status
            else if run[w].SendStatus? then run[w].code
            else 500
  {
    r := ReturnedAt(status, run, states, i);
    w := StatusIsLastWritten(status, run, states, r);
    SendingInRun(status, run, states, r);
  }

  // ----- the exception path reaches its end, and so does Handler -----

  lemma ThrownStep(s: State, e: Event)
    requires Enabled(s, e)
    ensures Next(s, e).phase.Caught? ==> s.phase.Caught? || e == ProcessThrows
    ensures Next(s, e).phase.Failing? ==> s.phase.Failing? || (s.phase.Caught? && e == TestBodySent)
    ensures s.phase.Caught? ==> Next(s, e).phase.Caught? || (e == TestBodySent && (s.bodySent || Next(s, e).phase.Failing?))
    ensures s.phase.Failing? ==> Next(s, e).phase.Failing? || e == WriteServerError
    ensures e == ProcessThrows ==> Next(s, e).phase.Caught?
    ensures e == WriteServerError ==> s.phase.Failing?
  {
  }

  /** Where an exception leaves Handler: it is still on the exception path, has written 500, or found body_sent set;
      and it is on that path, or has written 500 there, only after an exception. */
  lemma {:induction false} AfterException(status: int, run: seq<Event>, states: seq<State>, i: nat)
    requires IsRun(status, run, states) && i <= |run|
    ensures ProcessThrows in run[..i] ==>
              states[i].phase.Caught? || states[i].phase.Failing? || WriteServerError in run[..i] || states[i].bodySent
    ensures states[i].phase.Caught? || states[i].phase.Failing? || WriteServerError in run[..i] ==> ProcessThrows in run[..i]
  {
    if i > 0 {
      AfterException(status, run, states, i - 1);
      InLonger(run, 0, i, ProcessThrows);
      InLonger(run, 0, i, WriteServerError);
      ThrownStep(states[i - 1], run[i - 1]);
      SendingStep(states[i - 1], run[i - 1]);
    }
  }

  /** An exception is never lost: when Handler returns after one and no sender has set body_sent, 500 has been written
      to the status (whatever SendStatus made of it later); and 500 is written there for no other reason. */
  lemma ExceptionIsReported(status: int, run: seq<Event>, states: seq<State>, i: nat)
    requires IsRun(status, run, states) && i < |run| && run[i] == Return
    ensures ProcessThrows in run[..i] && MarkSent !in run[..i] && MarkSentAfterRefusal !in run[..i] ==> WriteServerError in run[..i]
    ensures WriteServerError in run[..i] ==> ProcessThrows in run[..i]
  {
    AfterException(status, run, states, i);
    SendingInRun(status, run, states, i);
  }

  /** The steps of the thread in Handler, as against those of the runtime's threads. */
  predicate IsHandlerStep(e: Event) {
    match e
    case PrereadFails | PrereadDone | ProcessReturns | ProcessThrows | TestBodySent | WriteServerError | Wake | Return => true
    case _ => false
  }

  function HandlerStepsLeft(p: Phase): nat {
    match p
    case Prereading => 6
    case Processing => 5
    case Caught => 4
    case Failing => 3
    case Waiting => 2
    case Woken => 1
    case Returned(_, _) => 0
  }

  lemma HandlerGetsNearer(s: State, e: Event)
    requires Enabled(s, e)
    ensures if IsHandlerStep(e) then HandlerStepsLeft(Next(s, e).phase) < HandlerStepsLeft(s.phase)
            else Next(s, e).phase == s.phase
  {
  }

  function HandlerSteps(run: seq<Event>): nat {
    if run == [] then 0 else HandlerSteps(run[..|run| - 1]) + if IsHandlerStep(run[|run| - 1]) then 1 else 0
  }

  /** In every run Handler takes at most six steps, whatever the senders do meanwhile. */
  lemma {:induction false} HandlerStepsAreBounded(status: int, run: seq<Event>, states: seq<State>, i: nat)
    requires IsRun(status, run, states) && i <= |run|
    ensures HandlerSteps(run[..i]) + HandlerStepsLeft(states[i].phase) <= 6
  {
    if i > 0 {
      HandlerStepsAreBounded(status, run, states, i - 1);
      HandlerGetsNearer(states[i - 1], run[i - 1]);
      assert run[..i][..i - 1] == run[..i - 1];
    }
  }

  /** Handler is never stuck: until it has returned it can take a step, or it waits for EndOfRequest, which can come
      at any time and lets it go on. */
  lemma HandlerNotStuck(s: State) returns (e: Event)
    requires !s.phase.Returned?
    ensures Enabled(s, e)
    ensures if s.phase == Waiting && !s.completed then e == EndOfRequest && Enabled(Next(s, e), Wake) else IsHandlerStep(e)
  {
    e := match s.phase
      case Prereading => PrereadDone
      case Processing => ProcessReturns
      case Caught => TestBodySent
      case Failing => WriteServerError
      case Waiting => if s.completed then Wake else EndOfRequest
      case _ => Return;
  }
}

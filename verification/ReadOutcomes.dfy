/** What a call of `InternalReadEntityBody` asks of its input filter and makes of the answers: the answers it takes,
    one after the other, decide the bytes it has to copy and its outcome. */
module ReadOutcomes {
  import opened Brigades

  /** The answers a call has taken. */
  datatype Log = Start | Then(before: Log, last: Response)

  function Taken(log: Log): nat {
    if log.Start? then 0 else Taken(log.before) + 1
  }

  /** Their payload. */
  function Handed(log: Log): seq<Byte> {
    if log.Start? then [] else Handed(log.before) + ResponsePayload(log.last)
  }

  /** What is still wanted of `size` bytes. */
  function Room(size: nat, log: Log): nat {
    size - Min(size, |Handed(log)|)
  }

  /** The call begins at `round`, with `pos` bytes handed out before it.  Every answer is one to a request for what is
      still wanted then, 8192 bytes at most. */
  ghost predicate Answers(answer: Behaviour, round: nat, pos: nat, size: nat, log: Log) {
    log.Start? ||
    (Answers(answer, round, pos, size, log.before) && IsNext(answer, round, pos, size, log.before, log.last))
  }

  ghost predicate IsNext(answer: Behaviour, round: nat, pos: nat, size: nat, before: Log, r: Response) {
    r == Ask(answer, round + Taken(before), pos + |Handed(before)|, Min(8192, Room(size, before)))
  }

  /** After these answers a call asks again: it has not seen EOS, before or now, every bucket could be read, and
      bytes are still wanted. */
  ghost predicate AsksAgain(size: nat, seenEos: bool, log: Log) {
    log.Then? ==>
      && AsksAgain(size, seenEos, log.before)
      && log.last.Brigade? && Readable(log.last.buckets)
      && !seenEos && Eos !in log.last.buckets && |Handed(log)| < size
  }

  /** The whole of what a call does with the filter: at least one answer is taken, all but the last of them ask for
      more, and the last decides the outcome.  `seen` is what there was to copy. */
  ghost predicate Outcome(answer: Behaviour, round: nat, pos: nat, size: nat, seenEos: bool,
                          log: Log, seen: seq<Byte>, rv: Status, eos: bool)
  {
    && log.Then?
    && Answers(answer, round, pos, size, log)
    && AsksAgain(size, seenEos, log.before)
    && (rv == FilterFailure <==> log.last.Failed?)
    && (rv == BucketFailure <==> log.last.Brigade? && !Readable(log.last.buckets))
    && seen == Handed(log.before) + Readout(log.last)
    && (eos <==> seenEos || (rv == Success && Eos in log.last.buckets))
    && (rv == Success ==> eos || size <= |seen|)
  }

  /** What can be read of an answer. */
  function Readout(r: Response): seq<Byte> {
    if r.Failed? then [] else Sound(r.buckets)
  }

  function StatusOf(r: Response): Status {
    if r.Failed? then FilterFailure else if Readable(r.buckets) then Success else BucketFailure
  }

  lemma ReadoutFirst(r: Response)
    ensures Readout(r) <= ResponsePayload(r)
    ensures StatusOf(r) != BucketFailure ==> Readout(r) == ResponsePayload(r)
  {
    if r.Brigade? { SoundFirst(r.buckets); }
  }

  /** Where a call stands that is going to ask again: `size` bytes are still wanted, and `seen` went through the copy. */
  ghost predicate Going(answer: Behaviour, round: nat, pos: nat, size0: nat, seenEos: bool,
                        log: Log, seen: seq<Byte>, size: nat)
  {
    && Answers(answer, round, pos, size0, log)
    && AsksAgain(size0, seenEos, log)
    && seen == Handed(log)
    && size == Room(size0, log)
  }

  /** One more answer: the call asks again or is done. */
  lemma OneMoreAnswer(answer: Behaviour, round: nat, pos: nat, size0: nat, seenEos: bool,
                      log: Log, seen: seq<Byte>, size: nat, r: Response)
    requires Going(answer, round, pos, size0, seenEos, log, seen, size)
    requires IsNext(answer, round, pos, size0, log, r)
    ensures var log', rv, seen', size' := Then(log, r), StatusOf(r), seen + Readout(r), size - Min(size, |Readout(r)|);
            var eos := seenEos || (rv == Success && Eos in r.buckets);
            if rv == Success && !eos && size' > 0 then
              Going(answer, round, pos, size0, seenEos, log', seen', size')
            else Outcome(answer, round, pos, size0, seenEos, log', seen', rv, eos)
  {
    ReadoutFirst(r);
  }

  // ----- the call comes to an end -----

  /** While something is wanted, round `until` is one that will not come back empty-handed. */
  ghost predicate Awaits(answer: Behaviour, round: nat, pos: nat, size: nat, log: Log, until: nat) {
    0 < Room(size, log) ==>
      round + Taken(log) <= until && Productive(Ask(answer, until, pos + |Handed(log)|, Min(8192, Room(size, log))))
  }

  lemma NextProductive(answer: Behaviour, round: nat, pos: nat, size: nat, log: Log) returns (until: nat)
    requires Live(answer)
    ensures Awaits(answer, round, pos, size, log, until)
  {
    until := 0;
    if 0 < Room(size, log) {
      var at, request: nat := pos + |Handed(log)|, Min(8192, Room(size, log));
      assert ProductiveLater(answer, round + Taken(log), at, request);
      until :| round + Taken(log) <= until && Productive(Ask(answer, until, at, request));
    }
  }

  /** An answer either makes progress, and a new productive one is to come, or the awaited one comes nearer. */
  lemma RoundAwaits(answer: Behaviour, round: nat, pos: nat, size: nat, log: Log, until: nat, r: Response)
    returns (until': nat)
    requires Live(answer) && Awaits(answer, round, pos, size, log, until) && IsNext(answer, round, pos, size, log, r)
    ensures StatusOf(r) == Success && Eos !in r.buckets ==>
              && Awaits(answer, round, pos, size, Then(log, r), until')
              && (Readout(r) == [] ==> until' == until && (0 < Room(size, log) ==> round + Taken(log) < until))
  {
    until' := until;
    ReadoutFirst(r);
    if Readout(r) != [] {
      until' := NextProductive(answer, round, pos, size, Then(log, r));
    }
  }

  // ----- the outcome is determined -----

  /** Nothing is left open: the filter and the call decide the answers taken, the bytes and the outcome. */
  lemma OutcomeIsUnique(answer: Behaviour, round: nat, pos: nat, size: nat, seenEos: bool,
                        log: Log, seen: seq<Byte>, rv: Status, eos: bool,
                        log': Log, seen': seq<Byte>, rv': Status, eos': bool)
    requires Outcome(answer, round, pos, size, seenEos, log, seen, rv, eos)
    requires Outcome(answer, round, pos, size, seenEos, log', seen', rv', eos')
    ensures log == log' && seen == seen' && rv == rv' && eos == eos'
  {
    if Taken(log) < Taken(log') {
      StopsThere(answer, round, pos, size, seenEos, log, seen, rv, eos, log'.before);
    } else if Taken(log') < Taken(log) {
      StopsThere(answer, round, pos, size, seenEos, log', seen', rv', eos', log.before);
    } else {
      SameAnswers(answer, round, pos, size, log, log');
    }
  }

  lemma {:induction false} SameAnswers(answer: Behaviour, round: nat, pos: nat, size: nat, log: Log, log': Log)
    requires Answers(answer, round, pos, size, log) && Answers(answer, round, pos, size, log') && Taken(log) == Taken(log')
    ensures log == log'
  {
    if log.Then? {
      SameAnswers(answer, round, pos, size, log.before, log'.before);
    }
  }

  /** A finished call is not one that asks again, at that answer or later. */
  lemma {:induction false} StopsThere(answer: Behaviour, round: nat, pos: nat, size: nat, seenEos: bool,
                                      log: Log, seen: seq<Byte>, rv: Status, eos: bool, longer: Log)
    requires Outcome(answer, round, pos, size, seenEos, log, seen, rv, eos)
    requires Answers(answer, round, pos, size, longer) && Taken(log) <= Taken(longer)
    ensures !AsksAgain(size, seenEos, longer)
  {
    if Taken(log) == Taken(longer) {
      SameAnswers(answer, round, pos, size, log, longer);
      ReadoutFirst(log.last);
    } else {
      StopsThere(answer, round, pos, size, seenEos, log, seen, rv, eos, longer.before);
    }
  }

  // ----- over well-behaved filters -----

  /** Over a bounded filter no answer goes beyond what is wanted. */
  lemma {:induction false} BoundedFits(answer: Behaviour, round: nat, pos: nat, size: nat, log: Log)
    requires Bounded(answer) && Answers(answer, round, pos, size, log)
    ensures |Handed(log)| <= size
  {
    if log.Then? {
      BoundedFits(answer, round, pos, size, log.before);
    }
  }

  /** Over a filter that chunks `body` the answers are the next pieces of it, and EOS comes with the last. */
  lemma {:induction false} ChunksFit(answer: Behaviour, body: seq<Byte>, handed: seq<Byte>, round: nat, size: nat, log: Log)
    requires Chunks(answer, body) && handed <= body && Answers(answer, round, |handed|, size, log)
    ensures handed + Handed(log) <= body && |Handed(log)| <= size
    ensures log.Then? && log.last.Brigade? && Eos in log.last.buckets ==> handed + Handed(log) == body
    ensures handed == body ==> Handed(log) == []
  {
    if log.Start? {
      assert handed + [] == handed;
    } else {
      var before := log.before;
      ChunksFit(answer, body, handed, round, size, before);
      ChunkFits(answer, body, handed, round, size, before, log.last);
      Regroup(handed, Handed(before), ResponsePayload(log.last));
    }
  }

  lemma ChunkFits(answer: Behaviour, body: seq<Byte>, handed: seq<Byte>, round: nat, size: nat, before: Log, r: Response)
    requires Chunks(answer, body) && IsNext(answer, round, |handed|, size, before, r)
    requires handed + Handed(before) <= body && |Handed(before)| <= size
    ensures (handed + Handed(before)) + ResponsePayload(r) <= body && |Handed(before)| + |ResponsePayload(r)| <= size
    ensures r.Brigade? && Eos in r.buckets ==> (handed + Handed(before)) + ResponsePayload(r) == body
    ensures handed + Handed(before) == body ==> ResponsePayload(r) == []
  {
    var h, request := handed + Handed(before), Min(8192, Room(size, before));
    assert |h| == |handed| + |Handed(before)| && request <= size - |Handed(before)|;
    ServesNext(answer, body, h, round + Taken(before), request, r);
  }

  /** What an outcome says of the bytes: `handed` had left the filter before. */
  ghost predicate Takes(body: seq<Byte>, handed: seq<Byte>, log: Log, seen: seq<Byte>, rv: Status, eos: bool, size: nat) {
    && handed + Handed(log) <= body
    && |seen| <= size
    && (eos ==> handed + Handed(log) == body)
    && (rv == Success ==> |seen| == Min(size, |body| - |handed|))
  }

  /** What a finished call means over each kind of filter. */
  lemma CallDone(answer: Behaviour, body: seq<Byte>, handed: seq<Byte>, round: nat, size: nat, seenEos: bool,
                 log: Log, seen: seq<Byte>, rv: Status, eos: bool)
    requires Outcome(answer, round, |handed|, size, seenEos, log, seen, rv, eos)
    ensures seen <= Handed(log) && (rv != BucketFailure ==> seen == Handed(log))
    ensures NeverFails(answer) ==> rv != FilterFailure
    ensures AlwaysReadable(answer) ==> rv != BucketFailure
    ensures Bounded(answer) ==> |seen| <= size
    ensures Chunks(answer, body) && handed <= body && (seenEos ==> handed == body) ==>
              Takes(body, handed, log, seen, rv, eos, size)
  {
    ReadoutFirst(log.last);
    PrefixAfter(Handed(log.before), Readout(log.last), ResponsePayload(log.last));
    if Bounded(answer) {
      BoundedFits(answer, round, |handed|, size, log);
    }
    if Chunks(answer, body) && handed <= body && (seenEos ==> handed == body) {
      ChunksFit(answer, body, handed, round, size, log);
    }
  }
}

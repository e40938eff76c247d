/** A client that reads the whole body of a request, call by call, against the reference that just takes the next
    bytes of it. */
module WholeBodies {
  import opened Text
  import opened Brigades
  import opened ReadOutcomes
  import opened Preread
  import opened WorkerRequests

  /** One `ReadEntityBody` call: a buffer of `capacity` bytes of which `size` are asked for. */
  datatype Call = Call(capacity: nat, size: nat)

  function Join(pieces: seq<seq<Byte>>): seq<Byte> {
    if pieces == [] then [] else Join(pieces[..|pieces| - 1]) + pieces[|pieces| - 1]
  }

  /** The reference: each call takes the next bytes of what is left, as many as it asks for and there are. */
  function Take(body: seq<Byte>, calls: seq<Call>): seq<seq<Byte>> {
    if calls == [] then []
    else
      var n := Min(calls[0].size, |body|);
      [body[..n]] + Take(body[n..], calls[1..])
  }

  /** The brigade the preread takes. */
  function PrereadBrigade(answer: Behaviour): seq<Bucket> {
    var r := Ask(answer, 0, 0, PREREAD_SIZE);
    if r.Brigade? then r.buckets else []
  }

  /** A client that reads the body of a fresh request with any sequence of calls, over any filter that chunks
      `body` in any way, going on after filter errors and stopping at the first bucket read that loses something,
      be it in the preread or in a call.

      Preread and returned bytes together are a prefix of the body counted by `bytesRead`, provided a failed read
      found no room in the preread; they are the whole of it once EOS was seen, provided the preread was complete.
      If no call failed, every call got exactly what the reference takes; and a call fails only if the filter or
      a bucket read does, so that over a filter that does neither every call succeeds and the client has the body as
      far as it asked for it. */
  method ReadWholeBody(answer: Behaviour, ghost body: seq<Byte>, calls: seq<Call>)
    returns (started: bool, preread: seq<Byte>, pieces: seq<seq<Byte>>, statuses: seq<Status>, bytesRead: int, seenEos: bool)
    requires Live(answer) && Chunks(answer, body)
    requires forall c <- calls :: c.size <= c.capacity
    ensures started <==> Ask(answer, 0, 0, 49152).Brigade?
    ensures started ==> preread == PrereadCopied(PrereadBrigade(answer)) && bytesRead == |preread + Join(pieces)|
    ensures |pieces| == |statuses| <= |calls|
    ensures forall i :: 0 <= i < |statuses| - 1 ==> statuses[i] != BucketFailure
    ensures started && Complete(PrereadBrigade(answer)) && |statuses| < |calls| ==>
              statuses != [] && statuses[|statuses| - 1] == BucketFailure
    ensures NoRoom(PrereadBrigade(answer)) ==> preread + Join(pieces) <= body
    ensures Complete(PrereadBrigade(answer)) && seenEos ==> preread + Join(pieces) == body
    ensures started && Complete(PrereadBrigade(answer)) && AllSucceeded(statuses) ==>
              pieces == Take(body[|preread|..], calls)
    ensures NeverFails(answer) ==> started && Without(statuses, FilterFailure)
    ensures AlwaysReadable(answer) ==> Without(statuses, BucketFailure)
    ensures NeverFails(answer) && AlwaysReadable(answer) ==> EveryCallSucceeds(preread, body, calls, pieces, statuses)
  {
    ReadablePreread(answer);
    preread, pieces, statuses, bytesRead, seenEos := [], [], [], 0, false;
    var filter := new InputFilter(answer);
    var request := new WorkerRequest(filter, 200);
    ghost var bb;
    var result;
    result, bb := request.Preread(body);
    started := result.None?;
    if !started {
      return;
    }
    preread := request.prereadBody[..request.bytesRead];
    bytesRead, seenEos := request.bytesRead, request.seenEos;
    assert preread + Join(pieces) == preread;
    if !Complete(PrereadBrigade(answer)) {
      return;
    }
    assert preread == request.prereadBody[..];
    pieces, statuses := ReadCalls(request, body, calls);
    bytesRead, seenEos := request.bytesRead, request.seenEos;
    if NeverFails(answer) && AlwaysReadable(answer) {
      AllSucceed(preread, body, calls, pieces, statuses);
    }
  }

  lemma ReadablePreread(answer: Behaviour)
    ensures NeverFails(answer) ==> Ask(answer, 0, 0, 49152).Brigade?
    ensures AlwaysReadable(answer) ==> Complete(PrereadBrigade(answer)) && NoRoom(PrereadBrigade(answer))
  {
  }

  /** Any sequence of calls on a request in step, up to and including the first failed bucket read. */
  method ReadCalls(request: WorkerRequest, ghost body: seq<Byte>, calls: seq<Call>)
    returns (pieces: seq<seq<Byte>>, statuses: seq<Status>)
    requires request.InStep(body) && Live(request.filter.answer)
    requires forall c <- calls :: c.size <= c.capacity
    modifies request`seenEos, request`bytesRead, request.filter
    ensures |pieces| == |statuses| <= |calls|
    ensures forall i :: 0 <= i < |statuses| - 1 ==> statuses[i] != BucketFailure
    ensures |statuses| < |calls| ==> statuses != [] && statuses[|statuses| - 1] == BucketFailure
    ensures old(request.filter.handed) + Join(pieces) <= body
    ensures request.bytesRead == old(request.bytesRead) + |Join(pieces)|
    ensures request.seenEos ==> old(request.filter.handed) + Join(pieces) == body
    ensures AllSucceeded(statuses) ==> pieces == Take(body[|old(request.filter.handed)|..], calls)
    ensures NeverFails(request.filter.answer) ==> Without(statuses, FilterFailure)
    ensures AlwaysReadable(request.filter.answer) ==> Without(statuses, BucketFailure)
  {
    ghost var start, sure := request.filter.handed, NeverFails(request.filter.answer);
    pieces, statuses := [], [];
    assert start + Join(pieces) == start;
    for i := 0 to |calls|
      invariant request.InStep(body)
      invariant |pieces| == i
      invariant ReadSoFar(body, start, calls, pieces, statuses, request.filter.handed, sure)
    {
      ghost var before := request.filter.handed;
      var piece, rv := ReadPiece(request, calls[i], body);
      ReadOn(body, start, calls, pieces, statuses, before, sure, piece, rv);
      pieces := pieces + [piece];
      statuses := statuses + [rv];
      if rv == BucketFailure {
        return;
      }
    }
  }

  /** After some calls on a request in step, with `start` handed out before them and `handed` by now. */
  ghost predicate ReadSoFar(body: seq<Byte>, start: seq<Byte>, calls: seq<Call>, pieces: seq<seq<Byte>>,
                            statuses: seq<Status>, handed: seq<Byte>, sure: bool)
  {
    && |pieces| == |statuses| <= |calls|
    && start + Join(pieces) == handed
    && Without(statuses, BucketFailure)
    && (sure ==> Without(statuses, FilterFailure))
    && OnTrack(body, |start|, calls, pieces, statuses, |handed|)
  }

  lemma ReadOn(body: seq<Byte>, start: seq<Byte>, calls: seq<Call>, pieces: seq<seq<Byte>>, statuses: seq<Status>,
               handed: seq<Byte>, sure: bool, piece: seq<Byte>, rv: Status)
    requires ReadSoFar(body, start, calls, pieces, statuses, handed, sure) && |pieces| < |calls|
    requires handed + piece <= body && (sure ==> rv != FilterFailure)
    requires rv == Success ==> |piece| == Min(calls[|pieces|].size, |body| - |handed|)
    ensures start + Join(pieces + [piece]) == handed + piece
    ensures |Join(pieces + [piece])| == |Join(pieces)| + |piece|
    ensures forall i :: 0 <= i < |statuses| ==> (statuses + [rv])[i] != BucketFailure
    ensures sure ==> Without(statuses + [rv], FilterFailure)
    ensures rv != BucketFailure ==>
              ReadSoFar(body, start, calls, pieces + [piece], statuses + [rv], handed + piece, sure)
    ensures rv == BucketFailure ==> !AllSucceeded(statuses + [rv])
  {
    JoinNext(start, pieces, piece);
    OnTrackNext(body, |start|, calls, pieces, statuses, handed, piece, rv);
    AllSucceededNext(statuses, rv);
  }

  /** One call, with a buffer of its own. */
  method ReadPiece(request: WorkerRequest, call: Call, ghost body: seq<Byte>) returns (piece: seq<Byte>, rv: Status)
    requires request.InStep(body) && Live(request.filter.answer) && call.size <= call.capacity
    modifies request`seenEos, request`bytesRead, request.filter
    ensures request.bytesRead == old(request.bytesRead) + |piece|
    ensures old(request.filter.handed) + piece <= body
    ensures request.seenEos ==> old(request.filter.handed) + piece == body
    ensures rv != BucketFailure ==>
              request.InStep(body) && request.filter.handed == old(request.filter.handed) + piece
    ensures rv == Success ==> |piece| == Min(call.size, |body| - |old(request.filter.handed)|)
    ensures NeverFails(request.filter.answer) ==> rv != FilterFailure
    ensures AlwaysReadable(request.filter.answer) ==> rv != BucketFailure
  {
    var buffer := new Byte[call.capacity](_ => 0);
    var read;
    ghost var log, seen;
    read, rv, log, seen := request.ReadEntityBody(buffer, call.size, body);
    piece := buffer[..read];
  }

  predicate Without(statuses: seq<Status>, failure: Status) {
    forall i :: 0 <= i < |statuses| ==> statuses[i] != failure
  }

  /** All calls are made, each gets what it asks for as far as there is any, and the client has the body as far as it
      asked for it. */
  ghost predicate EveryCallSucceeds(preread: seq<Byte>, body: seq<Byte>, calls: seq<Call>, pieces: seq<seq<Byte>>, statuses: seq<Status>) {
    && |pieces| == |statuses| == |calls|
    && (forall i :: 0 <= i < |calls| ==> statuses[i] == Success)
    && |preread| <= |body|
    && pieces == Take(body[|preread|..], calls)
    && preread + Join(pieces) == body[..Min(|preread| + Asked(calls), |body|)]
  }

  /** Calls that stop only at a failed bucket read, and fail in neither way, were all made and all succeeded. */
  lemma AllSucceed(preread: seq<Byte>, body: seq<Byte>, calls: seq<Call>, pieces: seq<seq<Byte>>, statuses: seq<Status>)
    requires Without(statuses, FilterFailure) && Without(statuses, BucketFailure) && |pieces| == |statuses| <= |calls|
    requires |statuses| < |calls| ==> statuses != [] && statuses[|statuses| - 1] == BucketFailure
    requires preread <= body && (AllSucceeded(statuses) ==> pieces == Take(body[|preread|..], calls))
    ensures EveryCallSucceeds(preread, body, calls, pieces, statuses)
  {
    TakenInAll(preread, body, calls);
  }

  predicate AllSucceeded(statuses: seq<Status>) {
    forall i :: 0 <= i < |statuses| ==> statuses[i] == Success
  }

  lemma AllSucceededNext(statuses: seq<Status>, rv: Status)
    ensures AllSucceeded(statuses + [rv]) <==> AllSucceeded(statuses) && rv == Success
  {
    assert forall i :: 0 <= i < |statuses| ==> (statuses + [rv])[i] == statuses[i];
    assert (statuses + [rv])[|statuses|] == rv;
  }

  /** The pieces so far are those of the reference, which goes on from `handed`. */
  ghost predicate TakenSoFar(body: seq<Byte>, from: nat, calls: seq<Call>, pieces: seq<seq<Byte>>, handed: nat) {
    && |pieces| <= |calls|
    && from <= |body| && handed <= |body|
    && Take(body[from..], calls) == pieces + Take(body[handed..], calls[|pieces|..])
  }

  lemma TakenNext(body: seq<Byte>, from: nat, calls: seq<Call>, pieces: seq<seq<Byte>>, handed: seq<Byte>, piece: seq<Byte>)
    requires TakenSoFar(body, from, calls, pieces, |handed|) && |pieces| < |calls|
    requires handed + piece <= body && |piece| == Min(calls[|pieces|].size, |body| - |handed|)
    ensures TakenSoFar(body, from, calls, pieces + [piece], |handed + piece|)
  {
    var rest := body[|handed|..];
    assert rest[..|piece|] == piece;
    assert rest[|piece|..] == body[|handed + piece|..];
    assert calls[|pieces|..][1..] == calls[|pieces| + 1..];
    Regroup(pieces, [piece], Take(body[|handed + piece|..], calls[|pieces| + 1..]));
  }

  /** As long as no call has failed. */
  ghost predicate OnTrack(body: seq<Byte>, from: nat, calls: seq<Call>, pieces: seq<seq<Byte>>, statuses: seq<Status>, handed: nat) {
    AllSucceeded(statuses) ==> TakenSoFar(body, from, calls, pieces, handed)
  }

  lemma OnTrackNext(body: seq<Byte>, from: nat, calls: seq<Call>, pieces: seq<seq<Byte>>, statuses: seq<Status>,
                    handed: seq<Byte>, piece: seq<Byte>, rv: Status)
    requires OnTrack(body, from, calls, pieces, statuses, |handed|) && |pieces| < |calls|
    requires handed + piece <= body
    requires rv == Success ==> |piece| == Min(calls[|pieces|].size, |body| - |handed|)
    ensures OnTrack(body, from, calls, pieces + [piece], statuses + [rv], |handed + piece|)
  {
    AllSucceededNext(statuses, rv);
    if rv == Success && AllSucceeded(statuses) {
      TakenNext(body, from, calls, pieces, handed, piece);
    }
  }

  lemma JoinNext(preread: seq<Byte>, pieces: seq<seq<Byte>>, piece: seq<Byte>)
    ensures preread + Join(pieces + [piece]) == (preread + Join(pieces)) + piece
  {
  }

  /** The reference loses nothing: its pieces are the body cut short only by what was asked for. */
  lemma {:induction false} TakeIsPrefix(body: seq<Byte>, calls: seq<Call>)
    ensures |Take(body, calls)| == |calls|
    ensures Join(Take(body, calls)) == body[..Min(Asked(calls), |body|)]
  {
    if calls != [] {
      var n := Min(calls[0].size, |body|);
      TakeIsPrefix(body[n..], calls[1..]);
      JoinFront(body[..n], Take(body[n..], calls[1..]));
      PrefixTail(body[..n], body, Asked(calls[1..]));
    }
  }

  lemma TakenInAll(preread: seq<Byte>, body: seq<Byte>, calls: seq<Call>)
    requires preread <= body
    ensures preread + Join(Take(body[|preread|..], calls)) == body[..Min(|preread| + Asked(calls), |body|)]
  {
    TakeIsPrefix(body[|preread|..], calls);
    PrefixTail(preread, body, Asked(calls));
  }

  lemma PrefixTail(preread: seq<Byte>, body: seq<Byte>, asked: nat)
    requires preread <= body
    ensures preread + body[|preread|..][..Min(asked, |body| - |preread|)] == body[..Min(|preread| + asked, |body|)]
  {
  }

  function Asked(calls: seq<Call>): nat {
    if calls == [] then 0 else calls[0].size + Asked(calls[1..])
  }

  lemma {:induction false} JoinFront(piece: seq<Byte>, pieces: seq<seq<Byte>>)
    ensures Join([piece] + pieces) == piece + Join(pieces)
  {
    if pieces == [] {
      assert [piece] + pieces == [piece];
      assert [piece][..0] == [];
      assert Join([]) + piece == piece + Join([]);
    } else {
      var n := |pieces| - 1;
      JoinFront(piece, pieces[..n]);
      assert ([piece] + pieces)[..n + 1] == [piece] + pieces[..n];
      Regroup(piece, Join(pieces[..n]), pieces[n]);
    }
  }
}

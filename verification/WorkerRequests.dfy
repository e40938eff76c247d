/** `WorkerRequest`: the request object's body-reading and response-sending methods over their real fields,
    `Handler` around them, and whole-request reassembly of the body. */
module WorkerRequests {
  import opened HttpStatus
  import opened Text
  import opened Brigades
  import opened EntityBody
  import opened ReadOutcomes
  import opened FileResponse
  import opened Preread
  import C = Completion

  const PREREAD_SIZE := 49152

  /** Buckets of the brigades passed to the output filters; a file bucket is a range of an open file. */
  datatype OutBucket = Memory(bytes: seq<Byte>) | File(file: seq<Byte>, range: FileBucket) | FlushOut | EosOut

  class WorkerRequest {
    const filter: InputFilter
    var prereadBody: array<Byte>
    var seenEos: bool
    var bytesRead: int

    var bodySent: bool
    var status: int
    var output: seq<seq<OutBucket>>
    var completed: bool
    var callback: bool
    var notified: nat

    constructor (filter: InputFilter, status: int)
      ensures this.filter == filter && !seenEos && bytesRead == 0
      ensures fresh(prereadBody)
      ensures Sending() == C.Initial(status).(phase := C.Processing)
    {
      this.filter := filter;
      this.status := status;
      prereadBody := new Byte[0];
      seenEos, bytesRead := false, 0;
      bodySent, output, completed, callback, notified := false, [], false, false, 0;
    }

    // ----- reading the request body -----

    /** The request is in step with a filter that chunks `body`: everything handed out has been counted,
        and the end of the body has been reached if EOS was seen. */
    ghost predicate InStep(body: seq<Byte>)
      reads this, filter
    {
      && filter.Valid()
      && Chunks(filter.answer, body)
      && filter.handed <= body
      && bytesRead == |filter.handed|
      && (seenEos ==> filter.handed == body)
    }

    /** `Handler` up to `ProcessRequest`: one brigade of at most 49152 bytes is taken into `preread_body`, or, if the
        filter fails, `result` is what Handler returns.  A failed bucket read is only logged; the copy then goes on
        with whatever data/len hold.  Over a filter that chunks `body` the request is in step afterwards if the
        preread is complete; if the measured length merely leaves no room for junk, what was copied is still a
        prefix of the body. */
    method Preread(ghost body: seq<Byte>) returns (result: Option<int>, ghost bb0: seq<Bucket>)
      requires filter.Valid() && !seenEos && bytesRead == 0
      modifies this`prereadBody, this`seenEos, this`bytesRead, filter
      ensures filter.Valid() && filter.round == old(filter.round) + 1
      ensures fresh(prereadBody) || prereadBody == old(prereadBody)
      ensures match Ask(filter.answer, old(filter.round), old(filter.pos), 49152)
              case Failed => result == Some(500) && prereadBody == old(prereadBody) && bytesRead == 0 && !seenEos
              case Brigade(bb) => result == None && bb0 == bb && Preloaded(bb)
      ensures result.None? && Complete(bb0) && Chunks(filter.answer, body) && old(filter.handed) == [] ==>
                InStep(body) && prereadBody[..] == filter.handed
      ensures result.None? && NoRoom(bb0) && Chunks(filter.answer, body) && old(filter.handed) == [] ==>
                PrereadCopied(bb0) <= body
    {
      if Chunks(filter.answer, body) && filter.handed == [] {
        FirstBrigade(filter.answer, body, filter.round);
      }
      var r := filter.GetBrigade(PREREAD_SIZE);
      assert [] + ResponsePayload(r) == ResponsePayload(r);
      if r.Failed? {
        return Some(SERVER_ERROR), [];
      }
      bb0 := r.buckets;
      var length := BrigadeLength(r.buckets);
      prereadBody := new Byte[length](_ => 0);
      var total, eos := PrereadCopy(r.buckets, prereadBody);
      bytesRead := total;
      if eos {
        seenEos := true;
      }
      result := None;
    }

    /** The state the preread of brigade `bb` leaves. */
    ghost predicate Preloaded(bb: seq<Bucket>)
      reads this, prereadBody
    {
      prereadBody[..] == PrereadBody(bb) && bytesRead == |PrereadCopied(bb)| && (seenEos <==> Eos in bb)
    }

    /** Reads up to `size` bytes into `buffer`; `rv` is the status the method logs.  An empty buffer is left alone;
        otherwise the call is the one `Outcome` describes, and it copies what it returns.

        In step with a filter that chunks `body`, the bytes returned are the next ones of the body.  The
        request stays in step unless a bucket read fails, and a successful call is a plain take. */
    method ReadEntityBody(buffer: array<Byte>, size: nat, ghost body: seq<Byte>)
      returns (read: nat, rv: Status, ghost log: Log, ghost seen: seq<Byte>)
      requires filter.Valid() && Live(filter.answer) && size <= buffer.Length
      modifies this`seenEos, this`bytesRead, filter, buffer
      ensures filter.Valid()
      ensures read <= size && bytesRead == old(bytesRead) + read
      ensures buffer[read..] == old(buffer[read..])
      ensures filter.round == old(filter.round) + Taken(log) && filter.handed == old(filter.handed) + Handed(log)
      ensures if buffer.Length == 0 then read == 0 && rv == Success && log == Start && seenEos == old(seenEos)
              else
                && Outcome(filter.answer, old(filter.round), old(filter.pos), size, old(seenEos), log, seen, rv, seenEos)
                && read == Min(size, |seen|) && buffer[..read] == seen[..read]
      ensures NeverFails(filter.answer) ==> rv != FilterFailure
      ensures AlwaysReadable(filter.answer) ==> rv != BucketFailure
      ensures old(InStep(body)) ==>
                && old(filter.handed) + buffer[..read] <= body
                && (seenEos ==> old(filter.handed) + buffer[..read] == body)
                && (rv != BucketFailure ==> InStep(body) && filter.handed == old(filter.handed) + buffer[..read])
                && (rv == Success ==> read == Min(size, |body| - |old(filter.handed)|))
    {
      if buffer.Length < 1 {
        assert filter.handed + [] == filter.handed;
        return 0, Success, Start, [];
      }
      var overflow, eos;
      rv, read, overflow, eos, log, seen := InternalReadEntityBody(filter, buffer, size, seenEos, body);
      seenEos := eos;
      bytesRead := bytesRead + read;
      assert buffer[..read] == seen[..read];
      assert overflow == 0 ==> seen[..read] == seen;
    }

    /** `IsEntireEntityBodyIsPreloaded`, as ASP.NET asks it between the preread of `bb`, the first piece of `body`,
        and the first read: a positive answer means that the whole body is in preread_body if the preread was
        complete; it is given also when it was not. */
    method IsEntireEntityBodyIsPreloaded(ghost bb: seq<Bucket>, ghost body: seq<Byte>) returns (preloaded: bool)
      requires Preloaded(bb) && Serves(Brigade(bb), body, 0, PREREAD_SIZE)
      ensures preloaded <==> Eos in bb
      ensures preloaded && Complete(bb) ==> prereadBody[..] == body
      ensures preloaded && NoRoom(bb) ==> prereadBody[..bytesRead] <= body
    {
      NoRoomGivesPrefix(bb);
      return seenEos;
    }

    // ----- sending the response -----

    /** The fields the response side works on, as a state of the completion protocol with no send under way. */
    ghost function Sending(): C.State
      reads this
    {
      C.State(C.Processing, bodySent, status, completed, callback, notified, |output|, 0, 0)
    }

    method SendStatus(statusCode: int)
      modifies this`status
      ensures Sending() == C.Next(old(Sending()), C.SendStatus(statusCode))
      ensures status == statusCode
    {
      status := statusCode;
    }

    method SendResponseFromMemory(data: seq<Byte>, length: nat)
      requires length <= |data|
      modifies this`output, this`bodySent
      ensures length == 0 ==> Sending() == old(Sending()) && output == old(output)
      ensures length != 0 ==>
                && output == old(output) + [[Memory(data[..length]), FlushOut]]
                && Sending() == C.Next(C.Next(old(Sending()), C.PassBrigade), C.MarkSent)
      ensures bodySent <==> old(bodySent) || length != 0
    {
      if length == 0 {
        return;
      }
      output := output + [[Memory(data[..length]), FlushOut]];
      bodySent := true;
    }

    /** `accepted` is the outcome of wrapping the handle of `file`.  The brigade that is passed stands for the bytes
        asked for exactly if the range is split or its length fits `apr_size_t`. */
    method SendResponseFromFile(accepted: bool, offset: int, length: int, requestFileSize: int, sizeRange: int,
                                file: seq<Byte>)
      returns (ghost ranges: seq<FileBucket>)
      requires 0 <= offset && 0 <= length && offset + length < 0x8000_0000_0000_0000
      requires sizeRange > AP_MAX_SENDFILE
      modifies this`output, this`bodySent
      ensures length == 0 ==> Sending() == old(Sending()) && output == old(output)
      ensures length != 0 && !accepted ==>
                && output == old(output)
                && Sending() == C.Next(C.Next(old(Sending()), C.RefuseFile), C.MarkSentAfterRefusal)
      ensures length != 0 && accepted ==>
                && Sending() == C.Next(C.Next(old(Sending()), C.PassBrigade), C.MarkSent)
                && |output| == |old(output)| + 1 && output[..|old(output)|] == old(output)
                && |output[|old(output)|]| == |ranges| + 1
                && (forall i :: 0 <= i < |ranges| ==> output[|old(output)|][i] == File(file, ranges[i]))
                && output[|old(output)|][|ranges|] == FlushOut
                && if requestFileSize > 16777216 then SplitsRange(ranges, offset, length)
                   else ranges == [FileBucket(offset, length % sizeRange)]
      ensures bodySent <==> old(bodySent) || length != 0
      ensures length != 0 && accepted && offset + length <= |file| ==>
                (BytesOf(output[|old(output)|]) == file[offset..offset + length] <==>
                 requestFileSize > 16777216 || length < sizeRange)
    {
      ranges := [];
      if length == 0 {
        return;
      }
      if accepted {
        var bb := FileBuckets(offset, length, requestFileSize, sizeRange);
        ranges := bb;
        output := output + [Files(file, bb) + [FlushOut]];
        if offset + length <= |file| {
          FilesStandFor(file, ranges, offset, length, requestFileSize, sizeRange);
        }
      }
      bodySent := true;
    }

    method FlushResponse(finalFlush: bool)
      modifies this`output, this`bodySent, this`callback, this`notified
      ensures !finalFlush ==> Sending() == old(Sending()) && output == old(output)
      ensures finalFlush ==>
                && output == old(output) + [[EosOut]]
                && Sending() == C.Next(C.Next(C.Next(old(Sending()), C.PassBrigade), C.MarkSent), C.FlushNotifies)
      ensures bodySent <==> old(bodySent) || finalFlush
    {
      if finalFlush {
        output := output + [[EosOut]];
        bodySent := true;
        if callback {
          notified := notified + 1;
          callback := false;
        }
      }
    }

    method EndOfRequest()
      modifies this`callback, this`notified, this`completed
      ensures Sending() == C.Next(old(Sending()), C.EndOfRequest)
      ensures completed
    {
      if callback {
        notified := notified + 1;
        callback := false;
      }
      completed := true;
    }

    // ----- Handler -----

    method PerformFile(accepted: bool, offset: int, length: int, requestFileSize: int, sizeRange: int, file: seq<Byte>)
      returns (ghost events: seq<C.Event>)
      requires 0 <= offset && 0 <= length && offset + length < 0x8000_0000_0000_0000
      requires sizeRange > AP_MAX_SENDFILE
      modifies this`output, this`bodySent
      ensures C.Leads(old(Sending()), events, Sending())
      ensures bodySent <==> old(bodySent) || length > 0
      ensures old(output) <= output
      ensures offset + length <= |file| && (requestFileSize > 16777216 || length < sizeRange) ==>
                AllBytes(output) == AllBytes(old(output)) + if accepted then file[offset..offset + length] else []
    {
      ghost var s := Sending();
      ghost var ranges := SendResponseFromFile(accepted, offset, length, requestFileSize, sizeRange, file);
      if length != 0 && accepted {
        assert output == old(output) + [output[|old(output)|]];
        OneMoreBrigade(old(output), output[|old(output)|]);
      }
      if length == 0 {
        events := [];
      } else if accepted {
        events := [C.PassBrigade, C.MarkSent];
        C.SendLeads(s);
      } else {
        events := [C.RefuseFile, C.MarkSentAfterRefusal];
        C.RefusalLeads(s);
      }
    }

    method PerformMemory(data: seq<Byte>) returns (ghost events: seq<C.Event>)
      modifies this`output, this`bodySent
      ensures C.Leads(old(Sending()), events, Sending())
      ensures bodySent <==> old(bodySent) || |data| > 0
      ensures output == old(output) + if data == [] then [] else [[Memory(data), FlushOut]]
      ensures AllBytes(output) == AllBytes(old(output)) + data
    {
      ghost var s := Sending();
      SendResponseFromMemory(data, |data|);
      events := if data == [] then [] else [C.PassBrigade, C.MarkSent];
      if data != [] {
        C.SendLeads(s);
        OneMoreBrigade(old(output), [Memory(data), FlushOut]);
        SmallBrigades(data);
      }
    }

    method PerformFlush(finalFlush: bool) returns (ghost events: seq<C.Event>)
      modifies this`output, this`bodySent, this`callback, this`notified
      ensures C.Leads(old(Sending()), events, Sending())
      ensures bodySent <==> old(bodySent) || finalFlush
      ensures output == old(output) + if finalFlush then [[EosOut]] else []
      ensures AllBytes(output) == AllBytes(old(output)) + []
    {
      ghost var s := Sending();
      FlushResponse(finalFlush);
      events := if finalFlush then [C.PassBrigade, C.MarkSent, C.FlushNotifies] else [];
      if finalFlush {
        C.FlushLeads(s);
        OneMoreBrigade(old(output), [EosOut]);
        SmallBrigades([]);
      }
    }

    /** One call the runtime makes on the request. */
    method Perform(op: Op) returns (ghost events: seq<C.Event>)
      requires Possible(op)
      modifies this`status, this`output, this`bodySent, this`callback, this`notified, this`completed
      ensures C.Leads(old(Sending()), events, Sending())
      ensures status == if op.SetStatus? then op.code else old(status)
      ensures bodySent <==> old(bodySent) || Sends(op)
      ensures completed <==> old(completed) || op.End?
      ensures old(output) <= output
      ensures op.SendMemory? ==> output == old(output) + if op.data == [] then [] else [[Memory(op.data), FlushOut]]
      ensures op.FlushOutput? ==> output == old(output) + if op.finalFlush then [[EosOut]] else []
      ensures op.SetStatus? || op.End? ==> output == old(output)
      ensures Fits(op) ==> AllBytes(output) == AllBytes(old(output)) + BytesAsked(op)
    {
      ghost var s := Sending();
      match op {
        case SetStatus(code) =>
          SendStatus(code);
          events := [C.SendStatus(code)];
          C.LeadsOne(s, C.SendStatus(code));
        case SendMemory(data) =>
          events := PerformMemory(data);
        case SendFile(accepted, offset, length, requestFileSize, sizeRange, file) =>
          events := PerformFile(accepted, offset, length, requestFileSize, sizeRange, file);
        case FlushOutput(finalFlush) =>
          events := PerformFlush(finalFlush);
        case End =>
          EndOfRequest();
          events := [C.EndOfRequest];
          C.LeadsOne(s, C.EndOfRequest);
      }
    }

    method PerformAll(ops: seq<Op>) returns (ghost events: seq<C.Event>)
      requires forall op <- ops :: Possible(op)
      modifies this`status, this`output, this`bodySent, this`callback, this`notified, this`completed
      ensures C.Leads(old(Sending()), events, Sending())
      ensures status == StatusAfter(ops, old(status))
      ensures bodySent <==> old(bodySent) || exists op <- ops :: Sends(op)
      ensures completed <==> old(completed) || End in ops
      ensures old(output) <= output
      ensures AllFit(ops) ==> AllBytes(output) == AllBytes(old(output)) + AllAsked(ops)
    {
      events := [];
      for i := 0 to |ops|
        invariant C.Leads(old(Sending()), events, Sending())
        invariant status == StatusAfter(ops[..i], old(status))
        invariant bodySent <==> old(bodySent) || exists op <- ops[..i] :: Sends(op)
        invariant completed <==> old(completed) || End in ops[..i]
        invariant old(output) <= output
        invariant AllFit(ops) ==> AllBytes(output) == AllBytes(old(output)) + AllAsked(ops[..i])
      {
        assert ops[..i + 1] == ops[..i] + [ops[i]] && ops[..i + 1][..i] == ops[..i];
        ghost var before, more := Sending(), [];
        more := Perform(ops[i]);
        if AllFit(ops) { AskedNext(AllBytes(old(output)), ops, i); }
        C.LeadsOn(old(Sending()), events, before, more, Sending());
        events := events + more;
      }
      assert ops[..|ops|] == ops;
    }

    /** `Handler`, with a runtime that makes the calls `ops` inside ProcessRequest, which then throws or not.  There is
        no result if the wait for EndOfRequest does not end.  `events` is what happened, as a run of the completion
        protocol. */
    method Handler(ops: seq<Op>, throws: bool) returns (result: Option<int>, ghost events: seq<C.Event>, ghost end: C.State)
      requires filter.Valid() && !seenEos && bytesRead == 0
      requires Sending() == C.Initial(status).(phase := C.Processing)
      requires forall op <- ops :: Possible(op)
      modifies this, filter
      ensures C.Leads(C.Initial(old(status)), events, end)
      ensures match result
              case Some(code) => end.phase.Returned? && end.phase.code == code
              case None => end.phase == C.Waiting && !end.completed
      ensures Ask(filter.answer, old(filter.round), old(filter.pos), 49152).Failed? ==>
                result == Some(500) && output == old(output) && status == old(status)
      ensures Ask(filter.answer, old(filter.round), old(filter.pos), 49152).Brigade? ==>
                && (result.Some? <==> End in ops)
                && (result.Some? ==>
                      result.value == if exists op <- ops :: Sends(op) then 0
                                      else if throws then 500
                                      else StatusAfter(ops, old(status)))
                && status == (if throws && !exists op <- ops :: Sends(op) then 500 else StatusAfter(ops, old(status)))
                && (AllFit(ops) ==> AllBytes(output) == AllBytes(old(output)) + AllAsked(ops))
      ensures end.status == status && end.bodySent == bodySent
    {
      ghost var start := C.Initial(status);
      var failed;
      ghost var bb;
      failed, bb := Preread([]);
      if failed.Some? {
        events, end := [C.PrereadFails], C.Next(start, C.PrereadFails);
        C.LeadsOne(start, C.PrereadFails);
        return failed, events, end;
      }
      C.LeadsOne(start, C.PrereadDone);
      ghost var before := Sending();
      ghost var calls := PerformAll(ops);
      ghost var after := Sending();
      if throws {
        if !bodySent {
          status := SERVER_ERROR;
        }
      }
      ghost var rest;
      rest, end := C.Ending(after, throws);
      C.LeadsOn(before, calls, after, rest, end);
      C.LeadsOn(start, [C.PrereadDone], before, calls + rest, end);
      events := [C.PrereadDone] + (calls + rest);
      if !completed {
        return None, events, end;
      }
      if !bodySent {
        return Some(status), events, end;
      } else {
        return Some(OK), events, end;
      }
    }
  }

  /** A call the runtime makes on a request while it processes it. */
  datatype Op =
    | SetStatus(code: int)
    | SendMemory(data: seq<Byte>)
    | SendFile(accepted: bool, offset: int, length: int, requestFileSize: int, sizeRange: int, file: seq<Byte>)
    | FlushOutput(finalFlush: bool)
    | End

  predicate Possible(op: Op) {
    op.SendFile? ==>
      0 <= op.offset && 0 <= op.length && op.offset + op.length < 0x8000_0000_0000_0000 && op.sizeRange > AP_MAX_SENDFILE
  }

  /** The call counts as sending the body, also when the file handle is refused. */
  predicate Sends(op: Op) {
    match op
    case SendMemory(data) => |data| > 0
    case SendFile(_, _, length, _, _, _) => length > 0
    case FlushOutput(finalFlush) => finalFlush
    case _ => false
  }

  /** A file send inside its file whose length survives the cast, or that is split. */
  predicate Fits(op: Op) {
    op.SendFile? ==>
      && 0 <= op.offset && 0 <= op.length && op.offset + op.length <= |op.file|
      && (op.requestFileSize > 16777216 || op.length < op.sizeRange)
  }

  /** The response bytes a call asks for. */
  function BytesAsked(op: Op): seq<Byte>
    requires Fits(op)
  {
    match op
    case SendMemory(data) => data
    case SendFile(accepted, offset, length, _, _, file) => if accepted then file[offset..offset + length] else []
    case _ => []
  }

  predicate AllFit(ops: seq<Op>) {
    forall i :: 0 <= i < |ops| ==> Fits(ops[i])
  }

  function AllAsked(ops: seq<Op>): seq<Byte>
    requires AllFit(ops)
  {
    if ops == [] then [] else AllAsked(ops[..|ops| - 1]) + BytesAsked(ops[|ops| - 1])
  }

  lemma AskedNext(sent: seq<Byte>, ops: seq<Op>, i: nat)
    requires AllFit(ops) && i < |ops|
    ensures sent + AllAsked(ops[..i]) + BytesAsked(ops[i]) == sent + AllAsked(ops[..i + 1])
  {
    assert ops[..i + 1][..i] == ops[..i] && ops[..i + 1][i] == ops[i];
    Regroup(sent, AllAsked(ops[..i]), BytesAsked(ops[i]));
  }

  function StatusAfter(ops: seq<Op>, status: int): int {
    if ops == [] then status
    else if ops[|ops| - 1].SetStatus? then ops[|ops| - 1].code
    else StatusAfter(ops[..|ops| - 1], status)
  }

  /** The preread of the first brigade of a chunked body. */
  lemma FirstBrigade(answer: Behaviour, body: seq<Byte>, round: nat)
    requires Chunks(answer, body)
    ensures var r := Ask(answer, round, 0, PREREAD_SIZE);
            r.Brigade? ==>
              && Payload(r.buckets) <= body
              && (Eos in r.buckets ==> Payload(r.buckets) == body)
              && (NoRoom(r.buckets) ==> PrereadCopied(r.buckets) <= body)
              && (Complete(r.buckets) ==> PrereadBody(r.buckets) == PrereadCopied(r.buckets) == Payload(r.buckets))
  {
    var r := Ask(answer, round, 0, PREREAD_SIZE);
    assert Serves(r, body, 0, PREREAD_SIZE);
    if r.Brigade? {
      NoRoomGivesPrefix(r.buckets);
    }
  }

  function Files(file: seq<Byte>, ranges: seq<FileBucket>): (r: seq<OutBucket>)
    ensures |r| == |ranges| && forall i :: 0 <= i < |ranges| ==> r[i] == File(file, ranges[i])
  {
    seq(|ranges|, i requires 0 <= i < |ranges| => File(file, ranges[i]))
  }

  /** The response bytes a brigade stands for. */
  function BytesOf(sent: seq<OutBucket>): seq<Byte> {
    if sent == [] then []
    else
      (match sent[0]
       case Memory(bytes) => bytes
       case File(file, range) =>
         if 0 <= range.start && 0 <= range.length && range.start + range.length <= |file|
         then file[range.start..range.start + range.length] else []
       case FlushOut => []
       case EosOut => []) + BytesOf(sent[1..])
  }

  /** The response bytes of all brigades, in the order they were passed. */
  function AllBytes(output: seq<seq<OutBucket>>): seq<Byte> {
    if output == [] then [] else AllBytes(output[..|output| - 1]) + BytesOf(output[|output| - 1])
  }

  lemma OneMoreBrigade(output: seq<seq<OutBucket>>, sent: seq<OutBucket>)
    ensures AllBytes(output + [sent]) == AllBytes(output) + BytesOf(sent)
  {
  }

  /** A brigade of one bucket, or of memory and a flush. */
  lemma SmallBrigades(bytes: seq<Byte>)
    ensures BytesOf([Memory(bytes), FlushOut]) == bytes && BytesOf([EosOut]) == []
  {
    assert [Memory(bytes), FlushOut][1..] == [FlushOut] && [FlushOut][1..] == [] && [EosOut][1..] == [];
  }

  lemma {:induction false} BytesOfFiles(file: seq<Byte>, ranges: seq<FileBucket>)
    requires InFile(ranges, |file|)
    ensures BytesOf(Files(file, ranges) + [FlushOut]) == Denote(file, ranges)
  {
    var sent := Files(file, ranges) + [FlushOut];
    if ranges == [] {
      assert sent == [FlushOut] && sent[1..] == [];
    } else {
      BytesOfFiles(file, ranges[1..]);
      assert sent[1..] == Files(file, ranges[1..]) + [FlushOut];
      assert ranges[0] in ranges;
    }
  }

  lemma FilesStandFor(file: seq<Byte>, ranges: seq<FileBucket>, offset: int, length: int, requestFileSize: int, sizeRange: int)
    requires 0 <= offset && 0 < length && offset + length <= |file| && 0 < sizeRange
    requires if requestFileSize > 16777216 then SplitsRange(ranges, offset, length)
             else ranges == [FileBucket(offset, length % sizeRange)]
    ensures BytesOf(Files(file, ranges) + [FlushOut]) == file[offset..offset + length] <==>
            requestFileSize > 16777216 || length < sizeRange
  {
    DenotesExactly(file, ranges, offset, length, requestFileSize > 16777216, sizeRange);
    BytesOfFiles(file, ranges);
  }

  /** A finished copy into a zeroed array is preread_body. */
  lemma CopiedIsPrereadBody(before: seq<Byte>, now: seq<Byte>, bb: seq<Bucket>, bytesRead: nat, overflow: nat)
    requires |before| == BrigadeLength(bb) && forall i :: 0 <= i < |before| ==> before[i] == 0
    requires Copied(before, now, |before|, Unchecked(bb), bytesRead, overflow)
    ensures now == PrereadBody(bb) && bytesRead == |PrereadCopied(bb)|
  {
  }

  /** The preread's copy loop. */
  method PrereadCopy(bb0: seq<Bucket>, buffer: array<Byte>) returns (bytesRead: nat, eos: bool)
    requires buffer.Length == BrigadeLength(bb0) && forall i :: 0 <= i < buffer.Length ==> buffer[i] == 0
    modifies buffer
    ensures buffer[..] == PrereadBody(bb0) && bytesRead == |PrereadCopied(bb0)|
    ensures eos <==> Eos in bb0
  {
    var bb, size := bb0, buffer.Length;
    var overflow: nat := 0;
    ghost var seen: seq<Byte> := [];
    bytesRead, eos := 0, false;
    while bb != []
      invariant seen + Unchecked(bb) == Unchecked(bb0)
      invariant Eos in bb <==> Eos in bb0
      invariant size + bytesRead == buffer.Length
      invariant Copied(old(buffer[..]), buffer[..], buffer.Length, seen, bytesRead, overflow)
      invariant !eos
      decreases Reads(bb)
    {
      if bb[0].Eos? {
        assert bb[0] in bb;
        eos := true;
        break;
      }
      if bb[0].Flush? {
        FlushStep(bb);
        bb := bb[1..];
        continue;
      }
      var data := UncheckedRead(bb[0].content);
      UncheckedStep(bb);
      ReadShortens(bb);
      bb := AfterRead(bb);
      bytesRead, overflow := CopyBucket(data, buffer, size, bytesRead, overflow, old(buffer[..]), buffer.Length, seen);
      size := buffer.Length - bytesRead;
      Regroup(seen, data, Unchecked(bb));
      seen := seen + data;
    }
    assert seen + [] == seen;
    CopiedIsPrereadBody(old(buffer[..]), buffer[..], bb0, bytesRead, overflow);
  }
}

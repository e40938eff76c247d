/** `InternalReadEntityBody`: the nested loops that copy the request body into a caller's buffer. */
module EntityBody {
  import opened Brigades
  import opened ReadOutcomes

  const HUGE_STRING_LEN := 8192

  /** `before` with `data` written at position `at`. */
  function Overlay(before: seq<Byte>, at: nat, data: seq<Byte>): (r: seq<Byte>)
    requires at + |data| <= |before|
    ensures |r| == |before|
  {
    before[..at] + data + before[at + |data|..]
  }

  lemma OverlayExtends(before: seq<Byte>, at: nat, a: seq<Byte>, b: seq<Byte>)
    requires at + |a| + |b| <= |before|
    ensures Overlay(Overlay(before, at, a), at + |a|, b) == Overlay(before, at, a + b)
  {
  }

  lemma OverlayNothing(before: seq<Byte>, at: nat, data: seq<Byte>)
    requires at <= |before| && data == []
    ensures Overlay(before, at, data) == before
  {
  }

  /** memcpy(curptr, data, len) */
  method CopyIn(buffer: array<Byte>, at: nat, data: seq<Byte>, len: nat)
    requires len <= |data| && at + len <= buffer.Length
    modifies buffer
    ensures buffer[..] == Overlay(old(buffer[..]), at, data[..len])
  {
    for i := 0 to len
      invariant buffer[..] == Overlay(old(buffer[..]), at, data[..i])
    {
      buffer[at + i] := data[i];
    }
  }

  /** What the copying loops have done so far to a buffer that was `before`: of the bytes `seen` they copied
      as many as fit into the first `size`, in order, counted the rest as overflow and wrote nothing else. */
  ghost predicate Copied(before: seq<Byte>, now: seq<Byte>, size: nat, seen: seq<Byte>, bytesRead: nat, overflow: nat) {
    && size <= |before|
    && bytesRead == Min(size, |seen|)
    && bytesRead + overflow == |seen|
    && now == Overlay(before, 0, seen[..bytesRead])
  }

  /** Byte by byte. */
  lemma CopiedMeans(before: seq<Byte>, now: seq<Byte>, size: nat, seen: seq<Byte>, bytesRead: nat, overflow: nat)
    requires Copied(before, now, size, seen, bytesRead, overflow)
    ensures |now| == |before| && bytesRead == (if |seen| <= size then |seen| else size) && bytesRead + overflow == |seen|
    ensures forall i :: 0 <= i < bytesRead ==> now[i] == seen[i]
    ensures forall i :: bytesRead <= i < |before| ==> now[i] == before[i]
  {
  }

  lemma CopiedMore(before: seq<Byte>, now: seq<Byte>, size: nat, seen: seq<Byte>, bytesRead: nat, overflow: nat,
                   data: seq<Byte>, len: nat)
    requires Copied(before, now, size, seen, bytesRead, overflow)
    requires len == Min(size - bytesRead, |data|)
    ensures Copied(before, Overlay(now, bytesRead, data[..len]), size,
                   seen + data, bytesRead + len, overflow + |data| - len)
  {
    OverlayExtends(before, 0, seen[..bytesRead], data[..len]);
    assert len > 0 ==> seen[..bytesRead] == seen;
    assert (seen + data)[..bytesRead + len] == seen[..bytesRead] + data[..len];
  }

  /** One data bucket: the clipped copy.  What does not fit is counted, not written. */
  method CopyBucket(data: seq<Byte>, buffer: array<Byte>, size: nat, bytesRead0: nat, overflow0: nat,
                    ghost before: seq<Byte>, ghost size0: nat, ghost seen: seq<Byte>)
    returns (bytesRead: nat, overflow: nat)
    requires Copied(before, buffer[..], size0, seen, bytesRead0, overflow0) && size + bytesRead0 == size0
    modifies buffer
    ensures Copied(before, buffer[..], size0, seen + data, bytesRead, overflow)
    ensures bytesRead == bytesRead0 + Min(size, |data|)
  {
    bytesRead, overflow := bytesRead0, overflow0;
    var len := |data|;
    if len > size {
      overflow := overflow + (len - size);
      len := size;
    }
    CopiedMore(before, buffer[..], size0, seen, bytesRead0, overflow0, data, len);
    if size != 0 {
      CopyIn(buffer, bytesRead, data, len);
      bytesRead := bytesRead + len;
    } else {
      OverlayNothing(buffer[..], bytesRead, data[..len]);
    }
  }

  /** The inner loop: empties one brigade into the buffer, carrying on from `bytesRead0` bytes copied with
      room for `size` more.  `piece` is the payload it read: all up to EOS or to the first bucket that cannot be read. */
  method ConsumeBrigade(bb0: seq<Bucket>, buffer: array<Byte>, size: nat, bytesRead0: nat, overflow0: nat,
                        ghost before: seq<Byte>, ghost size0: nat, ghost seen: seq<Byte>)
    returns (rv: Status, bytesRead: nat, overflow: nat, eos: bool, ghost piece: seq<Byte>)
    requires Copied(before, buffer[..], size0, seen, bytesRead0, overflow0) && size + bytesRead0 == size0
    modifies buffer
    ensures rv == if Readable(bb0) then Success else BucketFailure
    ensures piece == Sound(bb0) <= Payload(bb0)
    ensures rv == Success ==> piece == Payload(bb0)
    ensures eos <==> rv == Success && Eos in bb0
    ensures Copied(before, buffer[..], size0, seen + piece, bytesRead, overflow)
    ensures bytesRead == bytesRead0 + Min(size, |piece|)
  {
    var bb, room := bb0, size;
    bytesRead, overflow, piece := bytesRead0, overflow0, [];
    SoundFirst(bb0);
    assert seen + [] == seen;
    while bb != []
      invariant piece + Sound(bb) == Sound(bb0)
      invariant Eos in bb <==> Eos in bb0
      invariant Readable(bb) <==> Readable(bb0)
      invariant room + bytesRead == size0
      invariant Copied(before, buffer[..], size0, seen + piece, bytesRead, overflow)
      invariant bytesRead == bytesRead0 + Min(size, |piece|)
      decreases Reads(bb)
    {
      if bb[0].Eos? {
        assert Sound(bb) == [] && bb[0] in bb && piece + [] == piece;
        return Success, bytesRead, overflow, true, piece;
      }
      if bb[0].Flush? {
        FlushStep(bb);
        bb := bb[1..];
        continue;
      }
      if bb[0].content.Unreadable? {
        assert Sound(bb) == [] && piece + [] == piece;
        return BucketFailure, bytesRead, overflow, false, piece;
      }
      var data := bb[0].content.bytes;
      ReadStep(bb);
      bb := AfterRead(bb);
      bytesRead, overflow := CopyBucket(data, buffer, room, bytesRead, overflow, before, size0, seen + piece);
      room := size + bytesRead0 - bytesRead;
      Regroup(piece, data, Sound(bb));
      Regroup(seen, piece, data);
      piece := piece + data;
    }
    assert piece + [] == piece;
    return Success, bytesRead, overflow, false, piece;
  }

  // ----- the outer loop -----

  /** Asks the filter for what is still wanted. */
  method AskFilter(filter: InputFilter, size: nat, ghost round0: nat, ghost pos0: nat, ghost size0: nat, ghost log: Log)
    returns (r: Response)
    requires filter.Valid() && filter.round == round0 + Taken(log) && filter.pos == pos0 + |Handed(log)| && size == Room(size0, log)
    modifies filter
    ensures filter.Valid() && filter.round == old(filter.round) + 1
    ensures r == Ask(filter.answer, old(filter.round), old(filter.pos), Min(8192, size))
    ensures IsNext(filter.answer, round0, pos0, size0, log, r)
    ensures filter.handed == old(filter.handed) + ResponsePayload(r)
    ensures Bounded(filter.answer) ==> |ResponsePayload(r)| <= Min(8192, size)
  {
    var sizeOne := if HUGE_STRING_LEN <= size then HUGE_STRING_LEN else size;
    r := filter.GetBrigade(sizeOne);
  }

  /** One turn of the outer loop: ask the filter for a brigade and empty it. */
  method ReadRound(filter: InputFilter, buffer: array<Byte>, size: nat, bytesRead0: nat, overflow0: nat,
                   ghost before: seq<Byte>, ghost size0: nat, ghost seen: seq<Byte>,
                   ghost round0: nat, ghost pos0: nat, ghost log: Log)
    returns (rv: Status, bytesRead: nat, overflow: nat, eos: bool, ghost r: Response)
    requires filter.Valid()
    requires filter.round == round0 + Taken(log) && filter.pos == pos0 + |Handed(log)| && size == Room(size0, log)
    requires Copied(before, buffer[..], size0, seen, bytesRead0, overflow0) && size + bytesRead0 == size0
    modifies filter, buffer
    ensures filter.Valid() && filter.round == old(filter.round) + 1
    ensures r == Ask(filter.answer, old(filter.round), old(filter.pos), Min(8192, size))
    ensures IsNext(filter.answer, round0, pos0, size0, log, r)
    ensures filter.handed == old(filter.handed) + ResponsePayload(r)
    ensures rv == StatusOf(r)
    ensures rv == FilterFailure <==> r.Failed?
    ensures rv == BucketFailure <==> r.Brigade? && !Readable(r.buckets)
    ensures eos <==> rv == Success && Eos in r.buckets
    ensures Copied(before, buffer[..], size0, seen + Readout(r), bytesRead, overflow)
    ensures bytesRead == bytesRead0 + Min(size, |Readout(r)|)
    ensures Bounded(filter.answer) ==> |Readout(r)| <= Min(8192, size)
  {
    var answer := AskFilter(filter, size, round0, pos0, size0, log);
    r := answer;
    ReadoutFirst(r);
    if answer.Failed? {
      assert seen + [] == seen;
      return FilterFailure, bytesRead0, overflow0, false, r;
    }
    ghost var piece;
    rv, bytesRead, overflow, eos, piece :=
      ConsumeBrigade(answer.buckets, buffer, size, bytesRead0, overflow0, before, size0, seen);
  }

  /** The outer loop. */
  method ReadRounds(filter: InputFilter, buffer: array<Byte>, size0: nat, seenEos: bool)
    returns (rv: Status, bytesRead: nat, overflow: nat, eos: bool, ghost log: Log, ghost seen: seq<Byte>)
    requires filter.Valid() && Live(filter.answer)
    requires size0 <= buffer.Length
    modifies filter, buffer
    ensures filter.Valid()
    ensures filter.round == old(filter.round) + Taken(log) && filter.handed == old(filter.handed) + Handed(log)
    ensures Outcome(filter.answer, old(filter.round), old(filter.pos), size0, seenEos, log, seen, rv, eos)
    ensures Copied(old(buffer[..]), buffer[..], size0, seen, bytesRead, overflow)
  {
    ghost var handed, round := filter.handed, filter.round;
    var size: nat := size0;
    rv, bytesRead, overflow, eos, log, seen := Success, 0, 0, seenEos, Start, [];
    ghost var until: nat := NextProductive(filter.answer, round, |handed|, size0, Start);
    assert handed + [] == handed;
    var again := true;
    while again
      invariant filter.Valid()
      invariant filter.round == round + Taken(log) && filter.handed == handed + Handed(log)
      invariant Copied(old(buffer[..]), buffer[..], size0, seen, bytesRead, overflow)
      invariant size + bytesRead == size0
      invariant again ==>
                  && eos == seenEos && Going(filter.answer, round, |handed|, size0, seenEos, log, seen, size)
                  && Awaits(filter.answer, round, |handed|, size0, log, until)
      invariant !again ==> Outcome(filter.answer, round, |handed|, size0, seenEos, log, seen, rv, eos)
      decreases again, size, if size > 0 then until - filter.round else 0
    {
      var n, over, sawEos;
      ghost var r;
      rv, n, over, sawEos, r :=
        ReadRound(filter, buffer, size, bytesRead, overflow, old(buffer[..]), size0, seen, round, |handed|, log);
      until := RoundAwaits(filter.answer, round, |handed|, size0, log, until, r);
      OneMoreAnswer(filter.answer, round, |handed|, size0, seenEos, log, seen, size, r);
      Regroup(handed, Handed(log), ResponsePayload(r));
      seen, log := seen + Readout(r), Then(log, r);
      size := size + bytesRead - n;
      bytesRead, overflow := n, over;
      if rv != Success {
        return;
      }
      if sawEos {
        eos := true;
      }
      again := !eos && size > 0;
    }
  }

  /** Reads up to `size0` bytes into the buffer, as `Outcome` says: `log` holds the filter's answers and `seen` the
      payload that went through the copy.

      Whatever the filter does, the call conserves: it copies the first min(size0, |seen|) bytes of what it
      read, counts the rest as overflow and touches nothing else; over a filter that never hands out more than
      requested there is no overflow; it fails only if the filter or a bucket read does.  Over a filter that chunks
      `body` it is "take the next size0 bytes": the delivered bytes extend what was handed out before to a longer
      prefix of the body, nothing overflows, and a successful call delivers exactly min(size0, bytes left). */
  method InternalReadEntityBody(filter: InputFilter, buffer: array<Byte>, size0: nat, seenEos: bool, ghost body: seq<Byte>)
    returns (rv: Status, bytesRead: nat, overflow: nat, eos: bool, ghost log: Log, ghost seen: seq<Byte>)
    requires filter.Valid() && Live(filter.answer)
    requires size0 <= buffer.Length
    modifies filter, buffer
    ensures filter.Valid()
    ensures filter.round == old(filter.round) + Taken(log) && filter.handed == old(filter.handed) + Handed(log)
    ensures Outcome(filter.answer, old(filter.round), old(filter.pos), size0, seenEos, log, seen, rv, eos)
    ensures Copied(old(buffer[..]), buffer[..], size0, seen, bytesRead, overflow)
    ensures rv != BucketFailure ==> filter.handed == old(filter.handed) + seen
    ensures old(filter.handed) + seen <= filter.handed
    ensures NeverFails(filter.answer) ==> rv != FilterFailure
    ensures AlwaysReadable(filter.answer) ==> rv != BucketFailure
    ensures Bounded(filter.answer) ==> overflow == 0
    ensures Chunks(filter.answer, body) && old(filter.handed) <= body && (seenEos ==> old(filter.handed) == body) ==>
              && filter.handed <= body
              && (eos ==> filter.handed == body)
              && overflow == 0
              && (rv == Success ==> bytesRead == Min(size0, |body| - |old(filter.handed)|))
  {
    rv, bytesRead, overflow, eos, log, seen := ReadRounds(filter, buffer, size0, seenEos);
    CallDone(filter.answer, body, old(filter.handed), old(filter.round), size0, seenEos, log, seen, rv, eos);
  }
}

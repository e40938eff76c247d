/** Bucket brigades as the request-body reader meets them, and the input filter that supplies them. */
module Brigades {

  type Byte = bv8

  /** What `apr_bucket_read` finds in a data bucket. */
  datatype Content =
    | Held(bytes: seq<Byte>)
      /** The read yields `bytes` and inserts a new bucket with the remainder behind this one. */
    | Morphing(bytes: seq<Byte>, rest: Content)
      /** The read fails.  `lost` is the stretch of the body the bucket stood for, `sized` says whether its
          length is known without reading, `junk` is what the caller's data/len variables then hold. */
    | Unreadable(lost: seq<Byte>, sized: bool, junk: seq<Byte>)

  datatype Bucket = Data(content: Content) | Flush | Eos

  /** The answer of one `ap_get_brigade` call. */
  datatype Response = Failed | Brigade(buckets: seq<Bucket>)

  datatype Status = Success | FilterFailure | BucketFailure

  function Min(a: int, b: int): int {
    if a <= b then a else b
  }

  lemma Regroup<T>(a: seq<T>, b: seq<T>, c: seq<T>)
    ensures a + (b + c) == (a + b) + c
  {
  }

  // ----- contents -----

  function ContentBytes(c: Content): seq<Byte> {
    match c
    case Held(bytes) => bytes
    case Morphing(bytes, rest) => bytes + ContentBytes(rest)
    case Unreadable(lost, _, _) => lost
  }

  predicate ReadableContent(c: Content) {
    match c
    case Held(_) => true
    case Morphing(_, rest) => ReadableContent(rest)
    case Unreadable(_, _, _) => false
  }

  /** How many reads it takes to get to the end of a content. */
  function ContentReads(c: Content): nat {
    if c.Morphing? then 1 + ContentReads(c.rest) else 1
  }

  // ----- brigades -----

  /** The stretch of the body a brigade stands for: its data buckets up to the first EOS. */
  function Payload(bb: seq<Bucket>): seq<Byte> {
    if bb == [] || bb[0].Eos? then []
    else (if bb[0].Data? then ContentBytes(bb[0].content) else []) + Payload(bb[1..])
  }

  function ResponsePayload(r: Response): seq<Byte> {
    if r.Failed? then [] else Payload(r.buckets)
  }

  /** Every data bucket up to the first EOS can be read. */
  predicate Readable(bb: seq<Bucket>) {
    bb == [] || bb[0].Eos? || ((bb[0].Data? ==> ReadableContent(bb[0].content)) && Readable(bb[1..]))
  }

  /** The payload up to the first bucket that cannot be read. */
  function Sound(bb: seq<Bucket>): seq<Byte> {
    if bb == [] || bb[0].Eos? then []
    else if bb[0].Flush? then Sound(bb[1..])
    else SoundContent(bb[0].content) + if ReadableContent(bb[0].content) then Sound(bb[1..]) else []
  }

  function SoundContent(c: Content): seq<Byte> {
    match c
    case Held(bytes) => bytes
    case Morphing(bytes, rest) => bytes + SoundContent(rest)
    case Unreadable(_, _, _) => []
  }

  /** No data bucket follows the first EOS. */
  predicate EosLast(bb: seq<Bucket>) {
    if bb == [] then true
    else if bb[0].Eos? then forall b <- bb[1..] :: !b.Data?
    else EosLast(bb[1..])
  }

  function Reads(bb: seq<Bucket>): nat {
    if bb == [] then 0
    else (if bb[0].Data? then ContentReads(bb[0].content) else 1) + Reads(bb[1..])
  }

  /** The brigade once its first bucket is read and deleted: a read may have put a remainder behind that bucket. */
  function AfterRead(bb: seq<Bucket>): seq<Bucket>
    requires bb != [] && bb[0].Data?
  {
    (if bb[0].content.Morphing? then [Data(bb[0].content.rest)] else []) + bb[1..]
  }

  // ----- what the preread makes of a brigade -----

  /** `apr_brigade_length` with read_all: the data in the brigade, up to its end or to a bucket of unknown
      length that cannot be read. */
  function BrigadeLength(bb: seq<Bucket>): nat {
    if bb == [] then 0
    else if !bb[0].Data? then BrigadeLength(bb[1..])
    else ContentLength(bb[0].content) + if Measurable(bb[0].content) then BrigadeLength(bb[1..]) else 0
  }

  function ContentLength(c: Content): nat {
    match c
    case Held(bytes) => |bytes|
    case Morphing(bytes, rest) => |bytes| + ContentLength(rest)
    case Unreadable(lost, sized, _) => if sized then |lost| else 0
  }

  predicate Measurable(c: Content) {
    match c
    case Held(_) => true
    case Morphing(_, rest) => Measurable(rest)
    case Unreadable(_, sized, _) => sized
  }

  /** The bytes a copy loop gets that, like the preread's, carries on after a failed read
      with whatever its data/len variables hold. */
  function Unchecked(bb: seq<Bucket>): seq<Byte> {
    if bb == [] || bb[0].Eos? then []
    else (if bb[0].Data? then UncheckedContent(bb[0].content) else []) + Unchecked(bb[1..])
  }

  function UncheckedContent(c: Content): seq<Byte> {
    match c
    case Held(bytes) => bytes
    case Morphing(bytes, rest) => bytes + UncheckedContent(rest)
    case Unreadable(_, _, junk) => junk
  }

  function UncheckedRead(c: Content): seq<Byte> {
    if c.Unreadable? then c.junk else c.bytes
  }

  /** A read keeps the EOS where it is and always makes progress, although it may put a new bucket into the brigade. */
  lemma ReadShortens(bb: seq<Bucket>)
    requires bb != [] && bb[0].Data?
    ensures Eos in bb <==> Eos in AfterRead(bb)
    ensures Reads(AfterRead(bb)) < Reads(bb)
  {
    var after := AfterRead(bb);
    assert bb == [bb[0]] + bb[1..];
    if bb[0].content.Morphing? {
      assert after[1..] == bb[1..];
    } else {
      assert after == bb[1..];
    }
  }

  lemma UncheckedStep(bb: seq<Bucket>)
    requires bb != [] && bb[0].Data?
    ensures Unchecked(bb) == UncheckedRead(bb[0].content) + Unchecked(AfterRead(bb))
  {
    var c, after := bb[0].content, AfterRead(bb);
    if c.Morphing? {
      assert after[0] == Data(c.rest) && after[1..] == bb[1..];
      Regroup(c.bytes, UncheckedContent(c.rest), Unchecked(bb[1..]));
    } else {
      assert after == bb[1..];
    }
  }

  /** Measuring adds up the data and stops at a bucket of unknown length that cannot be read; reading a bucket
      first makes no difference. */
  lemma MeasuredStepwise(bb: seq<Bucket>)
    requires bb != []
    ensures !bb[0].Data? ==> BrigadeLength(bb) == BrigadeLength(bb[1..])
    ensures bb[0].Data? ==>
              BrigadeLength(bb) ==
              match bb[0].content
              case Held(bytes) => |bytes| + BrigadeLength(bb[1..])
              case Morphing(bytes, rest) => |bytes| + BrigadeLength([Data(rest)] + bb[1..])
              case Unreadable(lost, sized, _) => if sized then |lost| + BrigadeLength(bb[1..]) else 0
  {
    if bb[0].Data? && bb[0].content.Morphing? {
      assert ([Data(bb[0].content.rest)] + bb[1..])[1..] == bb[1..];
    }
  }

  lemma ReadableContentIsItself(c: Content)
    requires ReadableContent(c)
    ensures UncheckedContent(c) == ContentBytes(c) && ContentLength(c) == |ContentBytes(c)| && Measurable(c)
  {
  }

  /** With every bucket readable, the unchecked copy is the payload and fits the measured length,
      exactly if EOS comes last. */
  lemma {:induction false} ReadableIsUnchecked(bb: seq<Bucket>)
    requires Readable(bb)
    ensures Unchecked(bb) == Payload(bb)
    ensures |Payload(bb)| <= BrigadeLength(bb)
    ensures EosLast(bb) ==> |Payload(bb)| == BrigadeLength(bb)
  {
    if bb == [] {
    } else if bb[0].Eos? {
      if EosLast(bb) { NoDataNoLength(bb[1..]); }
    } else {
      if bb[0].Data? { ReadableContentIsItself(bb[0].content); }
      ReadableIsUnchecked(bb[1..]);
    }
  }

  lemma SoundContentFirst(c: Content)
    ensures SoundContent(c) <= ContentBytes(c) && SoundContent(c) <= UncheckedContent(c)
    ensures |SoundContent(c)| <= ContentLength(c)
    ensures ReadableContent(c) ==> SoundContent(c) == ContentBytes(c) == UncheckedContent(c) && Measurable(c)
    ensures !ReadableContent(c) && !Measurable(c) ==> |SoundContent(c)| == ContentLength(c)
  {
  }

  lemma PrefixAfter(a: seq<Byte>, b: seq<Byte>, c: seq<Byte>)
    requires b <= c
    ensures a + b <= a + c
  {
  }

  /** Everything starts with the sound part, and the measured length covers it. */
  lemma {:induction false} SoundFirst(bb: seq<Bucket>)
    ensures Sound(bb) <= Payload(bb) && Sound(bb) <= Unchecked(bb) && |Sound(bb)| <= BrigadeLength(bb)
    ensures Readable(bb) ==> Sound(bb) == Payload(bb) == Unchecked(bb)
  {
    if bb != [] && !bb[0].Eos? {
      SoundFirst(bb[1..]);
      if bb[0].Data? {
        var c := bb[0].content;
        SoundContentFirst(c);
        if ReadableContent(c) {
          PrefixAfter(SoundContent(c), Sound(bb[1..]), Payload(bb[1..]));
          PrefixAfter(SoundContent(c), Sound(bb[1..]), Unchecked(bb[1..]));
        }
      }
    }
  }

  lemma {:induction false} NoDataNoLength(bb: seq<Bucket>)
    requires forall b <- bb :: !b.Data?
    ensures BrigadeLength(bb) == 0
  {
    if bb != [] { NoDataNoLength(bb[1..]); }
  }

  // ----- reading, step by step -----

  /** Reading consumes one piece of the payload. */
  lemma ReadStep(bb: seq<Bucket>)
    requires bb != [] && bb[0].Data? && !bb[0].content.Unreadable?
    ensures Payload(bb) == bb[0].content.bytes + Payload(AfterRead(bb))
    ensures Sound(bb) == bb[0].content.bytes + Sound(AfterRead(bb))
    ensures Readable(bb) <==> Readable(AfterRead(bb))
    ensures Eos in bb <==> Eos in AfterRead(bb)
    ensures Reads(AfterRead(bb)) < Reads(bb)
  {
    ReadShortens(bb);
    var c, after := bb[0].content, AfterRead(bb);
    if c.Morphing? {
      assert after[0] == Data(c.rest) && after[1..] == bb[1..];
      Regroup(c.bytes, ContentBytes(c.rest), Payload(bb[1..]));
      Regroup(c.bytes, SoundContent(c.rest), if ReadableContent(c.rest) then Sound(bb[1..]) else []);
    } else {
      assert after == bb[1..];
    }
  }

  lemma FlushStep(bb: seq<Bucket>)
    requires bb != [] && bb[0].Flush?
    ensures Payload(bb) == Payload(bb[1..]) && Sound(bb) == Sound(bb[1..]) && Unchecked(bb) == Unchecked(bb[1..])
    ensures Eos in bb <==> Eos in bb[1..]
    ensures Readable(bb) <==> Readable(bb[1..])
    ensures Reads(bb[1..]) < Reads(bb)
  {
  }

  // ----- the input filter -----

  /** A filter's behaviour: its answer to the n-th call, when it has already handed out `pos` bytes
      and `request` bytes are asked for.  Any run of any filter is described by some such function. */
  type Behaviour = (nat, nat, nat) -> Response

  function Ask(answer: Behaviour, round: nat, pos: nat, request: nat): Response {
    answer(round, pos, request)
  }

  /** The response hands out a next piece of `body`, no larger than requested, and ends it with EOS only at its end. */
  ghost predicate Serves(r: Response, body: seq<Byte>, pos: nat, request: nat) {
    r.Brigade? ==>
      var piece := Payload(r.buckets);
      && |piece| <= request
      && pos + |piece| <= |body|
      && piece == body[pos..pos + |piece|]
      && (Eos in r.buckets ==> pos + |piece| == |body|)
      && EosLast(r.buckets)
  }

  /** The filter cuts `body` into brigades in some way. */
  ghost predicate Chunks(answer: Behaviour, body: seq<Byte>) {
    forall round: nat, pos: nat, request: nat :: pos <= |body| ==> Serves(Ask(answer, round, pos, request), body, pos, request)
  }

  /** The filter never hands out more than it is asked for, whatever else it does. */
  ghost predicate Bounded(answer: Behaviour) {
    forall round: nat, pos: nat, request: nat :: |ResponsePayload(Ask(answer, round, pos, request))| <= request
  }

  /** No call returns an error. */
  ghost predicate NeverFails(answer: Behaviour) {
    forall round: nat, pos: nat, request: nat :: Ask(answer, round, pos, request).Brigade?
  }

  /** No brigade holds a bucket that cannot be read, up to its EOS. */
  ghost predicate AlwaysReadable(answer: Behaviour) {
    forall round: nat, pos: nat, request: nat ::
      Ask(answer, round, pos, request).Brigade? ==> Readable(Ask(answer, round, pos, request).buckets)
  }

  predicate Productive(r: Response) {
    r.Failed? || Eos in r.buckets || Payload(r.buckets) != []
  }

  ghost predicate ProductiveLater(answer: Behaviour, round: nat, pos: nat, request: nat) {
    exists later: nat :: round <= later && Productive(Ask(answer, later, pos, request))
  }

  /** Asked for something again and again, the filter at some point gives data, EOS or an error. */
  ghost predicate Live(answer: Behaviour) {
    forall round: nat, pos: nat, request: nat :: 0 < request ==> ProductiveLater(answer, round, pos, request)
  }

  /** The filter stack below the request: `pos` bytes of payload, namely `handed`, have left it so far. */
  class InputFilter {
    const answer: Behaviour
    var round: nat
    var pos: nat
    ghost var handed: seq<Byte>

    ghost predicate Valid()
      reads this
    {
      pos == |handed|
    }

    constructor (answer: Behaviour)
      ensures Valid() && this.answer == answer && round == 0 && handed == []
    {
      this.answer := answer;
      round, pos, handed := 0, 0, [];
    }

    method GetBrigade(request: nat) returns (r: Response)
      requires Valid()
      modifies this
      ensures Valid()
      ensures r == Ask(answer, old(round), old(pos), request)
      ensures round == old(round) + 1
      ensures handed == old(handed) + ResponsePayload(r)
    {
      r := Ask(answer, round, pos, request);
      round := round + 1;
      pos := pos + |ResponsePayload(r)|;
      handed := handed + ResponsePayload(r);
    }
  }

  /** The filter that answers with as much as `cut` says, of what is asked for and left, and EOS at the end. */
  function CutFilter(body: seq<Byte>, cut: (nat, nat, nat) -> nat): Behaviour {
    (round: nat, pos: nat, request: nat) =>
      if pos >= |body| then Brigade([Eos])
      else
        var n := Min(cut(round, pos, request), Min(request, |body| - pos));
        Brigade([Data(Held(body[pos..pos + n])), if pos + n == |body| then Eos else Flush])
  }

  /** Every body, cut in any way, has such a filter, so that what is said of these filters is said of something. */
  lemma EveryBodyIsChunked(body: seq<Byte>, cut: (nat, nat, nat) -> nat)
    requires forall round, pos, request :: 0 < cut(round, pos, request)
    ensures var answer := CutFilter(body, cut);
            Chunks(answer, body) && Bounded(answer) && Live(answer) && NeverFails(answer) && AlwaysReadable(answer)
  {
    var answer := CutFilter(body, cut);
    forall round: nat, pos: nat, request: nat
      ensures pos <= |body| ==> Serves(Ask(answer, round, pos, request), body, pos, request)
      ensures |ResponsePayload(Ask(answer, round, pos, request))| <= request
      ensures Ask(answer, round, pos, request).Brigade? && Readable(Ask(answer, round, pos, request).buckets)
      ensures 0 < request ==> Productive(Ask(answer, round, pos, request))
    {
      CutAnswer(body, cut, round, pos, request);
    }
    forall round: nat, pos: nat, request: nat | 0 < request ensures ProductiveLater(answer, round, pos, request) {
      assert Productive(Ask(answer, round, pos, request));
    }
  }

  lemma CutAnswer(body: seq<Byte>, cut: (nat, nat, nat) -> nat, round: nat, pos: nat, request: nat)
    requires 0 < cut(round, pos, request)
    ensures var r := Ask(CutFilter(body, cut), round, pos, request);
            && (pos <= |body| ==> Serves(r, body, pos, request))
            && |ResponsePayload(r)| <= request
            && r.Brigade? && Readable(r.buckets)
            && (0 < request ==> Productive(r))
  {
    var bb := Ask(CutFilter(body, cut), round, pos, request).buckets;
    if pos >= |body| {
      assert bb == [Eos] && Payload(bb) == [] && bb[0] in bb;
    } else {
      var n := Min(cut(round, pos, request), Min(request, |body| - pos));
      assert bb[1..] == [bb[1]];
      MarkerAlone(bb[1]);
      assert Payload(bb) == body[pos..pos + n] + [];
      assert pos + n == |body| ==> bb[1] in bb;
    }
  }

  lemma MarkerAlone(b: Bucket)
    requires !b.Data?
    ensures Payload([b]) == [] && Readable([b]) && EosLast([b])
  {
    assert [b][1..] == [];
  }

  /** A chunking filter that has handed out a prefix of the body keeps doing so, within the request. */
  lemma ServesNext(answer: Behaviour, body: seq<Byte>, handed: seq<Byte>, round: nat, request: nat, r: Response)
    requires Chunks(answer, body) && handed <= body
    requires r == Ask(answer, round, |handed|, request)
    ensures && handed + ResponsePayload(r) <= body
            && |ResponsePayload(r)| <= request
            && (r.Brigade? && Eos in r.buckets ==> handed + ResponsePayload(r) == body)
            && (handed == body ==> ResponsePayload(r) == [])
            && (r.Brigade? ==> EosLast(r.buckets))
  {
    assert Serves(r, body, |handed|, request);
  }
}

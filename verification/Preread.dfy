/** What the preread makes of its brigade: `Handler` measures the brigade, allocates that much and copies, and
    when a bucket cannot be read it goes on with whatever the data and length variables hold.  Over arbitrary such
    contents ("junk") this says exactly when the result is still a prefix of the payload, and when it is all of it. */
module Preread {
  import opened Brigades

  /** The copied bytes. */
  function PrereadCopied(bb: seq<Bucket>): seq<Byte> {
    Unchecked(bb)[..Min(BrigadeLength(bb), |Unchecked(bb)|)]
  }

  /** The whole of preread_body: what was not copied stays zero. */
  function PrereadBody(bb: seq<Bucket>): (r: seq<Byte>)
    ensures |r| == BrigadeLength(bb) && PrereadCopied(bb) <= r
  {
    PrereadCopied(bb) + seq(BrigadeLength(bb) - |PrereadCopied(bb)|, _ => 0)
  }

  /** The measured length leaves no room for junk. */
  predicate NoRoom(bb: seq<Bucket>) {
    Readable(bb) || BrigadeLength(bb) <= |Sound(bb)|
  }

  /** And no payload is lost either. */
  predicate Complete(bb: seq<Bucket>) {
    Readable(bb) || (BrigadeLength(bb) <= |Sound(bb)| && |Payload(bb)| <= |Sound(bb)|)
  }

  /** The same brigade when every failed read leaves `junk` behind. */
  function Rejunk(bb: seq<Bucket>, junk: seq<Byte>): seq<Bucket> {
    if bb == [] then []
    else [if bb[0].Data? then Data(RejunkContent(bb[0].content, junk)) else bb[0]] + Rejunk(bb[1..], junk)
  }

  function RejunkContent(c: Content, junk: seq<Byte>): Content {
    match c
    case Held(_) => c
    case Morphing(bytes, rest) => Morphing(bytes, RejunkContent(rest, junk))
    case Unreadable(lost, sized, _) => Unreadable(lost, sized, junk)
  }

  // ----- what junk changes -----

  lemma RejunkContentKeeps(c: Content, junk: seq<Byte>)
    ensures var c' := RejunkContent(c, junk);
            && ContentBytes(c') == ContentBytes(c) && SoundContent(c') == SoundContent(c)
            && ContentLength(c') == ContentLength(c) && Measurable(c') == Measurable(c)
            && ReadableContent(c') == ReadableContent(c)
            && (ReadableContent(c) ==> c' == c)
            && (!ReadableContent(c) ==> UncheckedContent(c') == SoundContent(c) + junk)
  {
  }

  /** The junk changes nothing but the unchecked copy, and there it follows the sound part. */
  lemma {:induction false} RejunkKeeps(bb: seq<Bucket>, junk: seq<Byte>)
    ensures var bb' := Rejunk(bb, junk);
            && Payload(bb') == Payload(bb) && Sound(bb') == Sound(bb) && BrigadeLength(bb') == BrigadeLength(bb)
            && Readable(bb') == Readable(bb)
            && (!Readable(bb) ==> Sound(bb) + junk <= Unchecked(bb'))
  {
    if bb != [] {
      var bb' := Rejunk(bb, junk);
      assert bb'[1..] == Rejunk(bb[1..], junk);
      RejunkKeeps(bb[1..], junk);
      if bb[0].Data? {
        var c := bb[0].content;
        RejunkContentKeeps(c, junk);
        if !Readable(bb) && ReadableContent(c) {
          SoundContentFirst(c);
          PrefixAfter(SoundContent(c), Sound(bb[1..]) + junk, Unchecked(bb'[1..]));
          assert Sound(bb) + junk == SoundContent(c) + (Sound(bb[1..]) + junk);
        }
      }
    }
  }

  // ----- when the preread is right -----

  /** With no room for junk the copy is a prefix of the payload; complete, it fills preread_body with the payload. */
  lemma NoRoomGivesPrefix(bb: seq<Bucket>)
    ensures NoRoom(bb) ==> PrereadCopied(bb) <= Payload(bb)
    ensures Complete(bb) && EosLast(bb) ==> PrereadBody(bb) == PrereadCopied(bb) == Payload(bb)
  {
    SoundFirst(bb);
    if Readable(bb) {
      ReadableIsUnchecked(bb);
    }
  }

  /** With room, some junk shows in front of, or behind, the payload. */
  lemma RoomShowsJunk(bb: seq<Bucket>) returns (junk: seq<Byte>)
    requires !NoRoom(bb)
    ensures !(PrereadCopied(Rejunk(bb, junk)) <= Payload(bb))
  {
    SoundFirst(bb);
    var n, payload := |Sound(bb)|, Payload(bb);
    junk := [if n < |payload| && payload[n] == 0 then 1 else 0];
    RejunkKeeps(bb, junk);
    var copied := PrereadCopied(Rejunk(bb, junk));
    assert (Sound(bb) + junk)[n] == junk[0];
    assert |copied| > n && copied[n] == junk[0];
  }

  /** Whatever a failed read leaves behind, the preread is a prefix of the payload: this holds exactly when every
      bucket can be read, or the measured length ends at the first one that cannot. */
  lemma PrereadIsPrefixExactly(bb: seq<Bucket>)
    ensures (forall junk :: PrereadCopied(Rejunk(bb, junk)) <= Payload(bb)) <==> NoRoom(bb)
  {
    if NoRoom(bb) {
      forall junk ensures PrereadCopied(Rejunk(bb, junk)) <= Payload(bb) {
        RejunkKeeps(bb, junk);
        NoRoomGivesPrefix(Rejunk(bb, junk));
      }
    } else {
      var junk := RoomShowsJunk(bb);
    }
  }

  /** A brigade that serves a body to its EOS: whatever a failed read leaves behind, preread_body is the whole body,
      exactly when every bucket can be read, or the measured length and the payload both end at the first one that
      cannot. */
  lemma EntireBodyPrereadExactly(bb: seq<Bucket>, body: seq<Byte>, request: nat)
    requires Serves(Brigade(bb), body, 0, request) && Eos in bb
    ensures (forall junk :: PrereadBody(Rejunk(bb, junk)) == body) <==> Complete(bb)
  {
    assert Payload(bb) == body;
    if Complete(bb) {
      forall junk ensures PrereadBody(Rejunk(bb, junk)) == body {
        CompleteGivesBody(bb, junk);
      }
    } else {
      var junk := MissingShows(bb);
      assert PrereadBody(Rejunk(bb, junk)) != body;
    }
  }

  lemma CompleteGivesBody(bb: seq<Bucket>, junk: seq<Byte>)
    requires Complete(bb) && EosLast(bb)
    ensures PrereadBody(Rejunk(bb, junk)) == Payload(bb)
  {
    RejunkKeeps(bb, junk);
    RejunkKeepsEos(bb, junk);
    NoRoomGivesPrefix(Rejunk(bb, junk));
  }

  lemma MissingShows(bb: seq<Bucket>) returns (junk: seq<Byte>)
    requires !Complete(bb)
    ensures PrereadBody(Rejunk(bb, junk)) != Payload(bb)
  {
    SoundFirst(bb);
    if NoRoom(bb) {
      junk := [];
      RejunkKeeps(bb, junk);
    } else {
      junk := RoomShowsJunk(bb);
    }
  }

  lemma {:induction false} RejunkKeepsKinds(bb: seq<Bucket>, junk: seq<Byte>)
    ensures |Rejunk(bb, junk)| == |bb|
    ensures forall i :: 0 <= i < |bb| ==> Rejunk(bb, junk)[i].Data? == bb[i].Data?
  {
    if bb != [] {
      RejunkKeepsKinds(bb[1..], junk);
      assert forall i :: 1 <= i < |bb| ==> Rejunk(bb, junk)[i] == Rejunk(bb[1..], junk)[i - 1];
    }
  }

  lemma {:induction false} RejunkKeepsEos(bb: seq<Bucket>, junk: seq<Byte>)
    requires EosLast(bb)
    ensures EosLast(Rejunk(bb, junk))
  {
    if bb != [] {
      var bb' := Rejunk(bb, junk);
      assert bb'[1..] == Rejunk(bb[1..], junk);
      if bb[0].Eos? {
        RejunkKeepsKinds(bb[1..], junk);
        forall b | b in bb'[1..] ensures !b.Data? {
          var i :| 0 <= i < |bb| - 1 && bb'[1..][i] == b;
          assert bb[1..][i] in bb[1..];
        }
      } else {
        RejunkKeepsEos(bb[1..], junk);
      }
    }
  }

  /** The first bucket that cannot be read has no known length. */
  predicate FailsUnsized(bb: seq<Bucket>) {
    bb != [] && !bb[0].Eos? &&
    if bb[0].Data? && !ReadableContent(bb[0].content) then !Measurable(bb[0].content) else FailsUnsized(bb[1..])
  }

  /** Then there is no room, so the preread ends where the read failed. */
  lemma UnsizedFailureLeavesNoRoom(bb: seq<Bucket>)
    requires FailsUnsized(bb)
    ensures !Readable(bb) && BrigadeLength(bb) == |Sound(bb)| && NoRoom(bb)
    ensures PrereadBody(bb) == Sound(bb)
  {
    UnsizedLength(bb);
    SoundFirst(bb);
  }

  lemma {:induction false} UnsizedLength(bb: seq<Bucket>)
    requires FailsUnsized(bb)
    ensures !Readable(bb) && BrigadeLength(bb) == |Sound(bb)|
  {
    if bb[0].Data? {
      SoundContentFirst(bb[0].content);
      if ReadableContent(bb[0].content) {
        ReadableContentIsItself(bb[0].content);
        UnsizedLength(bb[1..]);
      }
    } else {
      UnsizedLength(bb[1..]);
    }
  }

  // ----- two prereads that are wrong -----

  /** A bucket of known length that cannot be read: its place in preread_body is taken by something else. */
  lemma PrereadNotPrefix()
    ensures var bb := [Data(Unreadable([97], true, [98]))];
            Payload(bb) == [97] && PrereadBody(bb) == PrereadCopied(bb) == [98]
  {
    var c := Unreadable([97], true, [98]);
    var bb := [Data(c)];
    assert bb[1..] == [];
    assert Unchecked(bb) == UncheckedContent(c) + [] == [98];
    assert Payload(bb) == ContentBytes(c) + [] == [97];
    assert BrigadeLength(bb) == 1;
  }

  /** A bucket of unknown length that cannot be read, then EOS: the body counts as preloaded and is missing. */
  lemma PreloadedButMissing()
    ensures var bb := [Data(Unreadable([97], false, [])), Eos];
            Serves(Brigade(bb), [97], 0, 49152) && Eos in bb && PrereadBody(bb) == []
  {
    var c := Unreadable([97], false, []);
    var bb := [Data(c), Eos];
    assert bb[1..] == [Eos] && [Eos][1..] == [];
    assert Payload(bb) == ContentBytes(c) + [] == [97];
    assert BrigadeLength(bb) == 0;
    assert bb[1] == Eos;
  }
}

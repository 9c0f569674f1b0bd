/**
 Where a packet ends in a stream of bytes: the client's own frame scanner, its agreement with
 the parser's header reader, and the fact that packets form a prefix-free code.
 */
module MqttFraming {
  import opened Basics
  import opened RemainingLength
  import opened MqttMessages

  datatype FrameInfo =
    | NotYet
    | Malformed
    | Complete(size: nat)

  /** The verdict on the first packet of `data`. */
  function FirstFrame(data: seq<byte>): (info: FrameInfo)
    ensures info.Complete? ==> 2 <= info.size <= |data|
  {
    if |data| < 2 then NotYet
    else
      match ScanLength(data[1..])
      case NeedMore => NotYet
      case TooLong => Malformed
      case Length(value, size) => if |data| < 1 + size + value then NotYet else Complete(1 + size + value)
  }

  method MqttFrameInfo(data: seq<byte>) returns (info: FrameInfo)
    ensures info == FirstFrame(data)
  {
    if |data| < 2 {
      return NotYet;
    }
    var offset: nat := 1;
    var multiplier: u32 := 1;
    var remainingLength: u32 := 0;
    var more := true;
    ghost var s := data[1..];
    ReadingStarts(s);
    while more
      invariant 1 <= offset <= |data| && offset <= 5
      invariant more ==> Reading(s, data[offset..], remainingLength, multiplier, offset - 1)
      invariant !more ==> ScanLength(s) == Length(remainingLength, offset - 1)
      decreases more, 5 - offset
    {
      if offset >= |data| {
        return NotYet;
      }
      var encodedByte := data[offset];
      assert data[offset..][1..] == data[offset + 1..];
      // The multiplier is advanced here also after the last digit, where it is not read again.
      remainingLength, multiplier :=
        AddDigit(remainingLength, multiplier, encodedByte, s, data[offset..], offset - 1);
      offset := offset + 1;
      if encodedByte < 128 {
        more := false;
      } else if multiplier > 128 * 128 * 128 {
        return Malformed;
      }
    }
    var totalSize := offset + remainingLength;
    if |data| < totalSize {
      return NotYet;
    }
    return Complete(totalSize);
  }

  // ----- agreement with the parser ------------------------------------------------------

  /**
   The two remaining-length decoders agree: behind a legal first byte, the scanner's three
   verdicts are exactly the parser's success, its length error, and its want of bytes.
   */
  lemma DecodersAgree(data: seq<byte>)
    requires |data| >= 2 && CONNECT <= data[0] / 16 <= DISCONNECT
    requires FlagsAllowed(data[0] / 16, data[0] % 16)
    ensures FirstFrame(data).Complete? <==> ParseHeader(data).Ok?
    ensures FirstFrame(data).Malformed? <==>
              ParseHeader(data).Err? && ParseHeader(data).error in {LengthTooLong, LengthTruncated} && |data| >= 5
    ensures FirstFrame(data).NotYet? <==>
              ParseHeader(data).Err? && (ParseHeader(data).error == Incomplete || |data| < 5)
  {
    if ScanLength(data[1..]).NeedMore? {
      ScanWaiting(data[1..], MAX_LENGTH_BYTES);
    } else if ScanLength(data[1..]).TooLong? {
      ScanTooLong(data[1..], MAX_LENGTH_BYTES);
    }
  }

  lemma {:induction false} ScanTooLong(s: seq<byte>, budget: nat)
    requires budget > 0 && Scan(s, budget).TooLong?
    ensures |s| >= budget
    decreases budget
  {
    if budget > 1 {
      ScanTooLong(s[1..], budget - 1);
    }
  }

  /**
   On the slice the scanner cuts, the parser never reports a length error, and the body is
   everything after the header.
   */
  lemma SliceParses(data: seq<byte>)
    requires FirstFrame(data).Complete?
    ensures var frame := data[..FirstFrame(data).size];
            && FirstFrame(frame) == Complete(|frame|)
            && match ParseHeader(frame)
               case Err(error) => error == BadType || error == BadFlags
               case Ok(p) => && p.body == frame[|frame| - |p.body|..]
                             && |frame| == 1 + ScanLength(frame[1..]).size + |p.body|
  {
    var size := FirstFrame(data).size;
    var frame := data[..size];
    var scan := ScanLength(data[1..]);
    ScanPrefix(data[1..], MAX_LENGTH_BYTES, size - 1);
    assert frame[1..] == data[1..][..size - 1];
  }

  /** A scan only looks at the bytes it counts. */
  lemma {:induction false} ScanPrefix(s: seq<byte>, budget: nat, keep: nat)
    requires budget > 0 && Scan(s, budget).Length? && Scan(s, budget).size <= keep <= |s|
    ensures Scan(s[..keep], budget) == Scan(s, budget)
    decreases budget
  {
    if s[0] >= 128 {
      assert s[..keep][1..] == s[1..][..keep - 1];
      ScanPrefix(s[1..], budget - 1, keep - 1);
    }
  }

  // ----- a prefix-free code -------------------------------------------------------------

  /** Once there is a verdict, more bytes never change it. */
  lemma FramingPrefixStable(data: seq<byte>, extra: seq<byte>)
    requires !FirstFrame(data).NotYet?
    ensures FirstFrame(data + extra) == FirstFrame(data)
  {
    ScanStable(data[1..], extra, MAX_LENGTH_BYTES);
    assert (data + extra)[1..] == data[1..] + extra;
  }

  predicate IsFrame(frame: seq<byte>) {
    FirstFrame(frame) == Complete(|frame|)
  }

  predicate AllFrames(frames: seq<seq<byte>>) {
    forall k :: 0 <= k < |frames| ==> IsFrame(frames[k])
  }

  /** Every packet the encoder makes is exactly one frame. */
  lemma PrintedIsFrame(kind: PacketType, flags: byte, body: seq<byte>)
    requires flags < 16 && |body| <= MAX_LENGTH
    ensures IsFrame(Frame(kind, flags, body))
  {
    var frame := Frame(kind, flags, body);
    assert frame[1..] == LengthBytes(|body|) + body;
    RemainingLengthRoundTrip(|body|, body);
  }

  lemma PrefixFree(frame: seq<byte>, frame': seq<byte>)
    requires IsFrame(frame) && IsFrame(frame') && frame <= frame'
    ensures frame == frame'
  {
    var extra := frame'[|frame|..];
    assert frame' == frame + extra;
    FramingPrefixStable(frame, extra);
  }

  /** Cuts a stream into whole frames and what is left. */
  function Split(s: seq<byte>): (r: (seq<seq<byte>>, seq<byte>))
    decreases |s|
  {
    match FirstFrame(s)
    case Complete(size) => var (frames, rest) := Split(s[size..]); ([s[..size]] + frames, rest)
    case _ => ([], s)
  }

  lemma {:induction false} SplitSound(s: seq<byte>)
    ensures var (frames, rest) := Split(s);
            AllFrames(frames) && !FirstFrame(rest).Complete? && Flatten(frames) + rest == s
    decreases |s|
  {
    hide IsFrame;
    if FirstFrame(s).Complete? {
      var size := FirstFrame(s).size;
      SplitSound(s[size..]);
      SliceIsFrame(s);
      var (frames, rest) := Split(s[size..]);
      FramesCons(s[..size], frames, rest);
      assert s[..size] + s[size..] == s;
    } else {
      assert Flatten([]) + s == s;
    }
  }

  /** What the scanner cuts off is a frame. */
  lemma SliceIsFrame(data: seq<byte>)
    requires FirstFrame(data).Complete?
    ensures IsFrame(data[..FirstFrame(data).size])
  {
    SliceParses(data);
  }

  /** One more frame in front of a sequence of frames and a rest. */
  lemma FramesCons(first: seq<byte>, frames: seq<seq<byte>>, rest: seq<byte>)
    ensures Flatten([first] + frames) + rest == first + (Flatten(frames) + rest)
    ensures IsFrame(first) && AllFrames(frames) ==> AllFrames([first] + frames)
  {
    hide IsFrame;
    assert ([first] + frames)[1..] == frames;
    assert forall k :: 0 < k < |[first] + frames| ==> ([first] + frames)[k] == frames[k - 1];
    Assoc(first, Flatten(frames), rest);
  }

  /** A stream has only one cut into frames and an unfinished rest: the one Split finds. */
  lemma {:induction false} SplitUnique(frames: seq<seq<byte>>, rest: seq<byte>)
    requires AllFrames(frames) && !FirstFrame(rest).Complete?
    ensures Split(Flatten(frames) + rest) == (frames, rest)
  {
    hide IsFrame;
    if frames == [] {
      assert Flatten(frames) + rest == rest;
    } else {
      var first, later := frames[0], frames[1..];
      SplitUnique(later, rest);
      FramesCons(first, later, rest);
      assert frames == [first] + later;
      SplitCons(first, Flatten(later) + rest);
    }
  }

  /** Cutting a frame with a stream behind it cuts off that frame first. */
  lemma SplitCons(frame: seq<byte>, stream: seq<byte>)
    requires IsFrame(frame)
    ensures Split(frame + stream) == ([frame] + Split(stream).0, Split(stream).1)
  {
    FramingPrefixStable(frame, stream);
    assert (frame + stream)[..|frame|] == frame && (frame + stream)[|frame|..] == stream;
  }

  /** When what is left over is no frame yet, the next frame of the stream has not come in full. */
  lemma NextIsCut(all: seq<seq<byte>>, n: nat, left: seq<byte>, more: seq<byte>)
    requires AllFrames(all) && n < |all| && FirstFrame(left).NotYet?
    requires Flatten(all[..n]) + left + more == Flatten(all)
    ensures |Flatten(all[..n]) + left| < |Flatten(all[..n + 1])|
  {
    var next := all[n];
    FlattenConcat(all[..n], all[n..]);
    assert all == all[..n] + all[n..] && all[..n + 1] == all[..n] + [next];
    FlattenSnoc(all[..n], next);
    FlattenConcat([next], all[n + 1..]);
    assert all[n..] == [next] + all[n + 1..];
    FlattenOne(next);
    Assoc(Flatten(all[..n]), left, more);
    TailEqual(Flatten(all[..n]), left + more, next + Flatten(all[n + 1..]));
    if |left| >= |next| {
      assert left[..|next|] == (left + more)[..|next|] == next;
      assert left == next + left[|next|..];
      FramingPrefixStable(next, left[|next|..]);
    }
  }

  lemma TailEqual(front: seq<byte>, a: seq<byte>, b: seq<byte>)
    requires front + a == front + b
    ensures a == b
  {
    assert a == (front + a)[|front|..];
    assert b == (front + b)[|front|..];
  }

  /** Two frame sequences with the same bytes are the same sequence. */
  lemma FramesDecodeUniquely(frames: seq<seq<byte>>, frames': seq<seq<byte>>)
    requires AllFrames(frames) && AllFrames(frames') && Flatten(frames) == Flatten(frames')
    ensures frames == frames'
  {
    SplitUnique(frames, []);
    SplitUnique(frames', []);
  }
}

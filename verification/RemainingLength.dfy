/**
 The remaining length field of the fixed header (MQTT 3.1.1, section 2.2.3): the encoder's
 loop, the two independent decoders, and the one scan they are both measured against.
 */
module RemainingLength {
  import opened Basics

  const MAX_LENGTH: int := 268_435_455
  const MAX_LENGTH_BYTES: nat := 4

  /** Base-128 digits, least significant first, with the top bit set on all but the last. */
  function LengthBytes(value: nat): (bytes: seq<byte>)
    ensures bytes != []
  {
    if value < 128 then [value] else [value % 128 + 128] + LengthBytes(value / 128)
  }

  /** What a decoder can tell from the bytes after the first byte of a packet. */
  datatype LengthScan =
    | NeedMore
    | TooLong
    | Length(value: nat, size: nat)

  /** Reads at most `budget` length bytes from the front of `s`. */
  function Scan(s: seq<byte>, budget: nat): (scan: LengthScan)
    requires budget > 0
    ensures scan.Length? ==> 1 <= scan.size <= budget && scan.size <= |s|
  {
    if s == [] then NeedMore
    else if s[0] < 128 then Length(s[0], 1)
    else if budget == 1 then TooLong
    else
      match Scan(s[1..], budget - 1)
      case Length(value, size) => Length(s[0] - 128 + 128 * value, size + 1)
      case other => other
  }

  function ScanLength(s: seq<byte>): LengthScan {
    Scan(s, MAX_LENGTH_BYTES)
  }

  /** 128 to the power `k`. */
  function Weight(k: nat): (w: nat)
    ensures w >= 1
  {
    if k == 0 then 1 else 128 * Weight(k - 1)
  }

  lemma WeightValues()
    ensures Weight(0) == 1 && Weight(1) == 128 && Weight(2) == 16384
    ensures Weight(3) == 2097152 && Weight(4) == 268435456
  {
    assert Weight(1) == 128 * Weight(0);
    assert Weight(2) == 128 * Weight(1);
    assert Weight(3) == 128 * Weight(2);
    assert Weight(4) == 128 * Weight(3);
  }

  // ----- the field as a code ------------------------------------------------------------

  lemma {:induction false} ScanPrinted(value: nat, budget: nat, suffix: seq<byte>)
    requires budget > 0 && value < Weight(budget)
    ensures |LengthBytes(value)| <= budget
    ensures Scan(LengthBytes(value) + suffix, budget) == Length(value, |LengthBytes(value)|)
    decreases budget
  {
    assert Weight(budget) == 128 * Weight(budget - 1);
    if value >= 128 {
      var high := value / 128;
      assert high < Weight(budget - 1);
      assert budget > 1 by { assert Weight(0) == 1; }
      ScanPrinted(high, budget - 1, suffix);
      var s := LengthBytes(value) + suffix;
      assert s[0] == value % 128 + 128 && s[1..] == LengthBytes(high) + suffix;
      assert Scan(s, budget) == Length(s[0] - 128 + 128 * high, |LengthBytes(high)| + 1);
    }
  }

  /** Every legal length survives encoding and decoding, whatever bytes follow it. */
  lemma RemainingLengthRoundTrip(value: nat, suffix: seq<byte>)
    requires value <= 268_435_455
    ensures ScanLength(LengthBytes(value) + suffix) == Length(value, |LengthBytes(value)|)
    ensures 1 <= |LengthBytes(value)| <= 4
  {
    WeightValues();
    ScanPrinted(value, MAX_LENGTH_BYTES, suffix);
  }

  lemma {:induction false} ScanAgainstPrinted(s: seq<byte>, budget: nat)
    requires budget > 0 && Scan(s, budget).Length?
    ensures var scan := Scan(s, budget);
            && scan.value < Weight(scan.size)
            && |LengthBytes(scan.value)| <= scan.size
            && (|LengthBytes(scan.value)| == scan.size <==> s[..scan.size] == LengthBytes(scan.value))
    decreases budget
  {
    var scan := Scan(s, budget);
    if s[0] < 128 {
      assert Weight(1) == 128 * Weight(0);
      assert s[..1] == [s[0]];
    } else {
      ScanAgainstPrinted(s[1..], budget - 1);
      var rest := Scan(s[1..], budget - 1);
      assert scan.value / 128 == rest.value && scan.value % 128 == s[0] - 128;
      assert s[..scan.size] == [s[0]] + s[1..][..rest.size];
      if scan.value >= 128 {
        assert LengthBytes(scan.value) == [s[0]] + LengthBytes(rest.value);
        if s[..scan.size] == LengthBytes(scan.value) {
          assert s[..scan.size][1..] == s[1..][..rest.size];
          assert LengthBytes(scan.value)[1..] == LengthBytes(rest.value);
        }
      }
    }
  }

  /** The encoder's form is the unique shortest one, and no accepted form is out of range. */
  lemma PrintedIsShortest(s: seq<byte>)
    requires ScanLength(s).Length?
    ensures var scan := ScanLength(s);
            && scan.value <= MAX_LENGTH
            && |LengthBytes(scan.value)| <= scan.size
            && (|LengthBytes(scan.value)| == scan.size <==> s[..scan.size] == LengthBytes(scan.value))
  {
    WeightValues();
    ScanAgainstPrinted(s, MAX_LENGTH_BYTES);
    var size := ScanLength(s).size;
    assert size == 1 || size == 2 || size == 3 || size == 4;
  }

  /** The four size classes of table 2.4 of MQTT 3.1.1. */
  lemma PrintedSize(value: nat)
    requires value <= MAX_LENGTH
    ensures |LengthBytes(value)| ==
            if value < 128 then 1 else if value < 16384 then 2 else if value < 2097152 then 3 else 4
  {
    var a := value / 128;
    var b := a / 128;
    var c := b / 128;
    assert value >= 128 ==> |LengthBytes(value)| == 1 + |LengthBytes(a)|;
    assert a >= 128 ==> |LengthBytes(a)| == 1 + |LengthBytes(b)|;
    assert b >= 128 ==> |LengthBytes(b)| == 1 + |LengthBytes(c)|;
  }

  /** The value of the `n` bytes at the front of `s`: seven bits to a byte, the lowest first. */
  ghost predicate Weighs(s: seq<int>, n: nat, value: nat)
    requires 1 <= n <= 4 && n <= |s|
  {
    && (n == 1 ==> value == s[0])
    && (n == 2 ==> value == s[0] - 128 + 128 * s[1])
    && (n == 3 ==> value == s[0] - 128 + 128 * (s[1] - 128) + 16384 * s[2])
    && (n == 4 ==> value == s[0] - 128 + 128 * (s[1] - 128) + 16384 * (s[2] - 128) + 2097152 * s[3])
  }

  /** What the encoder writes: the top bit is set on all bytes but the last. */
  lemma LengthDigits(value: nat)
    requires value <= 268_435_455
    ensures var s := LengthBytes(value);
            && 1 <= |s| <= 4 && (forall k :: 0 <= k < |s| ==> (s[k] >= 128 <==> k < |s| - 1))
            && Weighs(s, |s|, value)
  {
    RemainingLengthRoundTrip(value, []);
    assert LengthBytes(value) + [] == LengthBytes(value);
    ScanVerdict(LengthBytes(value));
  }

  /** The three verdicts, by the bytes: four with the top bit set are too many, fewer are not enough. */
  lemma ScanVerdict(s: seq<byte>)
    ensures ScanLength(s).TooLong? <==> |s| >= 4 && s[0] >= 128 && s[1] >= 128 && s[2] >= 128 && s[3] >= 128
    ensures ScanLength(s).NeedMore? <==> |s| < 4 && forall k :: 0 <= k < |s| ==> s[k] >= 128
    ensures match ScanLength(s)
            case Length(value, n) =>
              1 <= n <= 4 && n <= |s| && s[n - 1] < 128 && (forall k :: 0 <= k < n - 1 ==> s[k] >= 128) && Weighs(s, n, value)
            case _ => true
  {
    hide Scan;
    ScanStep(s, 4);
    if s != [] && s[0] >= 128 {
      var s1 := s[1..];
      ScanStep(s1, 3);
      if s1 != [] && s1[0] >= 128 {
        var s2 := s1[1..];
        ScanStep(s2, 2);
        if s2 != [] && s2[0] >= 128 {
          ScanStep(s2[1..], 1);
        }
      }
    }
  }

  lemma ScanStep(s: seq<byte>, budget: nat)
    requires budget > 0
    ensures Scan(s, budget)
         == if s == [] then NeedMore
            else if s[0] < 128 then Length(s[0], 1)
            else if budget == 1 then TooLong
            else match Scan(s[1..], budget - 1)
                 case Length(value, size) => Length(s[0] - 128 + 128 * value, size + 1)
                 case other => other
  {
  }

  /** More bytes never change a scan that has reached a verdict. */
  lemma {:induction false} ScanStable(s: seq<byte>, extra: seq<byte>, budget: nat)
    requires budget > 0 && !Scan(s, budget).NeedMore?
    ensures Scan(s + extra, budget) == Scan(s, budget)
    decreases budget
  {
    if s[0] >= 128 && budget > 1 {
      ScanStable(s[1..], extra, budget - 1);
      assert (s + extra)[1..] == s[1..] + extra;
    }
  }

  /** A scan still waiting has seen only continuation bytes, fewer than its budget. */
  lemma {:induction false} ScanWaiting(s: seq<byte>, budget: nat)
    requires budget > 0 && Scan(s, budget).NeedMore?
    ensures |s| < budget && forall k :: 0 <= k < |s| ==> s[k] >= 128
    decreases budget
  {
    if s != [] {
      ScanWaiting(s[1..], budget - 1);
      assert forall k :: 0 < k < |s| ==> s[k] == s[1..][k - 1];
    }
  }

  // ----- the encoder's loop -------------------------------------------------------------

  method WriteRemainingLength(out: seq<byte>, value: u32) returns (out': seq<byte>)
    ensures out' == out + LengthBytes(value)
  {
    out' := out;
    var rest := value;
    var more := true;
    while more
      invariant more ==> out' + LengthBytes(rest) == out + LengthBytes(value)
      invariant !more ==> out' == out + LengthBytes(value)
      decreases more, rest
    {
      var encoded := rest % 128;
      ghost var before := rest;
      rest := rest / 128;
      if rest > 0 {
        encoded := encoded + 128;
      }
      assert LengthBytes(before) == if rest > 0 then [encoded] + LengthBytes(rest) else [encoded];
      assert rest > 0 ==> out' + ([encoded] + LengthBytes(rest)) == (out' + [encoded]) + LengthBytes(rest);
      out' := out' + [encoded];
      more := rest > 0;
    }
  }

  // ----- the decoders' loops ------------------------------------------------------------

  /** `x` in the place of the digit with index `count`. */
  function Place(x: nat, count: nat): nat {
    if count == 0 then x else if count == 1 then 128 * x else if count == 2 then 16384 * x else 2097152 * x
  }

  /** The accumulator with one more digit is below 2^28, so that no 32-bit step wraps. */
  lemma DigitFits(low: nat, digit: nat, count: nat)
    requires count < MAX_LENGTH_BYTES && low < Place(1, count) && digit < 128
    ensures low + Place(digit, count) < 128 * Place(1, count) <= 268435456
    ensures 128 * Place(1, count) > 2097152 <==> count == 3
    ensures count < 3 ==> Place(1, count + 1) == 128 * Place(1, count)
  {
  }

  /** In the place with index `count` the multiplier is a constant. */
  lemma PlaceIsProduct(digit: nat, multiplier: nat, count: nat)
    requires count < MAX_LENGTH_BYTES && multiplier == Place(1, count)
    ensures digit * multiplier == Place(digit, count)
  {
    if count == 0 {
      assert multiplier == 1;
    } else if count == 1 {
      assert multiplier == 128;
    } else if count == 2 {
      assert multiplier == 16384;
    } else {
      assert multiplier == 2097152;
    }
  }

  /** A 32-bit result: what is left of `n` after wrapping around. */
  function Wrap32(n: nat): u32 {
    n % 0x1_0000_0000
  }

  lemma NoWrap(n: nat)
    requires n < 0x1_0000_0000
    ensures Wrap32(n) == n
  {
  }

  /** What a scan of `rest` says about a scan that has already read `count` digits worth `low`. */
  function Resume(rest: LengthScan, low: nat, count: nat): LengthScan {
    match rest
    case Length(value, size) => Length(low + Place(value, count), count + size)
    case other => other
  }

  /** One more digit read: the scan so far resumes one byte later. */
  lemma ResumeStep(s: seq<byte>, low: nat, count: nat)
    requires count < MAX_LENGTH_BYTES && s != []
    ensures s[0] < 128 ==> Resume(Scan(s, 4 - count), low, count) == Length(low + Place(s[0], count), count + 1)
    ensures s[0] >= 128 && count < 3 ==>
              Resume(Scan(s, 4 - count), low, count)
              == Resume(Scan(s[1..], 3 - count), low + Place(s[0] - 128, count), count + 1)
    ensures s[0] >= 128 && count == 3 ==> Scan(s, 4 - count) == TooLong
  {
  }

  /** Of the length bytes `s`, `count` have been read, worth `low`; `rest` is still to come. */
  ghost predicate Reading(s: seq<byte>, rest: seq<byte>, low: nat, multiplier: nat, count: nat) {
    && count < MAX_LENGTH_BYTES
    && multiplier == Place(1, count) && low < Place(1, count)
    && ScanLength(s) == Resume(Scan(rest, 4 - count), low, count)
  }

  lemma ReadingStarts(s: seq<byte>)
    ensures Reading(s, s, 0, 1, 0)
  {
  }

  lemma ReadingOn(s: seq<byte>, rest: seq<byte>, low: nat, multiplier: nat, count: nat, digit: nat)
    requires Reading(s, rest, low, multiplier, count) && rest != []
    requires digit == if rest[0] < 128 then rest[0] else rest[0] - 128
    ensures var low' := low + Place(digit, count);
            && (rest[0] < 128 ==> ScanLength(s) == Length(low', count + 1))
            && (rest[0] >= 128 && count < 3 ==> Reading(s, rest[1..], low', 128 * multiplier, count + 1))
    ensures rest[0] >= 128 && count == 3 ==> ScanLength(s) == TooLong
  {
    hide Scan, ScanLength;
    ResumeStep(rest, low, count);
    DigitFits(low, digit, count);
  }

  lemma ReadingBounds(s: seq<byte>, rest: seq<byte>, low: nat, multiplier: nat, count: nat)
    requires Reading(s, rest, low, multiplier, count)
    ensures multiplier == Place(1, count) && low < Place(1, count)
  {
    hide Scan, ScanLength;
  }

  /** The seven value bits of a length byte. */
  function LowBits(b: byte): (digit: nat)
    ensures digit == if b < 128 then b else b - 128
  {
    b % 128
  }

  /** The accumulator step in 32-bit arithmetic; the first four digits do not wrap. */
  method AddDigit(outLength: u32, multiplier: u32, encodedByte: byte,
                  ghost s: seq<byte>, ghost rest: seq<byte>, ghost count: nat)
    returns (outLength': u32, multiplier': u32)
    requires count < 4 ==> Reading(s, rest, outLength, multiplier, count) && rest != [] && rest[0] == encodedByte
    ensures count < 4 && encodedByte < 128 ==> ScanLength(s) == Length(outLength', count + 1)
    ensures count < 3 && encodedByte >= 128 ==> Reading(s, rest[1..], outLength', multiplier', count + 1)
    ensures count == 3 && encodedByte >= 128 ==> ScanLength(s) == TooLong
    ensures count < 4 ==> (count == 3 <==> multiplier' > 2097152)
  {
    hide Reading, Scan, ScanLength, Wrap32, Place;
    var digit := LowBits(encodedByte);
    if count < 4 {
      ReadingBounds(s, rest, outLength, multiplier, count);
      ReadingOn(s, rest, outLength, multiplier, count, digit);
      DigitFits(outLength, digit, count);
      PlaceIsProduct(digit, multiplier, count);
      NoWrap(outLength + Place(digit, count));
      NoWrap(128 * multiplier);
    }
    outLength' := Wrap32(outLength + digit * multiplier);
    multiplier' := Wrap32(multiplier * 128);
  }
}

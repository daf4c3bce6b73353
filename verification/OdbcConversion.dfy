/**
 * The conversion buffers of odbc_helper.cpp: how large a buffer is allocated for the underlying driver, and how
 * its contents are carried over into the bytes the caller offered. A count of bytes may be odd, in which case
 * half of the last slot lies outside.
 */
module OdbcConversion {

  import opened UnicodeForms
  import opened RdsStrings

  const SIZEOF_SQLTCHAR := 2

  function BufferSlots(use4BytesDriver: bool, byteCount: nat): nat {
    var charCount := byteCount / SIZEOF_SQLTCHAR;
    if use4BytesDriver then charCount * 2 else charCount
  }

  method AllocateConversionBuffer(use4BytesDriver: bool, byteCount: nat) returns (buffer: array<Unit>)
    ensures fresh(buffer) && buffer.Length == BufferSlots(use4BytesDriver, byteCount)
    ensures forall k :: 0 <= k < buffer.Length ==> buffer[k] == 0
  {
    var charCount := byteCount / SIZEOF_SQLTCHAR;
    var localBufSize := if use4BytesDriver then charCount * 2 else charCount;
    buffer := new Unit[localBufSize](_ => 0);
  }

  // The byte at an offset: the low byte of a slot comes first.
  function ByteAt(s: seq<Unit>, k: nat): int
    requires k < 2 * |s|
  {
    if k % 2 == 0 then s[k / 2] % 0x100 else s[k / 2] / 0x100
  }

  // The first `count` bytes are those of the source, and all later ones are as they were.
  ghost predicate BytesArrive(before: seq<Unit>, src: seq<Unit>, count: nat, after: seq<Unit>) {
    && |after| == |before| && count <= 2 * |before| && count <= 2 * |src|
    && forall k :: 0 <= k < 2 * |after| ==> ByteAt(after, k) == if k < count then ByteAt(src, k) else ByteAt(before, k)
  }

  lemma CopiedBytesArrive(dst: seq<Unit>, src: seq<Unit>, count: nat)
    requires count <= 2 * |src| && count <= 2 * |dst|
    ensures BytesArrive(dst, src, count, CopiedBytes(dst, src, count))
  {
    var after := CopiedBytes(dst, src, count);
    forall k | 0 <= k < 2 * |after| ensures ByteAt(after, k) == if k < count then ByteAt(src, k) else ByteAt(dst, k) {
      if k / 2 < count / 2 {
        assert after[k / 2] == src[k / 2];
      } else if k / 2 == count / 2 && count % 2 == 1 {
        assert after[k / 2] == LowByteFrom(dst[k / 2], src[k / 2]);
        LowByteReplaced(dst[k / 2], src[k / 2]);
      } else {
        assert after[k / 2] == dst[k / 2];
      }
    }
  }

  lemma LowByteReplaced(slot: Unit, from: Unit)
    ensures LowByteFrom(slot, from) % 0x100 == from % 0x100 && LowByteFrom(slot, from) / 0x100 == slot / 0x100
  {
  }

  // The slot after its low byte has been replaced.
  function LowByteFrom(slot: Unit, from: Unit): Unit { slot / 0x100 * 0x100 + from % 0x100 }

  // The slots after `count` bytes have been copied over their front.
  function CopiedBytes(dst: seq<Unit>, src: seq<Unit>, count: nat): (s: seq<Unit>)
    requires count <= 2 * |src| && count <= 2 * |dst|
    ensures |s| == |dst|
  {
    var half := if count % 2 == 1 then [LowByteFrom(dst[count / 2], src[count / 2])] else [];
    src[..count / 2] + half + dst[(count + 1) / 2..]
  }

  method Memcpy(dst: array<Unit>, src: array<Unit>, count: nat)
    requires count <= 2 * src.Length && count <= 2 * dst.Length && dst != src
    modifies dst
    ensures dst[..] == CopiedBytes(old(dst[..]), src[..], count)
    ensures BytesArrive(old(dst[..]), src[..], count, dst[..])
  {
    CopiedBytesArrive(dst[..], src[..], count);
    for i := 0 to count / 2
      invariant forall k :: 0 <= k < i ==> dst[k] == src[k]
      invariant forall k :: i <= k < dst.Length ==> dst[k] == old(dst[k])
    {
      dst[i] := src[i];
    }
    if count % 2 == 1 {
      dst[count / 2] := LowByteFrom(dst[count / 2], src[count / 2]);
    }
  }

  predicate UserIs4Byte(wrapperCall: bool, use4BytesUserApp: bool) { !wrapperCall && use4BytesUserApp }

  function Min(a: nat, b: nat): nat { if a > b then b else a }

  // What a call needs of the buffers it is given: that the bytes it copies, the units it expands or the code
  // points it narrows are there.
  predicate EnoughSource(user4: bool, driver4: bool, src: seq<Unit>, srcByteCount: nat, dstByteCount: nat) {
    if user4 == driver4 then Min(srcByteCount, dstByteCount) <= 2 * |src|
    else if user4 then srcByteCount / SIZEOF_SQLTCHAR <= |src|
    else Readable(src, dstByteCount / SIZEOF_SQLTCHAR)
  }

  // The destination after a call.
  function Converted(user4: bool, driver4: bool, src: seq<Unit>, dst: seq<Unit>, srcByteCount: nat, dstByteCount: nat)
    : (s: seq<Unit>)
    requires EnoughSource(user4, driver4, src, srcByteCount, dstByteCount) && dstByteCount <= 2 * |dst|
  {
    if user4 == driver4 then CopiedBytes(dst, src, Min(srcByteCount, dstByteCount))
    else if user4 then
      var slots := dstByteCount / SIZEOF_SQLTCHAR / 2 * 2;
      if slots < 2 then dst else Over(Expanded(src[..srcByteCount / SIZEOF_SQLTCHAR], (slots - 2) / 2), dst)
    else
      var len := dstByteCount / SIZEOF_SQLTCHAR;
      if len == 0 then dst else Over(Narrowed(src, len), dst)
  }

  // ---------- what arrives ----------

  // The code points stand at the front, a zero one follows, and the rest is as it was.
  ghost predicate CodePointsArrive(before: seq<Unit>, cps: seq<int>, after: seq<Unit>) {
    && |after| == |before| && 2 * |cps| + 2 <= |after|
    && (forall k :: 0 <= k < |cps| ==> CodePointAt(after, k) == cps[k])
    && CodePointAt(after, |cps|) == 0
    && (forall k :: 2 * |cps| + 2 <= k < |after| ==> after[k] == before[k])
  }

  // The longest prefix of the text that fits in less than `len` units stands at the front in UTF-16, a zero unit follows, and
  // the rest is as it was.
  ghost predicate PrefixArrives(before: seq<Unit>, cps: seq<int>, len: nat, after: seq<Unit>)
    requires Scalars(cps)
  {
    exists p: nat :: p <= |cps| && Scalars(cps[..p]) && UnitsArrive(before, Encode(cps[..p]), after)
      && |Encode(cps[..p])| < len && forall q: nat :: p < q <= |cps| ==> Scalars(cps[..q]) && |Encode(cps[..q])| >= len
  }

  ghost predicate UnitsArrive(before: seq<Unit>, us: seq<Unit>, after: seq<Unit>) {
    && |after| == |before| && |us| < |after| && after[..|us|] == us && after[|us|] == 0
    && forall k :: |us| < k < |after| ==> after[k] == before[k]
  }

  // What a destination of n bytes holds after a call, in terms of the bytes or the text of the source.
  ghost predicate Arrives(user4: bool, driver4: bool, src: seq<Unit>, srcByteCount: nat, n: nat, before: seq<Unit>, after: seq<Unit>) {
    if user4 == driver4 then BytesArrive(before, src, Min(srcByteCount, n), after)
    else if user4 then
      if n < 4 then after == before
      else srcByteCount / 2 <= |src| && CodePointsArrive(before, Taken(Decode(src[..srcByteCount / 2]), n / 4 - 1), after)
    else if n < 2 then after == before
    else if Scalars(Text(src, n / 2)) then PrefixArrives(before, Text(src, n / 2), n / 2, after)
    else UnitsArrive(before, [], after)
  }

  lemma ExpandedArrives(us: seq<Unit>, capacity: nat, s: seq<Unit>)
    requires 2 * capacity + 2 <= |s|
    ensures CodePointsArrive(s, Taken(Decode(us), capacity), Over(Expanded(us, capacity), s))
  {
    hide Decode;
    ScalarsAreWords(Decode(us));
    var cps := Taken(Decode(us), capacity);
    var after := Over(Expanded(us, capacity), s);
    assert after == Slots(cps) + ([0, 0] + s[2 * |cps| + 2..]);
    forall k | 0 <= k < |cps| ensures CodePointAt(after, k) == cps[k] {
      CodePointOfSlots(cps, [0, 0] + s[2 * |cps| + 2..], k);
    }
    assert after[2 * |cps|] == 0 && after[2 * |cps| + 1] == 0;
  }

  lemma NarrowedArrives(src: seq<Unit>, len: nat, s: seq<Unit>)
    requires 0 < len <= |s|
    ensures var cps, after := Text(src, len), Over(Narrowed(src, len), s);
      if Scalars(cps) then PrefixArrives(s, cps, len, after) else UnitsArrive(s, [], after)
  {
    hide Encode;
    var cps := Text(src, len);
    if Scalars(cps) {
      var p := Fit(cps, len - 1);
      FitIsLongest(cps, len - 1, p);
      forall q: nat | p < q <= |cps| ensures Scalars(cps[..q]) && |Encode(cps[..q])| >= len {
        FitIsLongest(cps, len - 1, q);
      }
      assert UnitsArrive(s, Encode(cps[..p]), Over(Encode(cps[..p]) + [0], s));
    }
  }

  lemma ConvertedArrives(user4: bool, driver4: bool, src: seq<Unit>, dst: seq<Unit>, srcByteCount: nat, n: nat)
    requires EnoughSource(user4, driver4, src, srcByteCount, n) && 0 < n <= 2 * |dst|
    ensures Arrives(user4, driver4, src, srcByteCount, n, dst, Converted(user4, driver4, src, dst, srcByteCount, n))
  {
    hide Decode, Expanded, Narrowed, Text, Scalars, CodePointsArrive, PrefixArrives, UnitsArrive, BytesArrive, CopiedBytes;
    if user4 == driver4 {
      CopiedBytesArrive(dst, src, Min(srcByteCount, n));
    } else if user4 {
      if n >= 4 {
        ExpandedArrives(src[..srcByteCount / SIZEOF_SQLTCHAR], n / 4 - 1, dst);
        assert (n / SIZEOF_SQLTCHAR / 2 * 2 - 2) / 2 == n / 4 - 1;
      }
    } else if n >= 2 {
      NarrowedArrives(src, n / SIZEOF_SQLTCHAR, dst);
    }
  }

  /** Carries the driver's output over to the caller: byte by byte if both use the same width, else as text. */
  method ConvertDriverOutputToTarget(
    wrapperCall: bool, use4BytesUserApp: bool, use4BytesBaseDriver: bool, src: array?<Unit>, dst: array?<Unit>,
    srcByteCount: nat, dstByteCount: nat)
    requires src != null && dst != null && dstByteCount > 0 ==> src != dst && dstByteCount <= 2 * dst.Length
    requires src != null && dst != null && dstByteCount > 0 ==> EnoughSource(
      UserIs4Byte(wrapperCall, use4BytesUserApp), use4BytesBaseDriver, src[..], srcByteCount, dstByteCount)
    modifies dst
    ensures dst != null && (src == null || dstByteCount == 0) ==> dst[..] == old(dst[..])
    ensures src != null && dst != null && dstByteCount > 0 ==> dst[..] == Converted(
      UserIs4Byte(wrapperCall, use4BytesUserApp), use4BytesBaseDriver, src[..], old(dst[..]), srcByteCount, dstByteCount)
    ensures src != null && dst != null && dstByteCount > 0 ==> Arrives(
      !wrapperCall && use4BytesUserApp, use4BytesBaseDriver, src[..], srcByteCount, dstByteCount, old(dst[..]), dst[..])
  {
    hide Arrives;
    if dst == null || src == null || dstByteCount == 0 {
      return;
    }
    var user4Byte := UserIs4Byte(wrapperCall, use4BytesUserApp);
    ConvertedArrives(user4Byte, use4BytesBaseDriver, src[..], dst[..], srcByteCount, dstByteCount);
    var srcCharCount := if use4BytesBaseDriver then srcByteCount / SIZEOF_SQLTCHAR / 2 else srcByteCount / SIZEOF_SQLTCHAR;
    var dstCharCount := if user4Byte then dstByteCount / SIZEOF_SQLTCHAR / 2 else dstByteCount / SIZEOF_SQLTCHAR;
    if user4Byte == use4BytesBaseDriver {
      var maxCopy := if srcByteCount > dstByteCount then dstByteCount else srcByteCount;
      Memcpy(dst, src, maxCopy);
    } else if user4Byte {
      var _ := ConvertUTF16ToUTF32(src, dst, srcCharCount, dstCharCount * 2);
    } else {
      Convert4To2ByteString(use4BytesBaseDriver, src, dst, dstCharCount);
    }
  }

  // ---------- buffers are exactly sized ----------

  /** A buffer allocated for n bytes has all that converting into n bytes reads, whatever the driver wrote to it. */
  lemma BufferIsEnough(user4: bool, driver4: bool, buffer: seq<Unit>, n: nat)
    requires |buffer| == BufferSlots(driver4, n)
    ensures EnoughSource(user4, driver4, buffer, SIZEOF_SQLTCHAR * |buffer|, n)
  {
  }

  /** The buffer holds n / 2 characters of the driver's width. It holds all n bytes that the driver is offered unless n is odd
      and the driver uses 2 bytes, or n is 1: then it is one byte short. */
  lemma BufferHoldsOffer(driver4: bool, n: nat)
    ensures SIZEOF_SQLTCHAR * BufferSlots(driver4, n) == n / 2 * (if driver4 then 4 else 2)
    ensures SIZEOF_SQLTCHAR * BufferSlots(driver4, n) >= n <==> n % 2 == 0 || (driver4 && n > 1)
  {
  }

  // Whatever the driver writes to a buffer of this size, converting it into n bytes reads inside it.
  ghost predicate AlwaysEnough(user4: bool, driver4: bool, size: nat, n: nat) {
    forall buffer: seq<Unit> :: |buffer| == size ==> EnoughSource(user4, driver4, buffer, SIZEOF_SQLTCHAR * |buffer|, n)
  }

  /** Which sizes are enough: any, unless 4-byte output is narrowed, and then exactly those from the allocated one up. */
  lemma SmallestBuffer(user4: bool, driver4: bool, size: nat, n: nat)
    ensures AlwaysEnough(user4, driver4, size, n) <==> user4 || !driver4 || size >= BufferSlots(driver4, n)
  {
    if driver4 && !user4 {
      if size < BufferSlots(driver4, n) {
        var unterminated: seq<Unit> := seq(size, _ => 1);
        EndIsZero(unterminated, 0, n / SIZEOF_SQLTCHAR);
        assert !EnoughSource(user4, driver4, unterminated, SIZEOF_SQLTCHAR * |unterminated|, n);
      } else {
        forall buffer: seq<Unit> | |buffer| == size ensures Readable(buffer, n / SIZEOF_SQLTCHAR) {
        }
      }
    }
  }

  // The slots differ in no byte at or after the first n.
  predicate SameBeyond(n: nat, before: seq<Unit>, after: seq<Unit>) {
    && |after| == |before|
    && (forall k :: (n + 1) / 2 <= k < |after| ==> after[k] == before[k])
    && (n % 2 == 1 && n / 2 < |after| ==> after[n / 2] / 0x100 == before[n / 2] / 0x100)
  }

  // Some character slot inside the first n bytes is zero.
  predicate TerminatedWithin(n: nat, user4: bool, s: seq<Unit>)
    requires n <= 2 * |s|
  {
    if user4 then exists k :: 0 <= k < n / 4 && CodePointAt(s, k) == 0 else exists k :: 0 <= k < n / 2 && s[k] == 0
  }

  lemma OverStaysWithin(front: seq<Unit>, s: seq<Unit>, n: nat)
    requires |front| <= n / 2 && n <= 2 * |s|
    ensures SameBeyond(n, s, Over(front, s))
  {
  }

  lemma CopyStaysWithin(dst: seq<Unit>, src: seq<Unit>, count: nat, n: nat)
    requires count <= n <= 2 * |dst| && count <= 2 * |src|
    ensures SameBeyond(n, dst, CopiedBytes(dst, src, count))
  {
  }

  lemma ExpandedEnds(us: seq<Unit>, capacity: nat, s: seq<Unit>)
    requires 2 * capacity + 2 <= |s|
    ensures var k := |Taken(Decode(us), capacity)|;
      k <= capacity && CodePointAt(Over(Expanded(us, capacity), s), k) == 0
  {
    hide Decode;
    var k, front := |Taken(Decode(us), capacity)|, Expanded(us, capacity);
    assert front[2 * k] == 0 && front[2 * k + 1] == 0;
  }

  lemma NarrowedEnds(src: seq<Unit>, len: nat, s: seq<Unit>)
    requires 0 < len <= |s|
    ensures var us := Narrowed(src, len); |us| <= len && Over(us, s)[|us| - 1] == 0
  {
  }

  /** For every byte count n and every pair of widths: only bytes inside the n are written, and if the widths
      differ and one character fits, the output is terminated inside them. */
  lemma ConversionStaysInside(user4: bool, driver4: bool, buffer: seq<Unit>, dst: seq<Unit>, n: nat)
    requires |buffer| == BufferSlots(driver4, n) && n <= 2 * |dst|
    ensures EnoughSource(user4, driver4, buffer, SIZEOF_SQLTCHAR * |buffer|, n)
    ensures var after := Converted(user4, driver4, buffer, dst, SIZEOF_SQLTCHAR * |buffer|, n);
      && SameBeyond(n, dst, after)
      && (user4 != driver4 && n >= (if user4 then 4 else 2) ==> TerminatedWithin(n, user4, after))
  {
    hide Expanded, Narrowed;
    BufferIsEnough(user4, driver4, buffer, n);
    if user4 == driver4 {
      CopyStaysWithin(dst, buffer, Min(SIZEOF_SQLTCHAR * |buffer|, n), n);
    } else if user4 {
      var slots := n / SIZEOF_SQLTCHAR / 2 * 2;
      if slots >= 2 {
        var us := buffer[..SIZEOF_SQLTCHAR * |buffer| / SIZEOF_SQLTCHAR];
        OverStaysWithin(Expanded(us, (slots - 2) / 2), dst, n);
        ExpandedEnds(us, (slots - 2) / 2, dst);
      }
    } else if n / SIZEOF_SQLTCHAR > 0 {
      OverStaysWithin(Narrowed(buffer, n / SIZEOF_SQLTCHAR), dst, n);
      NarrowedEnds(buffer, n / SIZEOF_SQLTCHAR, dst);
    }
  }

  /** What every caller does around a call of the underlying driver, which may leave anything in the buffer. */
  method ReadThroughBuffer(
    wrapperCall: bool, use4BytesUserApp: bool, use4BytesBaseDriver: bool, driverWrites: seq<Unit>, dst: array<Unit>, n: nat)
    requires |driverWrites| == BufferSlots(use4BytesBaseDriver, n) && n <= 2 * dst.Length
    modifies dst
    ensures SameBeyond(n, old(dst[..]), dst[..])
    ensures n > 0 ==> Arrives(UserIs4Byte(wrapperCall, use4BytesUserApp), use4BytesBaseDriver, driverWrites,
                              SIZEOF_SQLTCHAR * |driverWrites|, n, old(dst[..]), dst[..])
    ensures var user4 := UserIs4Byte(wrapperCall, use4BytesUserApp);
      user4 != use4BytesBaseDriver && n >= (if user4 then 4 else 2) ==> TerminatedWithin(n, user4, dst[..])
  {
    hide Converted, EnoughSource, Arrives;
    var buffer := AllocateConversionBuffer(use4BytesBaseDriver, n);
    CopyUnits(driverWrites, buffer);
    assert buffer[..] == driverWrites;
    ConversionStaysInside(UserIs4Byte(wrapperCall, use4BytesUserApp), use4BytesBaseDriver, buffer[..], dst[..], n);
    ConvertDriverOutputToTarget(
      wrapperCall, use4BytesUserApp, use4BytesBaseDriver, buffer, dst, buffer.Length * SIZEOF_SQLTCHAR, n);
  }

  // ---------- the wrapper's own output ----------

  // Expands what the wrapper wrote for a 4-byte application; charCount is the length it wrote.
  method ConvertWrapperOutputToTarget(
    use4BytesUserApp: bool, wrapperCall: bool, buf: array?<Unit>, charCount: nat, bufByteCount: nat)
    requires buf != null ==> charCount <= buf.Length && bufByteCount <= 2 * buf.Length
    modifies buf
    ensures buf != null && !wrapperCall && use4BytesUserApp ==>
      buf[..] == InPlace(old(buf[..]), charCount, bufByteCount / SIZEOF_SQLTCHAR)
    ensures buf != null && (wrapperCall || !use4BytesUserApp) ==> buf[..] == old(buf[..])
  {
    if !wrapperCall && use4BytesUserApp {
      var bufCharCount := bufByteCount / SIZEOF_SQLTCHAR;
      ExpandUTF16ToUTF32InPlace(buf, charCount, bufCharCount);
    }
  }

  /** A 4-byte application reads the text the wrapper wrote, given room for it, if and only if the text is not empty or the
      first code point slot of its buffer was zero already. */
  method ReadWrapperOutput(buf: array<Unit>, charCount: nat, limit: nat) returns (ghost text: seq<int>)
    requires 2 * charCount + 2 <= buf.Length && 0 !in Decode(buf[..charCount]) && charCount < limit
    modifies buf
    ensures text == Text(buf[..], limit)
    ensures text == Decode(old(buf[..charCount])) <==> charCount > 0 || CodePointAt(old(buf[..]), 0) == 0
  {
    hide Decode, Text, InPlace;
    InPlaceReadsBack(buf[..], charCount, buf.Length, limit);
    assert buf[..][..charCount] == buf[..charCount];
    ConvertWrapperOutputToTarget(true, false, buf, charCount, SIZEOF_SQLTCHAR * buf.Length);
    text := Text(buf[..], limit);
  }
}

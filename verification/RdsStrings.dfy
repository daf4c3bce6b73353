/**
 * The conversion functions of rds_strings.h on buffers of 16-bit slots. Conversions done by ICU deliver the
 * first units that fit and report the length of the whole result; what the functions here add is where they
 * read, where they cut, and where they terminate.
 */
module RdsStrings {

  import opened UnicodeForms

  // ---------- ICU ----------

  // u_strFromUTF32: fails on a value that is not a scalar.
  method StrFromUTF32(src: seq<int>, capacity: nat) returns (failed: bool, dest: seq<Unit>, written: nat)
    ensures failed <==> !Scalars(src)
    ensures !failed ==> written == |Encode(src)| && dest == Encode(src)[..if written < capacity then written else capacity]
  {
    failed := exists cp :: cp in src && !IsScalar(cp);
    if failed {
      dest, written := [], 0;
    } else {
      var encoded := Encode(src);
      written := |encoded|;
      dest := encoded[..if written < capacity then written else capacity];
    }
  }

  // icu::UnicodeString::toUTF32: replaces unpaired surrogates, never fails but for lack of room.
  method ToUTF32(ustr: seq<Unit>, capacity: nat) returns (dest: seq<int>, written: nat)
    ensures written == |Decode(ustr)| && dest == Taken(Decode(ustr), capacity)
  {
    var decoded := Decode(ustr);
    written := |decoded|;
    dest := Taken(decoded, capacity);
  }

  // ---------- lengths ----------

  method UShortStrlen(str: array?<Unit>, use4Byte: bool) returns (length: nat)
    requires str != null && use4Byte ==> 2 * TextEnd(str[..], 0, str.Length) + 1 < str.Length
    requires str != null && !use4Byte ==> 0 in str[..]
    ensures str == null ==> length == 0
    ensures str != null && use4Byte ==> length == TextEnd(str[..], 0, str.Length)
    ensures str != null && !use4Byte ==> length < str.Length && str[length] == 0 && 0 !in str[..length]
  {
    length := 0;
    if str == null {
      return;
    }
    if use4Byte {
      ghost var end := TextEnd(str[..], 0, str.Length);
      EndIsZero(str[..], 0, str.Length);
      assert CodePointAt(str[..], end) == 0;
      while str[length * 2] != 0 || str[length * 2 + 1] != 0
        invariant length <= end
        decreases end - length
      {
        length := length + 1;
      }
      assert CodePointAt(str[..], length) == 0;
    } else {
      while str[length] != 0
        invariant length < str.Length && 0 !in str[..length] && 0 in str[length..]
        decreases str.Length - length
      {
        length := length + 1;
      }
    }
  }

  lemma {:induction false} EndIsZero(s: seq<Unit>, i: nat, limit: nat)
    requires i <= limit
    ensures var end := TextEnd(s, i, limit); end < limit && 2 * end + 1 < |s| ==> CodePointAt(s, end) == 0
    decreases limit - i
  {
    if i < limit && 2 * i + 1 < |s| && CodePointAt(s, i) != 0 {
      EndIsZero(s, i + 1, limit);
    }
  }

  // ---------- UTF-16 to UTF-32 ----------

  // Stores a code point in two slots, as writing through a UChar32 pointer does.
  method StoreCodePoint(dst: array<Unit>, i: nat, cp: int)
    requires 2 * i + 1 < dst.Length && 0 <= cp < 0x1_0000_0000
    modifies dst
    ensures dst[..] == old(dst[..])[2 * i := cp % 0x1_0000][2 * i + 1 := cp / 0x1_0000]
  {
    dst[2 * i] := cp % 0x1_0000;
    dst[2 * i + 1] := cp / 0x1_0000;
  }

  // Stores code points from the front of a buffer and a zero one after them.
  method StoreText(dst: array<Unit>, cps: seq<int>)
    requires Words(cps) && 2 * |cps| + 2 <= dst.Length
    modifies dst
    ensures dst[..] == Slots(cps) + [0, 0] + old(dst[2 * |cps| + 2..])
  {
    ghost var slots := Slots(cps);
    for i := 0 to |cps|
      invariant dst[..2 * i] == slots[..2 * i]
      invariant dst[2 * i..] == old(dst[2 * i..])
    {
      assert cps[i] in cps;
      ghost var was := dst[..];
      StoreCodePoint(dst, i, cps[i]);
      assert dst[..][2 * i] == Slot(cps, 2 * i) && dst[..][2 * i + 1] == Slot(cps, 2 * i + 1);
      assert forall k :: 0 <= k < 2 * i ==> dst[k] == was[k];
      assert forall k :: 2 * i + 2 <= k < dst.Length ==> dst[k] == was[k];
    }
    StoreCodePoint(dst, |cps|, 0);
  }

  // Returns the number of code points stored before the terminator.
  method ConvertUTF16ToUTF32(src: array?<Unit>, dst: array?<Unit>, srcLen: nat, dstLen: nat) returns (actual: nat)
    requires src != null ==> srcLen <= src.Length
    requires dst != null ==> dstLen <= dst.Length
    modifies dst
    ensures src == null || dst == null || dstLen < 2 ==> actual == 0 && (dst != null ==> dst[..] == old(dst[..]))
    ensures src != null && dst != null && dstLen >= 2 ==>
      && actual == |Taken(Decode(old(src[..srcLen])), (dstLen - 2) / 2)|
      && var expanded := Expanded(old(src[..srcLen]), (dstLen - 2) / 2);
         |expanded| <= dstLen && dst[..] == expanded + old(dst[|expanded|..])
  {
    if src == null || dst == null || dstLen < 2 {
      return 0;
    }
    var capacity := (dstLen - 2) / 2;
    var ustr := src[..srcLen];
    var dest, written := ToUTF32(ustr, capacity);
    actual := if written < capacity then written else capacity;
    ScalarsAreWords(Decode(ustr));
    StoreText(dst, dest);
  }

  method ExpandUTF16ToUTF32InPlace(buf: array?<Unit>, srcChars: nat, bufSlots: nat)
    requires buf != null ==> srcChars <= buf.Length && bufSlots <= buf.Length
    modifies buf
    ensures buf != null ==> buf[..] == InPlace(old(buf[..]), srcChars, bufSlots)
  {
    if buf == null || srcChars == 0 || bufSlots < 2 {
      return;
    }
    var capacity := (bufSlots - 2) / 2;
    var ustr := buf[..srcChars];
    var dest, _ := ToUTF32(ustr, capacity);
    ScalarsAreWords(Decode(ustr));
    assert ustr == old(buf[..])[..srcChars];
    StoreText(buf, dest);
  }

  // ---------- UTF-32 to UTF-16 ----------

  // Without a second buffer the result replaces the input.
  method Convert4To2ByteString(use4Bytes: bool, input: array?<Unit>, out: array?<Unit>, len: nat)
    requires input != null && len > 0 && use4Bytes ==> Readable(input[..], len) && (out != null ==> len <= out.Length)
    requires input != null && len > 0 && !use4Bytes && out != null ==> len <= input.Length && len <= out.Length
    modifies if out == null then input else out
    ensures input == null || len == 0 || (!use4Bytes && out == null) ==>
      (input != null ==> input[..] == old(input[..])) && (out != null ==> out[..] == old(out[..]))
    ensures input != null && len > 0 && !use4Bytes && out != null ==>
      out[..] == old(input[..len - 1]) + [0] + old(out[len..])
    ensures input != null && len > 0 && use4Bytes ==>
      var target, narrowed := if out == null then input else out, Narrowed(old(input[..]), len);
      |narrowed| <= target.Length && target[..] == narrowed + old(target[|narrowed|..])
  {
    if input == null || len == 0 {
      return;
    }
    if !use4Bytes {
      if out != null {
        CopyUnits(input[..len], out);
        out[len - 1] := 0;
      }
      return;
    }
    NarrowInto(input, if out == null then input else out, len);
  }

  // The number of units to keep: one less than received if that would split a surrogate pair.
  method TrimLead(temp: seq<Unit>, written: nat, outputSize: nat, ghost encoded: seq<Unit>) returns (endIndex: nat)
    requires written == |encoded| && temp == encoded[..if written < outputSize then written else outputSize]
    ensures endIndex == Cut(encoded, outputSize) <= |temp|
  {
    endIndex := if written < outputSize then written else outputSize;
    if endIndex > 0 {
      var last := temp[endIndex - 1];
      if IsLead(last) {
        endIndex := endIndex - 1;
      }
    }
  }

  method NarrowInto(input: array<Unit>, output: array<Unit>, len: nat)
    requires len > 0 && Readable(input[..], len) && (output != input ==> len <= output.Length)
    modifies output
    ensures var narrowed := Narrowed(old(input[..]), len);
      |narrowed| <= output.Length && output[..] == narrowed + old(output[|narrowed|..])
  {
    hide Readable, Encode, Scalars, Text, Narrowed, Cut;
    var outputSize := len - 1;
    var codePoints := ReadText(input, len);
    var failed, temp, written := StrFromUTF32(codePoints, outputSize);
    NarrowedFits(input[..], len);
    if failed {
      output[0] := 0;
      return;
    }
    var endIndex := TrimLead(temp, written, outputSize, Encode(codePoints));
    assert temp[..endIndex] == Encode(codePoints)[..Cut(Encode(codePoints), outputSize)];
    CopyAndTerminate(temp[..endIndex], output);
  }

  method CopyUnits(from: seq<Unit>, to: array<Unit>)
    requires |from| <= to.Length
    modifies to
    ensures to[..] == from + old(to[|from|..])
  {
    for i := 0 to |from|
      invariant forall k :: 0 <= k < i ==> to[k] == from[k]
      invariant forall k :: i <= k < to.Length ==> to[k] == old(to[k])
    {
      to[i] := from[i];
    }
  }

  method CopyAndTerminate(from: seq<Unit>, to: array<Unit>)
    requires |from| < to.Length
    modifies to
    ensures to[..] == (from + [0]) + old(to[|from| + 1..])
  {
    CopyUnits(from, to);
    to[|from|] := 0;
  }

  // Reads code points until a zero one or the limit, never past the slots.
  method ReadText(input: array<Unit>, limit: nat) returns (codePoints: seq<int>)
    requires Readable(input[..], limit)
    ensures codePoints == Text(input[..], limit)
  {
    codePoints := [];
    ghost var end := TextEnd(input[..], 0, limit);
    EndIsZero(input[..], 0, limit);
    for i := 0 to limit
      invariant |codePoints| == i <= end
      invariant forall k :: 0 <= k < i ==> codePoints[k] == CodePointAt(input[..], k)
    {
      var low: int, high: int := input[i * 2], input[i * 2 + 1];
      var cp := low + high * 0x1_0000;
      assert cp == CodePointAt(input[..], i);
      if cp == 0 {
        break;
      }
      codePoints := codePoints + [cp];
    }
  }

  // The narrowed text and its terminator take no more slots than the text that was read.
  lemma NarrowedFits(s: seq<Unit>, len: nat)
    requires len > 0 && Readable(s, len)
    ensures |Narrowed(s, len)| <= |s|
    ensures Narrowed(s, len) ==
      if Scalars(Text(s, len)) then Encode(Text(s, len))[..Cut(Encode(Text(s, len)), len - 1)] + [0] else [0]
  {
    hide Encode;
    var cps := Text(s, len);
    if Scalars(cps) {
      CutIsFit(cps, len - 1);
      EncodingIsShort(cps[..Fit(cps, len - 1)]);
    }
  }

  lemma {:induction false} EncodingIsShort(cps: seq<int>)
    requires Scalars(cps)
    ensures |Encode(cps)| <= 2 * |cps|
  {
    if cps != [] {
      EncodingIsShort(cps[1..]);
    }
  }

  // ---------- round trips ----------

  /** UTF-16 to UTF-32 to UTF-16 in place, for every length: a well-formed text without zeros comes back, terminated, if
      and only if it is not empty, or what the buffer held before narrows to an empty text by itself. */
  method ExpandAndNarrowInPlace(buf: array<Unit>, n: nat, len: nat)
    requires 2 * n + 2 <= buf.Length && WellFormed(buf[..n]) && 0 !in buf[..n] && n < len
    requires n == 0 ==> Readable(buf[..], len)
    modifies buf
    ensures buf[..n + 1] == old(buf[..n]) + [0] <==> n > 0 || NarrowsToNothing(old(buf[..]), len)
  {
    hide WellFormed, Readable, Expanded, Narrowed, Decode, NarrowsToNothing;
    ghost var before, us := buf[..], buf[..n];
    ExpandUTF16ToUTF32InPlace(buf, n, buf.Length);
    if n > 0 {
      DecodingIsShort(us);
      assert before[..n] == us;
      ghost var expanded := Expanded(us, (buf.Length - 2) / 2);
      NarrowExpanded(us, before[|expanded|..], (buf.Length - 2) / 2, len);
      Convert4To2ByteString(true, buf, null, len);
      assert buf[..n + 1] == us + [0];
    } else {
      NothingNarrowed(before, len);
      Convert4To2ByteString(true, buf, null, len);
      assert buf[..1] == [buf[0]] && buf[0] == Narrowed(before, len)[0];
    }
  }

  /** UTF-32 to UTF-16 to UTF-32 between two buffers: scalar values other than zero come back, terminated. */
  method NarrowAndExpand(text: array<Unit>, cps: seq<int>, utf16: array<Unit>, back: array<Unit>)
    requires Scalars(cps) && 0 !in cps && Words(cps) && Slots(cps) + [0, 0] <= text[..]
    requires |Encode(cps)| < utf16.Length && 2 * |cps| + 2 <= back.Length
    requires text != utf16 && utf16 != back
    modifies utf16, back
    ensures back[..2 * |cps| + 2] == Slots(cps) + [0, 0]
  {
    hide Scalars, Words, Encode, Slots, Readable, Expanded, Narrowed;
    ghost var tail := text[2 * |cps| + 2..];
    assert text[..] == Slots(cps) + [0, 0] + tail;
    ExpandNarrowed(cps, tail, utf16.Length, (back.Length - 2) / 2);
    Convert4To2ByteString(true, text, utf16, utf16.Length);
    EncodedHasNoZero(cps, utf16);
    var length := UShortStrlen(utf16, false);
    assert length == |Encode(cps)|;
    assert utf16[..length] == Encode(cps);
    var _ := ConvertUTF16ToUTF32(utf16, back, length, back.Length);
  }

  /** The same in one buffer, each conversion replacing its input. */
  method NarrowAndExpandInPlace(buf: array<Unit>, cps: seq<int>, len: nat)
    requires Scalars(cps) && 0 !in cps && Words(cps) && Slots(cps) + [0, 0] <= buf[..] && |Encode(cps)| < len
    modifies buf
    ensures buf[..2 * |cps| + 2] == Slots(cps) + [0, 0]
  {
    hide Scalars, Words, Encode, Slots, Readable, Expanded, Narrowed;
    ghost var tail := buf[2 * |cps| + 2..];
    assert buf[..] == Slots(cps) + [0, 0] + tail;
    ExpandNarrowed(cps, tail, len, (buf.Length - 2) / 2);
    EncodingOfNothing(cps);
    Convert4To2ByteString(true, buf, null, len);
    EncodedHasNoZero(cps, buf);
    var length := UShortStrlen(buf, false);
    assert length == |Encode(cps)|;
    assert buf[..length] == Encode(cps);
    ExpandUTF16ToUTF32InPlace(buf, length, buf.Length);
  }

  lemma EncodingOfNothing(cps: seq<int>)
    requires Scalars(cps) && Words(cps)
    ensures |Encode(cps)| == 0 ==> cps == [] && Encode(cps) == [] && Slots(cps) == []
  {
    EncodingIsLonger(cps);
  }

  lemma EncodedHasNoZero(cps: seq<int>, utf16: array<Unit>)
    requires Scalars(cps) && 0 !in cps && Encode(cps) + [0] <= utf16[..]
    ensures 0 in utf16[..] && 0 !in Encode(cps) && utf16[|Encode(cps)|] == 0 && utf16[..|Encode(cps)|] == Encode(cps)
  {
    NoZeroUnits(cps);
    assert utf16[..][|Encode(cps)|] == (Encode(cps) + [0])[|Encode(cps)|];
  }
}

/**
 * The encoding forms UTF-16 and UTF-32 of The Unicode Standard, section 3.9, and the way the driver lays out
 * UTF-32 in 16-bit slots, low half first.
 */
module UnicodeForms {

  type Unit = u: int | 0 <= u < 0x1_0000

  const REPLACEMENT: Unit := 0xFFFD

  predicate IsLead(u: int) { 0xD800 <= u < 0xDC00 }

  predicate IsTrail(u: int) { 0xDC00 <= u < 0xE000 }

  predicate IsScalar(cp: int) { 0 <= cp < 0xD800 || 0xE000 <= cp < 0x11_0000 }

  predicate Scalars(cps: seq<int>) { forall cp :: cp in cps ==> IsScalar(cp) }

  // ---------- UTF-16 ----------

  function Units(cp: int): (us: seq<Unit>)
    requires IsScalar(cp)
    ensures 1 <= |us| <= 2
  {
    if cp < 0x1_0000 then [cp] else [0xD800 + (cp - 0x1_0000) / 0x400, 0xDC00 + (cp - 0x1_0000) % 0x400]
  }

  function Encode(cps: seq<int>): seq<Unit>
    requires Scalars(cps)
  {
    if cps == [] then [] else Units(cps[0]) + Encode(cps[1..])
  }

  predicate StartsWithPair(us: seq<Unit>) { |us| > 1 && IsLead(us[0]) && IsTrail(us[1]) }

  // Unpaired surrogates decode to the replacement character.
  function Decode(us: seq<Unit>): (cps: seq<int>)
    ensures Scalars(cps)
  {
    if us == [] then []
    else if StartsWithPair(us) then [0x1_0000 + (us[0] - 0xD800) * 0x400 + (us[1] - 0xDC00)] + Decode(us[2..])
    else if IsScalar(us[0]) then [us[0]] + Decode(us[1..])
    else [REPLACEMENT] + Decode(us[1..])
  }

  predicate WellFormed(us: seq<Unit>) {
    us == [] || (if StartsWithPair(us) then WellFormed(us[2..]) else IsScalar(us[0]) && WellFormed(us[1..]))
  }

  lemma DecodeUnits(cp: int, rest: seq<Unit>)
    requires IsScalar(cp)
    ensures Decode(Units(cp) + rest) == [cp] + Decode(rest)
    ensures WellFormed(rest) ==> WellFormed(Units(cp) + rest)
  {
    var us := Units(cp) + rest;
    assert us[|Units(cp)|..] == rest;
  }

  /** Every sequence of scalar values survives encoding and decoding, and its encoding is well-formed. */
  lemma {:induction false} DecodeEncode(cps: seq<int>)
    requires Scalars(cps)
    ensures Decode(Encode(cps)) == cps && WellFormed(Encode(cps))
  {
    if cps != [] {
      DecodeEncode(cps[1..]);
      DecodeUnits(cps[0], Encode(cps[1..]));
      assert cps == [cps[0]] + cps[1..];
    }
  }

  lemma {:induction false} EncodeDecodeWellFormed(us: seq<Unit>)
    requires WellFormed(us)
    ensures Encode(Decode(us)) == us
  {
    hide Units;
    if us == [] {
    } else if StartsWithPair(us) {
      EncodeDecodeWellFormed(us[2..]);
      UnitsOfPair(us[0], us[1]);
      assert Decode(us)[1..] == Decode(us[2..]) && us == us[..2] + us[2..];
    } else {
      EncodeDecodeWellFormed(us[1..]);
      UnitsOfScalar(us[0]);
      assert Decode(us)[1..] == Decode(us[1..]) && us == us[..1] + us[1..];
    }
  }

  lemma UnitsOfPair(lead: Unit, trail: Unit)
    requires IsLead(lead) && IsTrail(trail)
    ensures var cp := 0x1_0000 + (lead - 0xD800) * 0x400 + (trail - 0xDC00); IsScalar(cp) && Units(cp) == [lead, trail]
  {
  }

  lemma UnitsOfScalar(u: Unit)
    requires IsScalar(u)
    ensures Units(u) == [u]
  {
  }

  /** Decoding and encoding again gives a string back exactly when it is well-formed. */
  lemma {:induction false} EncodeDecode(us: seq<Unit>)
    ensures Encode(Decode(us)) == us <==> WellFormed(us)
  {
    DecodeEncode(Decode(us));
    if WellFormed(us) {
      EncodeDecodeWellFormed(us);
    }
  }

  /** The scalar values are the code points up to 10FFFF but for the surrogates, and UTF-16 writes them as in Table 3-5 of the
      standard: those up to FFFF as themselves, the others as a pair that holds ten bits each. */
  lemma EncodingTable(cp: int, lead: Unit, trail: Unit)
    requires IsLead(lead) && IsTrail(trail)
    ensures IsScalar(cp) <==> 0 <= cp <= 0x10_FFFF && !(0xD800 <= cp <= 0xDFFF)
    ensures IsLead(cp) <==> 0xD800 <= cp <= 0xDBFF
    ensures IsTrail(cp) <==> 0xDC00 <= cp <= 0xDFFF
    ensures IsScalar(cp) && cp <= 0xFFFF ==> Encode([cp]) == [cp]
    ensures IsScalar(cp) && cp > 0xFFFF ==>
      (Encode([cp]) == [lead, trail] <==> cp == 0x1_0000 + (lead - 0xD800) * 0x400 + (trail - 0xDC00))
  {
    if IsScalar(cp) {
      assert [cp][1..] == [];
      assert Encode([cp]) == Units(cp);
    }
  }

  // ---------- truncation ----------

  // The number of code points that fit in the given room.
  function Fit(cps: seq<int>, room: nat): (p: nat)
    requires Scalars(cps)
    ensures p <= |cps| && p <= room
  {
    if cps == [] || |Units(cps[0])| > room then 0 else 1 + Fit(cps[1..], room - |Units(cps[0])|)
  }

  lemma {:induction false} EncodePrefix(cps: seq<int>, p: nat)
    requires Scalars(cps) && 0 < p <= |cps|
    ensures Scalars(cps[..p]) && Scalars(cps[1..][..p - 1])
    ensures Encode(cps[..p]) == Units(cps[0]) + Encode(cps[1..][..p - 1])
  {
    assert cps[..p][1..] == cps[1..][..p - 1];
  }

  /** Fit is the longest: a prefix of code points fits exactly when it has at most that many. */
  lemma {:induction false} FitIsLongest(cps: seq<int>, room: nat, p: nat)
    requires Scalars(cps) && p <= |cps|
    ensures Scalars(cps[..p])
    ensures |Encode(cps[..p])| <= room <==> p <= Fit(cps, room)
  {
    if p > 0 {
      EncodePrefix(cps, p);
      if |Units(cps[0])| <= room {
        FitIsLongest(cps[1..], room - |Units(cps[0])|, p - 1);
      }
    }
  }

  // Where a buffer that received the first `room` units is cut: one unit earlier if it ends in a lead surrogate.
  function Cut(encoded: seq<Unit>, room: nat): (n: nat)
    ensures n <= |encoded| && n <= room
  {
    var n := if |encoded| < room then |encoded| else room;
    if n > 0 && IsLead(encoded[n - 1]) then n - 1 else n
  }

  /** Cutting off a trailing lead surrogate leaves exactly the encoding of the longest prefix that fits. */
  lemma {:induction false} CutIsFit(cps: seq<int>, room: nat)
    requires Scalars(cps)
    ensures Scalars(cps[..Fit(cps, room)])
    ensures Encode(cps)[..Cut(Encode(cps), room)] == Encode(cps[..Fit(cps, room)])
  {
    if cps != [] {
      var first, rest := Units(cps[0]), Encode(cps[1..]);
      assert Encode(cps) == first + rest;
      if |first| <= room {
        CutIsFit(cps[1..], room - |first|);
        var p := Fit(cps[1..], room - |first|);
        EncodePrefix(cps, p + 1);
        CutShifts(first, rest, room);
      } else {
        assert Cut(Encode(cps), room) == 0;
      }
    }
  }

  lemma CutShifts(first: seq<Unit>, rest: seq<Unit>, room: nat)
    requires first != [] && |first| <= room && !IsLead(first[|first| - 1])
    ensures Cut(first + rest, room) == |first| + Cut(rest, room - |first|)
    ensures (first + rest)[..Cut(first + rest, room)] == first + rest[..Cut(rest, room - |first|)]
  {
  }

  // ---------- UTF-32 in 16-bit slots ----------

  // What 32 bits can hold; not every such value is a scalar.
  predicate Words(cps: seq<int>) { forall cp :: cp in cps ==> 0 <= cp < 0x1_0000_0000 }

  function Slot(cps: seq<int>, k: nat): Unit
    requires Words(cps) && k < 2 * |cps|
  {
    assert cps[k / 2] in cps;
    if k % 2 == 0 then cps[k / 2] % 0x1_0000 else cps[k / 2] / 0x1_0000
  }

  function Slots(cps: seq<int>): (s: seq<Unit>)
    requires Words(cps)
    ensures |s| == 2 * |cps|
  {
    seq(2 * |cps|, k requires 0 <= k < 2 * |cps| => Slot(cps, k))
  }

  function CodePointAt(s: seq<Unit>, i: nat): int
    requires 2 * i + 1 < |s|
  {
    var low: int, high: int := s[2 * i], s[2 * i + 1];
    low + high * 0x1_0000
  }

  // The index of the first code point, from i on, that is zero, at the limit, or not wholly in the slots.
  function TextEnd(s: seq<Unit>, i: nat, limit: nat): (end: nat)
    requires i <= limit
    ensures i <= end <= limit && (end == i || 2 * end <= |s|)
    ensures forall k :: i <= k < end ==> 2 * k + 1 < |s| && CodePointAt(s, k) != 0
    decreases limit - i
  {
    if i == limit || 2 * i + 1 >= |s| || CodePointAt(s, i) == 0 then i else TextEnd(s, i + 1, limit)
  }

  // Reading up to `limit` code points or a zero one stays inside the slots.
  predicate Readable(s: seq<Unit>, limit: nat) {
    var end := TextEnd(s, 0, limit);
    end == limit || 2 * end + 1 < |s|
  }

  // The code points that are read: up to `limit` of them, ending before a zero one.
  function Text(s: seq<Unit>, limit: nat): (cps: seq<int>)
    ensures |cps| == TextEnd(s, 0, limit) && 2 * |cps| <= |s|
    ensures Words(cps)
  {
    seq(TextEnd(s, 0, limit), i requires 0 <= i < TextEnd(s, 0, limit) => CodePointAt(s, i))
  }

  lemma CodePointOfSlots(cps: seq<int>, tail: seq<Unit>, i: nat)
    requires Words(cps) && i < |cps|
    ensures CodePointAt(Slots(cps) + tail, i) == cps[i]
  {
    assert cps[i] in cps;
    var s := Slots(cps);
    assert s[2 * i] == Slot(cps, 2 * i) && s[2 * i + 1] == Slot(cps, 2 * i + 1);
  }

  // A limit that is not reached before a zero code point leaves the whole text.
  lemma {:induction false} TextEndsAt(s: seq<Unit>, i: nat, limit: nat, end: nat)
    requires i <= end <= limit && (forall k :: i <= k < end ==> 2 * k + 1 < |s| && CodePointAt(s, k) != 0)
    requires end < limit ==> 2 * end + 1 < |s| && CodePointAt(s, end) == 0
    ensures TextEnd(s, i, limit) == end
    decreases end - i
  {
    if i < end {
      TextEndsAt(s, i + 1, limit, end);
    }
  }

  /** What is laid out in slots and terminated is read back, whatever follows the terminator. */
  lemma TextOfSlots(cps: seq<int>, tail: seq<Unit>, limit: nat)
    requires Words(cps) && 0 !in cps && |cps| <= limit
    ensures Readable(Slots(cps) + [0, 0] + tail, limit) && Text(Slots(cps) + [0, 0] + tail, limit) == cps
  {
    var s := Slots(cps) + ([0, 0] + tail);
    assert s == Slots(cps) + [0, 0] + tail;
    forall k | 0 <= k < |cps| ensures CodePointAt(s, k) == cps[k] != 0 {
      CodePointOfSlots(cps, [0, 0] + tail, k);
      assert cps[k] in cps;
    }
    assert CodePointAt(s, |cps|) == 0;
    TextEndsAt(s, 0, limit, |cps|);
  }

  // ---------- the two conversions ----------

  function Taken(cps: seq<int>, n: nat): (r: seq<int>)
    ensures |r| <= n && r <= cps
    ensures forall cp :: cp in r ==> cp in cps
  {
    if |cps| <= n then cps else cps[..n]
  }

  lemma ScalarsAreWords(cps: seq<int>)
    requires Scalars(cps)
    ensures Words(cps)
  {
  }

  // The first `capacity` code points of a UTF-16 text in slots, with a zero code point after them.
  function Expanded(us: seq<Unit>, capacity: nat): (s: seq<Unit>)
    ensures |s| <= 2 * capacity + 2
  {
    ScalarsAreWords(Decode(us));
    Slots(Taken(Decode(us), capacity)) + [0, 0]
  }

  // What replaces the front of a buffer, and what is left behind it.
  function Over(front: seq<Unit>, s: seq<Unit>): seq<Unit>
    requires |front| <= |s|
  {
    front + s[|front|..]
  }

  // A buffer whose first `srcChars` units have been expanded over themselves. Nothing happens to an empty text: not
  // even a terminator is written.
  function InPlace(s: seq<Unit>, srcChars: nat, bufSlots: nat): (r: seq<Unit>)
    requires srcChars <= |s| && bufSlots <= |s|
    ensures |r| == |s|
  {
    if srcChars == 0 || bufSlots < 2 then s else Over(Expanded(s[..srcChars], (bufSlots - 2) / 2), s)
  }

  // The longest prefix of code points that fits, in UTF-16, with a zero unit after it; an empty text when one of
  // the code points read is not a scalar value.
  function Narrowed(s: seq<Unit>, len: nat): (us: seq<Unit>)
    requires len > 0
    ensures 1 <= |us| <= len
  {
    var cps := Text(s, len);
    if Scalars(cps) then
      FitIsLongest(cps, len - 1, Fit(cps, len - 1));
      Encode(cps[..Fit(cps, len - 1)]) + [0]
    else [0]
  }

  lemma {:induction false} NoZeroUnits(cps: seq<int>)
    requires Scalars(cps)
    ensures 0 in cps <==> 0 in Encode(cps)
  {
    if cps != [] {
      NoZeroUnits(cps[1..]);
      assert cps == [cps[0]] + cps[1..];
    }
  }

  // Expanding into enough room and narrowing again, with whatever lies behind the terminator.
  lemma NarrowExpanded(us: seq<Unit>, tail: seq<Unit>, capacity: nat, len: nat)
    requires WellFormed(us) && 0 !in us && |Decode(us)| <= capacity && |us| < len
    ensures Readable(Expanded(us, capacity) + tail, len) && Narrowed(Expanded(us, capacity) + tail, len) == us + [0]
  {
    hide Encode, Decode, WellFormed, Slots, Readable, Text, Fit, Scalars, Words;
    var cps := Decode(us);
    EncodeDecode(us);
    NoZeroUnits(cps);
    NarrowSlots(cps, tail, len);
  }

  lemma NarrowSlots(cps: seq<int>, tail: seq<Unit>, len: nat)
    requires Scalars(cps) && 0 !in cps && |Encode(cps)| < len
    ensures Words(cps) && Readable(Slots(cps) + [0, 0] + tail, len)
    ensures Narrowed(Slots(cps) + [0, 0] + tail, len) == Encode(cps) + [0]
  {
    hide Encode, Slots, Readable, Text, Fit, Scalars, Words;
    ScalarsAreWords(cps);
    FitIsLongest(cps, len - 1, |cps|);
    EncodingIsLonger(cps);
    assert cps[..|cps|] == cps;
    TextOfSlots(cps, tail, len);
  }

  lemma {:induction false} EncodingIsLonger(cps: seq<int>)
    requires Scalars(cps)
    ensures |cps| <= |Encode(cps)|
  {
    if cps != [] {
      EncodingIsLonger(cps[1..]);
    }
  }

  // Narrowing scalar values into enough room and expanding again.
  lemma ExpandNarrowed(cps: seq<int>, tail: seq<Unit>, len: nat, capacity: nat)
    requires Scalars(cps) && 0 !in cps && |Encode(cps)| < len && |cps| <= capacity
    ensures Words(cps) && var s := Slots(cps) + [0, 0] + tail;
      && Readable(s, len) && Narrowed(s, len) == Encode(cps) + [0]
      && Expanded(Encode(cps), capacity) == Slots(cps) + [0, 0]
  {
    hide Encode, Decode, WellFormed, Slots, Readable, Narrowed, Scalars, Words;
    ScalarsAreWords(cps);
    DecodeEncode(cps);
    NarrowSlots(cps, tail, len);
  }

  // ---------- what truncation leaves ----------

  // Looking at only the first `len` code points does not shorten what fits in less than `len` units.
  lemma {:induction false} FitIgnoresRest(cps: seq<int>, len: nat, room: nat)
    requires Scalars(cps) && room < len
    ensures Fit(Taken(cps, len), room) == Fit(cps, room)
  {
    if |cps| > len && |Units(cps[0])| <= room {
      assert cps[..len][1..] == cps[1..][..len - 1] == Taken(cps[1..], len - 1);
      FitIgnoresRest(cps[1..], len - 1, room - |Units(cps[0])|);
    }
  }

  lemma {:induction false} EndUnderLimit(s: seq<Unit>, i: nat, limit: nat, more: nat)
    requires i <= limit <= more
    ensures var end := TextEnd(s, i, more); TextEnd(s, i, limit) == if end < limit then end else limit
    decreases limit - i
  {
    if i < limit && 2 * i + 1 < |s| && CodePointAt(s, i) != 0 {
      EndUnderLimit(s, i + 1, limit, more);
    }
  }

  /** Narrowing a terminated text of scalar values into `len` units yields the encoding of its longest prefix of
      code points that fits in len - 1 units: a longer prefix does not fit, and no surrogate pair is split. */
  lemma NarrowingRespectsCharacters(s: seq<Unit>, whole: nat, len: nat, p: nat)
    requires 0 < len <= whole && Scalars(Text(s, whole)) && p <= |Text(s, whole)|
    ensures var cps, us := Text(s, whole), Narrowed(s, len);
      && us[|us| - 1] == 0 && WellFormed(us[..|us| - 1])
      && us[..|us| - 1] == Encode(cps[..Fit(cps, len - 1)])
      && Scalars(cps[..p]) && (|Encode(cps[..p])| <= len - 1 <==> p <= Fit(cps, len - 1))
  {
    hide Encode, Decode, WellFormed, TextEnd;
    var cps := Text(s, whole);
    EndUnderLimit(s, 0, len, whole);
    assert Text(s, len) == Taken(cps, len);
    FitIgnoresRest(cps, len, len - 1);
    FitIsLongest(cps, len - 1, p);
    var fit := cps[..Fit(cps, len - 1)];
    assert Taken(cps, len)[..Fit(cps, len - 1)] == fit;
    assert Scalars(fit);
    DecodeEncode(fit);
    assert Narrowed(s, len) == Encode(fit) + [0];
  }

  /** Expanding yields the first min(k, capacity) code points of the text. */
  lemma ExpandingKeepsPrefix(us: seq<Unit>, tail: seq<Unit>, capacity: nat)
    requires 0 !in Decode(us)
    ensures Text(Expanded(us, capacity) + tail, capacity + 1) == Taken(Decode(us), capacity)
  {
    hide Decode;
    var cps := Taken(Decode(us), capacity);
    ScalarsAreWords(Decode(us));
    TextOfSlots(cps, tail, capacity + 1);
  }

  // ---------- expanding in place ----------

  lemma {:induction false} DecodingIsShort(us: seq<Unit>)
    ensures |Decode(us)| <= |us|
  {
    if StartsWithPair(us) {
      DecodingIsShort(us[2..]);
    } else if us != [] {
      DecodingIsShort(us[1..]);
    }
  }

  lemma TextEndsAtZero(s: seq<Unit>, limit: nat)
    requires limit > 0 && |s| >= 2
    ensures Text(s, limit) == [] <==> CodePointAt(s, 0) == 0
  {
    assert |Text(s, limit)| == TextEnd(s, 0, limit);
  }

  /** A text of n units without zeros, expanded in place with room for every code point, is read back if and only if it
      is not empty, or the first code point slot happened to be zero already. */
  lemma InPlaceReadsBack(s: seq<Unit>, n: nat, bufSlots: nat, limit: nat)
    requires 2 * n + 2 <= bufSlots <= |s| && 0 !in Decode(s[..n]) && n < limit
    ensures Text(InPlace(s, n, bufSlots), limit) == Decode(s[..n]) <==> n > 0 || CodePointAt(s, 0) == 0
  {
    hide Decode, Slots, Text, CodePointAt;
    DecodingIsShort(s[..n]);
    if n == 0 {
      assert s[..n] == [];
      DecodeNothing();
      TextEndsAtZero(s, limit);
    } else {
      var cps, tail := Decode(s[..n]), s[|Expanded(s[..n], (bufSlots - 2) / 2)|..];
      ScalarsAreWords(cps);
      TextOfSlots(cps, tail, limit);
    }
  }

  /** Expanded in place into any room that takes a terminator, a text of at least one unit reads back as its first code points
      that fit in front of the terminator. */
  lemma InPlaceReadsPrefix(s: seq<Unit>, n: nat, bufSlots: nat, limit: nat)
    requires 0 < n <= |s| && 2 <= bufSlots <= |s| && 0 !in Decode(s[..n]) && bufSlots / 2 <= limit
    ensures Text(InPlace(s, n, bufSlots), limit) == Taken(Decode(s[..n]), bufSlots / 2 - 1)
  {
    hide Decode, Slots, Text, CodePointAt;
    var cps, tail := Taken(Decode(s[..n]), bufSlots / 2 - 1), s[|Expanded(s[..n], bufSlots / 2 - 1)|..];
    assert (bufSlots - 2) / 2 == bufSlots / 2 - 1;
    ScalarsAreWords(Decode(s[..n]));
    TextOfSlots(cps, tail, limit);
  }

  lemma DecodeNothing()
    ensures Decode([]) == []
  {
  }

  /** The failing input: an empty text in front of leftover units. A reader of 4-byte text finds U+10000 in it. */
  lemma EmptyTextIsNotTerminated()
    ensures InPlace([0, 1, 0, 0], 0, 4) == [0, 1, 0, 0] && Text([0, 1, 0, 0], 2) == [0x1_0000]
  {
    var s: seq<Unit> := [0, 1, 0, 0];
    assert CodePointAt(s, 0) == 0x1_0000 && CodePointAt(s, 1) == 0;
    TextEndsAt(s, 0, 2, 1);
  }

  // When slots that were left as they stood narrow to an empty text: they hold one, one of the code points read is not a
  // scalar value, or there is no room for the first.
  predicate NarrowsToNothing(s: seq<Unit>, len: nat)
    requires |s| >= 2 && len > 0
  {
    || CodePointAt(s, 0) == 0
    || !Scalars(Text(s, len))
    || len == 1
    || (len == 2 && CodePointAt(s, 0) >= 0x1_0000)
  }

  lemma NothingNarrowed(s: seq<Unit>, len: nat)
    requires |s| >= 2 && len > 0
    ensures Narrowed(s, len)[0] == 0 <==> NarrowsToNothing(s, len)
  {
    hide TextEnd;
    var cps := Text(s, len);
    TextEndsAtZero(s, len);
    if cps != [] && Scalars(cps) {
      FirstCodePoint(s, len);
      assert cps[0] in cps;
      if Fit(cps, len - 1) > 0 {
        EncodePrefix(cps, Fit(cps, len - 1));
      }
    }
  }

  lemma FirstCodePoint(s: seq<Unit>, limit: nat)
    requires Text(s, limit) != []
    ensures |s| >= 2 && Text(s, limit)[0] == CodePointAt(s, 0) != 0
  {
  }
}

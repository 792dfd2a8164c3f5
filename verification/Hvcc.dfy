/**
 The hvcC patcher: sets array_completeness on every NAL-unit array of an
 HEVCDecoderConfigurationRecord (section 8.3.3.1.2 of ISO/IEC 14496-15) inside an fMP4
 init segment, walking the bytes in place.
 */
module Hvcc {
  import opened Text

  type Byte = b: int | 0 <= b < 256

  /** The four letters "hvcC". */
  const MARKER: seq<Byte> := [0x68, 0x76, 0x63, 0x43]

  /** The offset of the array count from the marker: four letters and 22 fixed bytes. */
  const COUNT_OFFSET: nat := 26

  /** `b | 0x80` */
  function SetTop(b: Byte): Byte {
    if b < 128 then b + 128 else b
  }

  /** On eight-bit words that is the bitwise OR with 0x80. */
  lemma SetTopIsOr(b: bv8)
    ensures b | 0x80 == if b < 128 then b + 128 else b
  {
  }

  function U16(s: seq<Byte>, i: nat): (n: nat)
    requires i + 2 <= |s|
    ensures n < 65536
  {
    256 * (s[i] as int) + s[i + 1]
  }

  lemma U16Is(s: seq<Byte>, i: nat)
    requires i + 2 <= |s|
    ensures U16(s, i) == 256 * (s[i] as int) + s[i + 1]
  {
  }

  /** Where the walk stands after `k` length-prefixed units at `off`; past the end when it runs out. */
  function SkipNalus(s: seq<Byte>, off: nat, k: nat): (r: nat)
    ensures off <= r
    decreases k
  {
    if k == 0 || off >= |s| then off
    else if off + 2 > |s| then |s|
    else SkipNalus(s, off + 2 + U16(s, off), k - 1)
  }

  /** The array headers the walk visits from `off` on, with `n` arrays to go. */
  function Headers(s: seq<Byte>, off: nat, n: nat): (r: set<nat>)
    ensures forall k | k in r :: off <= k < |s|
    decreases n
  {
    if n == 0 || off >= |s| then {}
    else if off + 3 > |s| then {off}
    else {off} + Headers(s, SkipNalus(s, off + 3, U16(s, off + 1)), n - 1)
  }

  /** The headers of a segment: those behind the array count of its first marker. */
  function HeadersOf(s: seq<Byte>): (r: set<nat>)
    ensures forall k | k in r :: k < |s|
  {
    match Index(s, MARKER)
    case None => {}
    case Some(start) =>
      var off := start + COUNT_OFFSET;
      if off >= |s| then {} else Headers(s, off + 1, s[off])
  }

  function SetAt(s: seq<Byte>, at: set<nat>): (r: seq<Byte>)
    ensures |r| == |s|
  {
    seq(|s|, k requires 0 <= k < |s| => if k in at then SetTop(s[k]) else s[k])
  }

  /** The patched segment. */
  function Patched(s: seq<Byte>): (r: seq<Byte>)
    ensures |r| == |s|
  {
    SetAt(s, HeadersOf(s))
  }

  // ---- The loops ----

  /** The inner loop: skips the units of one array, or reports that the bytes ran out inside one. */
  method WalkNalus(out: array<Byte>, start: nat, numNalus: nat) returns (off: nat, truncated: bool)
    ensures truncated ==> SkipNalus(out[..], start, numNalus) >= out.Length
    ensures !truncated ==> off == SkipNalus(out[..], start, numNalus)
    ensures start <= off
  {
    off := start;
    var j := 0;
    while j < numNalus && off < out.Length
      invariant start <= off && 0 <= j <= numNalus
      invariant SkipNalus(out[..], off, numNalus - j) == SkipNalus(out[..], start, numNalus)
    {
      if off + 2 > out.Length {
        return off, true;
      }
      var naluLen := 256 * (out[off] as int) + out[off + 1];
      off := off + 2 + naluLen;
      j := j + 1;
    }
    truncated := false;
  }

  /** Skipping reads only bytes before the place it stops at. */
  lemma {:induction false} SkipApart(s: seq<Byte>, t: seq<Byte>, off: nat, k: nat)
    requires |s| == |t| && forall i | off <= i < |s| && i < SkipNalus(s, off, k) :: t[i] == s[i]
    ensures SkipNalus(t, off, k) == SkipNalus(s, off, k)
    decreases k
  {
    if k > 0 && off + 2 <= |s| {
      assert U16(t, off) == U16(s, off);
      SkipApart(s, t, off + 2 + U16(s, off), k - 1);
    }
  }

  /** The walk as it writes: `t` is what the buffer holds when the walk stands at `off`. */
  function Walk(s: seq<Byte>, off: nat, n: nat, t: seq<Byte>): (r: seq<Byte>)
    requires |t| == |s|
    ensures |r| == |s|
    decreases n
  {
    if n == 0 || off >= |s| then t
    else
      var t' := t[off := SetTop(t[off])];
      if off + 3 > |s| then t' else Walk(s, SkipNalus(s, off + 3, U16(s, off + 1)), n - 1, t')
  }

  /** The walk sets exactly the headers. */
  lemma {:induction false} WalkSetsHeaders(s: seq<Byte>, off: nat, n: nat, t: seq<Byte>)
    requires |t| == |s|
    ensures Walk(s, off, n, t) == SetAt(t, Headers(s, off, n))
    decreases n
  {
    if n > 0 && off < |s| {
      var t' := t[off := SetTop(t[off])];
      if off + 3 <= |s| {
        var next := SkipNalus(s, off + 3, U16(s, off + 1));
        WalkSetsHeaders(s, next, n - 1, t');
        hide SkipNalus, U16;
        assert off !in Headers(s, next, n - 1);
      }
    }
  }

  lemma WalkStep(s: seq<Byte>, off: nat, n: nat, t: seq<Byte>)
    requires |t| == |s| && n > 0 && off < |s|
    ensures
      var t' := t[off := SetTop(t[off])];
      Walk(s, off, n, t) == if off + 3 > |s| then t' else Walk(s, SkipNalus(s, off + 3, U16(s, off + 1)), n - 1, t')
  {
  }

  lemma WalkDone(s: seq<Byte>, off: nat, n: nat, t: seq<Byte>)
    requires |t| == |s| && (n == 0 || off >= |s|)
    ensures Walk(s, off, n, t) == t
  {
  }

  lemma PatchedIsWalk(s: seq<Byte>)
    ensures
      match Index(s, MARKER)
      case None => Patched(s) == s
      case Some(start) =>
        Patched(s) == if start + COUNT_OFFSET >= |s| then s
                      else Walk(s, start + COUNT_OFFSET + 1, s[start + COUNT_OFFSET], s)
  {
    hide Walk, Headers, IndexFrom;
    var found := Index(s, MARKER);
    if found.Some? && found.value + COUNT_OFFSET < |s| {
      WalkSetsHeaders(s, found.value + COUNT_OFFSET + 1, s[found.value + COUNT_OFFSET], s);
    } else {
      assert SetAt(s, {}) == s;
    }
  }

  /** Reads the unit count at `start` and skips the units; `more` is false when the bytes ran out. */
  method SkipArray(out: array<Byte>, start: nat, ghost s: seq<Byte>) returns (off: nat, more: bool)
    requires |s| == out.Length && start <= out.Length && forall k | start <= k < out.Length :: out[k] == s[k]
    ensures more ==> start + 2 <= |s| && off == SkipNalus(s, start + 2, U16(s, start))
    ensures !more ==> start + 2 > |s| || SkipNalus(s, start + 2, U16(s, start)) >= |s|
    ensures start <= off
  {
    hide SkipNalus, U16;
    off := start;
    if off + 2 > out.Length {
      return off, false;
    }
    var numNalus := 256 * (out[off] as int) + out[off + 1];
    U16Is(s, off);
    off := off + 2;
    SkipApart(s, out[..], off, numNalus);
    var truncated;
    off, truncated := WalkNalus(out, off, numNalus);
    more := !truncated;
  }

  /** The outer loop, on the copy. */
  method MarkArrays(out: array<Byte>, start: nat, numArrays: nat)
    modifies out
    ensures out[..] == Walk(old(out[..]), start, numArrays, old(out[..]))
  {
    hide Walk, SkipNalus, U16;
    ghost var s := out[..];
    var off: nat, i: nat := start, 0;
    while i < numArrays && off < out.Length
      invariant 0 <= i <= numArrays
      invariant forall k | off <= k < out.Length :: out[k] == s[k]
      invariant Walk(s, off, numArrays - i, out[..]) == Walk(s, start, numArrays, s)
    {
      ghost var t := out[..];
      WalkStep(s, off, numArrays - i, t);
      out[off] := SetTop(out[off]);
      assert out[..] == t[off := SetTop(t[off])];
      var next, more := SkipArray(out, off + 1, s);
      if !more {
        if off + 3 <= |s| {
          WalkDone(s, SkipNalus(s, off + 3, U16(s, off + 1)), numArrays - i - 1, out[..]);
        }
        return;
      }
      off, i := next, i + 1;
    }
    WalkDone(s, off, numArrays - i, out[..]);
  }

  method PatchHVCCCompleteness(body: array<Byte>) returns (out: array<Byte>)
    ensures fresh(out) && out[..] == Patched(body[..])
    ensures body[..] == old(body[..])
  {
    out := new Byte[body.Length](i requires 0 <= i < body.Length reads body => body[i]);
    assert out[..] == body[..];
    PatchedIsWalk(body[..]);
    hide Patched, Index, Walk;
    var found := Index(out[..], MARKER);
    if found.None? {
      return;
    }
    var off := found.value + COUNT_OFFSET;
    if off >= out.Length {
      return;
    }
    MarkArrays(out, off + 1, out[off]);
  }

  // ---- Any bytes ----

  /** On every byte string only headers the walk visits change, and they change in their top bit only. */
  lemma PatchTouchesOnlyHeaders(s: seq<Byte>, k: nat)
    requires k < |s|
    ensures Patched(s)[k] != s[k] <==> k in HeadersOf(s) && s[k] < 128
    ensures Patched(s)[k] % 128 == s[k] % 128
    ensures k in HeadersOf(s) ==> Patched(s)[k] >= 128
  {
    hide HeadersOf;
  }

  lemma {:induction false} HeadersSame(s: seq<Byte>, t: seq<Byte>, off: nat, n: nat)
    requires |s| == |t| && forall k | off <= k < |s| && k !in Headers(s, off, n) :: t[k] == s[k]
    ensures Headers(t, off, n) == Headers(s, off, n)
    decreases n
  {
    if n > 0 && off + 3 <= |s| {
      var next := SkipNalus(s, off + 3, U16(s, off + 1));
      assert off + 1 !in Headers(s, next, n - 1) && off + 2 !in Headers(s, next, n - 1);
      assert U16(t, off + 1) == U16(s, off + 1);
      SkipApart(s, t, off + 3, U16(s, off + 1));
      HeadersSame(s, t, next, n - 1);
    }
  }

  lemma SamePrefix(s: seq<Byte>, t: seq<Byte>, end: nat, k: nat)
    requires |s| == |t| && (forall i | 0 <= i < end && i < |s| :: t[i] == s[i]) && k + |MARKER| <= end
    ensures OccursAt(t, MARKER, k) <==> OccursAt(s, MARKER, k)
  {
    if k + |MARKER| <= |s| { assert t[k..k + |MARKER|] == s[k..k + |MARKER|]; }
  }

  /** Nothing before the first array is touched, so the first marker stays the first marker. */
  lemma MarkerStays(s: seq<Byte>)
    ensures Index(Patched(s), MARKER) == Index(s, MARKER)
  {
    hide Headers, IndexFrom, OccursAt;
    var t, found := Patched(s), Index(s, MARKER);
    if found.Some? {
      var start := found.value;
      forall k: nat | k <= start ensures OccursAt(t, MARKER, k) <==> OccursAt(s, MARKER, k) {
        SamePrefix(s, t, start + COUNT_OFFSET, k);
      }
      IndexIs(t, MARKER, start);
    } else {
      assert t == s;
    }
  }

  /** The patched bytes have the same first marker and the same headers. */
  lemma PatchKeepsWalk(s: seq<Byte>)
    ensures HeadersOf(Patched(s)) == HeadersOf(s)
  {
    hide Headers, Index;
    var t := Patched(s);
    MarkerStays(s);
    var found := Index(s, MARKER);
    if found.Some? && found.value + COUNT_OFFSET < |s| {
      var off := found.value + COUNT_OFFSET;
      assert t[off] == s[off];
      HeadersSame(s, t, off + 1, s[off]);
    }
  }

  /** Patching twice is patching once, on every byte string. */
  lemma PatchIsIdempotent(s: seq<Byte>)
    ensures Patched(Patched(s)) == Patched(s)
  {
    PatchKeepsWalk(s);
  }

  // ---- Truncated bytes ----

  /** On a cut segment the skip ends where it would have, or both times behind the cut. */
  lemma {:induction false} SkipOfPrefix(s: seq<Byte>, n: nat, off: nat, k: nat)
    requires n <= |s|
    ensures
      var (a, b) := (SkipNalus(s[..n], off, k), SkipNalus(s, off, k));
      a == b || (a >= n && b >= n)
    decreases k
  {
    if k > 0 && off + 2 <= n {
      U16Is(s, off);
      U16Is(s[..n], off);
      hide U16;
      SkipOfPrefix(s, n, off + 2 + U16(s, off), k - 1);
    }
  }

  lemma {:induction false} HeadersOfPrefix(s: seq<Byte>, n: nat, off: nat, k: nat)
    requires n <= |s|
    ensures forall h | 0 <= h < n :: h in Headers(s[..n], off, k) <==> h in Headers(s, off, k)
    decreases k
  {
    if k > 0 && off + 3 <= n {
      U16Is(s, off + 1);
      U16Is(s[..n], off + 1);
      var units := U16(s, off + 1);
      SkipOfPrefix(s, n, off + 3, units);
      hide U16;
      HeadersOfPrefix(s, n, SkipNalus(s, off + 3, units), k - 1);
    }
  }

  lemma MarkerOfPrefix(s: seq<Byte>, n: nat)
    requires n <= |s|
    ensures
      var (a, b) := (Index(s[..n], MARKER), Index(s, MARKER));
      a == b || (a.None? && b.value + 4 > n)
  {
    hide IndexFrom;
    forall k: nat | k <= n ensures OccursAt(s[..n], MARKER, k) <==> k + 4 <= n && OccursAt(s, MARKER, k) {
      if k + 4 <= n { assert s[..n][k..k + 4] == s[k..k + 4]; }
    }
    var b := Index(s, MARKER);
    if b.Some? && b.value + 4 <= n { IndexIs(s[..n], MARKER, b.value); }
  }

  /** Wherever the segment is cut off: patching what is left of it gives what is left of the patched one. */
  lemma PatchOfPrefix(s: seq<Byte>, n: nat)
    requires n <= |s|
    ensures Patched(s[..n]) == Patched(s)[..n]
  {
    hide Headers, Index;
    MarkerOfPrefix(s, n);
    var found := Index(s, MARKER);
    if found.Some? && found.value + COUNT_OFFSET < n {
      var off := found.value + COUNT_OFFSET;
      assert s[..n][off] == s[off];
      HeadersOfPrefix(s, n, off + 1, s[off]);
    }
    forall k | 0 <= k < n ensures k in HeadersOf(s[..n]) <==> k in HeadersOf(s) { }
  }

  // ---- Well-formed records ----

  type Nalu = b: seq<Byte> | |b| < 65536

  /** One array of NAL units; `low` is the reserved bit and the six bits of NAL_unit_type. */
  datatype NalArray = NalArray(complete: bool, low: nat, nalus: seq<Nalu>)

  type OkArray = a: NalArray | a.low < 128 && |a.nalus| < 65536 witness NalArray(false, 0, [])

  datatype Record = Record(fixed: seq<Byte>, arrays: seq<OkArray>)

  predicate RecordOk(r: Record) {
    |r.fixed| == 22 && |r.arrays| < 256
  }

  function Complete(a: OkArray): OkArray {
    a.(complete := true)
  }

  function CompleteAll(arrays: seq<OkArray>): (c: seq<OkArray>)
    ensures |c| == |arrays|
  {
    if arrays == [] then [] else [Complete(arrays[0])] + CompleteAll(arrays[1..])
  }

  /** The record with array_completeness = 1 on every array. */
  function Completed(r: Record): Record {
    r.(arrays := CompleteAll(r.arrays))
  }

  function Bytes16(n: nat): (r: seq<Byte>)
    requires n < 65536
    ensures |r| == 2
  {
    [n / 256, n % 256]
  }

  function EncodeNalus(nalus: seq<Nalu>): seq<Byte> {
    if nalus == [] then [] else Bytes16(|nalus[0]|) + nalus[0] + EncodeNalus(nalus[1..])
  }

  function Header(a: OkArray): Byte {
    if a.complete then 128 + a.low else a.low
  }

  function EncodeArray(a: OkArray): seq<Byte> {
    [Header(a)] + (Bytes16(|a.nalus|) + EncodeNalus(a.nalus))
  }

  function EncodeArrays(arrays: seq<OkArray>): seq<Byte> {
    if arrays == [] then [] else EncodeArray(arrays[0]) + EncodeArrays(arrays[1..])
  }

  function Encode(r: Record): seq<Byte>
    requires RecordOk(r)
  {
    r.fixed + [|r.arrays|] + EncodeArrays(r.arrays)
  }

  // ---- Decoding ----

  datatype Units = BadUnits | Units(nalus: seq<Nalu>, rest: seq<Byte>)
  datatype Arrays = BadArrays | Arrays(arrays: seq<OkArray>, rest: seq<Byte>)

  function DecodeNalus(b: seq<Byte>, k: nat): (u: Units)
    ensures u.Units? ==> |u.nalus| == k
    decreases k
  {
    if k == 0 then Units([], b)
    else if |b| < 2 || |b| < 2 + U16(b, 0) then BadUnits
    else
      var m := 2 + U16(b, 0);
      match DecodeNalus(b[m..], k - 1)
      case BadUnits => BadUnits
      case Units(nalus, rest) => Units([b[2..m]] + nalus, rest)
  }

  function DecodeArrays(b: seq<Byte>, n: nat): Arrays
    decreases n
  {
    if n == 0 then Arrays([], b)
    else if |b| < 3 then BadArrays
    else
      match DecodeNalus(b[3..], U16(b, 1))
      case BadUnits => BadArrays
      case Units(nalus, rest) =>
        match DecodeArrays(rest, n - 1)
        case BadArrays => BadArrays
        case Arrays(arrays, more) => Arrays([NalArray(b[0] >= 128, b[0] % 128, nalus)] + arrays, more)
  }

  /** The record at the front of `b`. */
  function Decode(b: seq<Byte>): Option<Record> {
    if |b| < 23 then None
    else
      match DecodeArrays(b[23..], b[22])
      case BadArrays => None
      case Arrays(arrays, _) => Some(Record(b[..22], arrays))
  }

  lemma Pieces(a: seq<Byte>, b: seq<Byte>, c: seq<Byte>)
    ensures (a + b + c)[|a|..|a| + |b|] == b
    ensures (a + b + c)[|a| + |b|..] == c
    ensures forall k | 0 <= k < |a| :: (a + b + c)[k] == a[k]
  {
  }

  lemma DecodeOneNalu(nalu: Nalu, tail: seq<Byte>, k: nat)
    requires k > 0
    ensures
      DecodeNalus(Bytes16(|nalu|) + nalu + tail, k) ==
        match DecodeNalus(tail, k - 1)
        case BadUnits => BadUnits
        case Units(nalus, rest) => Units([nalu] + nalus, rest)
  {
    var b, n := Bytes16(|nalu|) + nalu + tail, |nalu|;
    Pieces(Bytes16(n), nalu, tail);
    assert U16(b, 0) == n;
  }

  lemma {:induction false} DecodeNalusBack(nalus: seq<Nalu>, rest: seq<Byte>)
    ensures DecodeNalus(EncodeNalus(nalus) + rest, |nalus|) == Units(nalus, rest)
  {
    if nalus == [] {
      assert EncodeNalus(nalus) + rest == rest;
    } else {
      var x, more := nalus[0], nalus[1..];
      assert nalus == [x] + more;
      assert EncodeNalus(nalus) == Bytes16(|x|) + x + EncodeNalus(more);
      DecodeNalusBack(more, rest);
      DecodeOneNalu(x, EncodeNalus(more) + rest, |nalus|);
      hide EncodeNalus, DecodeNalus, Bytes16;
      Regroup(Bytes16(|x|) + x, EncodeNalus(more), rest, []);
    }
  }

  lemma DecodeOneArray(a: OkArray, more: seq<Byte>, n: nat)
    requires n > 0
    ensures
      DecodeArrays(EncodeArray(a) + more, n) ==
        match DecodeArrays(more, n - 1)
        case BadArrays => BadArrays
        case Arrays(arrays, rest) => Arrays([a] + arrays, rest)
  {
    var units := EncodeNalus(a.nalus) + more;
    DecodeNalusBack(a.nalus, more);
    hide EncodeNalus, DecodeNalus;
    var b := EncodeArray(a) + more;
    assert b == [Header(a)] + Bytes16(|a.nalus|) + units;
    assert U16(b, 1) == |a.nalus| && b[3..] == units;
    assert NalArray(b[0] >= 128, b[0] % 128, a.nalus) == a;
  }

  lemma FirstArray(arrays: seq<OkArray>)
    requires arrays != []
    ensures EncodeArrays(arrays) == EncodeArray(arrays[0]) + EncodeArrays(arrays[1..])
    ensures arrays == [arrays[0]] + arrays[1..]
  {
    hide EncodeArray;
  }

  lemma NoArrays(rest: seq<Byte>)
    ensures DecodeArrays(EncodeArrays([]) + rest, 0) == Arrays([], rest)
  {
    assert EncodeArrays([]) + rest == rest;
  }

  lemma {:induction false} DecodeArraysBack(arrays: seq<OkArray>, rest: seq<Byte>)
    ensures DecodeArrays(EncodeArrays(arrays) + rest, |arrays|) == Arrays(arrays, rest)
  {
    hide EncodeArrays, EncodeArray, DecodeArrays;
    if arrays == [] {
      NoArrays(rest);
    } else {
      var more := EncodeArrays(arrays[1..]) + rest;
      FirstArray(arrays);
      DecodeArraysBack(arrays[1..], rest);
      DecodeOneArray(arrays[0], more, |arrays|);
      Regroup(EncodeArray(arrays[0]), EncodeArrays(arrays[1..]), rest, []);
    }
  }

  /** Decoding undoes encoding, whatever follows the record. */
  lemma DecodeUndoesEncode(r: Record, rest: seq<Byte>)
    requires RecordOk(r)
    ensures Decode(Encode(r) + rest) == Some(r)
  {
    hide EncodeArrays, DecodeArrays;
    var b := Encode(r) + rest;
    assert b == r.fixed + [|r.arrays|] + (EncodeArrays(r.arrays) + rest);
    assert b[..22] == r.fixed && b[22] == |r.arrays| && b[23..] == EncodeArrays(r.arrays) + rest;
    DecodeArraysBack(r.arrays, rest);
  }

  // ---- The patch on a well-formed record ----

  /** One encoded unit: its length, and what stands behind it. */
  lemma EncodedUnit(s: seq<Byte>, off: nat, nalus: seq<Nalu>)
    requires nalus != [] && OccursAt(s, EncodeNalus(nalus), off)
    ensures off + 2 <= |s| && U16(s, off) == |nalus[0]|
    ensures |EncodeNalus(nalus)| == 2 + |nalus[0]| + |EncodeNalus(nalus[1..])|
    ensures OccursAt(s, EncodeNalus(nalus[1..]), off + 2 + |nalus[0]|)
  {
    var head := Bytes16(|nalus[0]|);
    OccursApart(s, off, head + nalus[0], EncodeNalus(nalus[1..]));
    OccursApart(s, off, head, nalus[0]);
    assert s[off..off + 2][0] == s[off] && s[off..off + 2][1] == s[off + 1];
  }

  /** The walk over encoded units, wherever they stand, ends right behind them. */
  lemma {:induction false} SkipEncoded(s: seq<Byte>, off: nat, nalus: seq<Nalu>)
    requires OccursAt(s, EncodeNalus(nalus), off)
    ensures SkipNalus(s, off, |nalus|) == off + |EncodeNalus(nalus)|
    decreases |nalus|
  {
    if nalus != [] {
      EncodedUnit(s, off, nalus);
      hide EncodeNalus, OccursAt, U16;
      SkipEncoded(s, off + 2 + |nalus[0]|, nalus[1..]);
    }
  }

  /** One encoded array: its unit count, and where the walk goes next. */
  lemma EncodedHead(s: seq<Byte>, off: nat, a: OkArray)
    requires OccursAt(s, EncodeArray(a), off)
    ensures off + 3 <= |s| && U16(s, off + 1) == |a.nalus|
    ensures SkipNalus(s, off + 3, U16(s, off + 1)) == off + |EncodeArray(a)|
  {
    hide EncodeNalus, SkipNalus;
    var e, u := EncodeArray(a), EncodeNalus(a.nalus);
    assert e == s[off..off + |e|] && |e| == 3 + |u|;
    assert s[off + 1] == e[1] && s[off + 2] == e[2];
    assert s[off + 3..off + |e|] == e[3..] == u;
    SkipEncoded(s, off + 3, a.nalus);
  }

  lemma MarkHead(before: seq<Byte>, h: Byte, tail: seq<Byte>, more: seq<Byte>)
    ensures
      var t := before + ([h] + tail) + more;
      t[|before| := SetTop(t[|before|])] == before + ([SetTop(h)] + tail) + more
  {
  }

  lemma HeaderAndTail(a: OkArray)
    ensures
      var tail := Bytes16(|a.nalus|) + EncodeNalus(a.nalus);
      EncodeArray(a) == [Header(a)] + tail && EncodeArray(Complete(a)) == [SetTop(Header(a))] + tail
  {
    hide Bytes16, EncodeNalus;
  }

  /** One array of the walk: its encoding becomes that of the completed array. */
  lemma WalkOne(s: seq<Byte>, before: seq<Byte>, a: OkArray, more: seq<Byte>, n: nat)
    requires n > 0 && OccursAt(s, EncodeArray(a), |before|) && |s| == |before + EncodeArray(a) + more|
    ensures |EncodeArray(Complete(a))| == |EncodeArray(a)|
    ensures Walk(s, |before|, n, before + EncodeArray(a) + more) ==
            Walk(s, |before + EncodeArray(Complete(a))|, n - 1, before + EncodeArray(Complete(a)) + more)
  {
    hide EncodeNalus, SkipNalus, Walk, Bytes16, EncodeArray, Header, Complete, U16, OccursAt, SetTop;
    var tail := Bytes16(|a.nalus|) + EncodeNalus(a.nalus);
    HeaderAndTail(a);
    EncodedHead(s, |before|, a);
    WalkStep(s, |before|, n, before + EncodeArray(a) + more);
    MarkHead(before, Header(a), tail, more);
  }

  lemma CompletedTail(arrays: seq<OkArray>)
    requires arrays != []
    ensures EncodeArrays(CompleteAll(arrays)) ==
            EncodeArray(Complete(arrays[0])) + EncodeArrays(CompleteAll(arrays[1..]))
  {
    hide EncodeArray, Complete;
    assert CompleteAll(arrays)[1..] == CompleteAll(arrays[1..]);
  }

  lemma NothingToWalk(s: seq<Byte>, before: seq<Byte>, after: seq<Byte>)
    requires |s| == |before + after|
    ensures Walk(s, |before|, 0, before + EncodeArrays([]) + after) == before + EncodeArrays(CompleteAll([])) + after
  {
    assert EncodeArrays([]) == [] && CompleteAll([]) == [] && before + [] == before;
  }

  /** The first of several arrays: the walk moves behind it, and the rest is as it was. */
  lemma WalkFirst(s: seq<Byte>, before: seq<Byte>, arrays: seq<OkArray>, after: seq<Byte>)
    requires arrays != []
    requires |s| == |before + EncodeArrays(arrays) + after| && OccursAt(s, EncodeArrays(arrays), |before|)
    ensures
      var next, others := before + EncodeArray(Complete(arrays[0])), arrays[1..];
      && |s| == |next + EncodeArrays(others) + after| && OccursAt(s, EncodeArrays(others), |next|)
      && Walk(s, |before|, |arrays|, before + EncodeArrays(arrays) + after) ==
           Walk(s, |next|, |others|, next + EncodeArrays(others) + after)
  {
    hide EncodeArray, EncodeArrays, Walk, OccursAt, Complete;
    var a, others := arrays[0], arrays[1..];
    var e, c, more := EncodeArray(a), EncodeArray(Complete(a)), EncodeArrays(others);
    FirstArray(arrays);
    OccursApart(s, |before|, e, more);
    Regroup(before, e, more, after);
    Regroup(before, c, more, after);
    assert |before + e + (more + after)| == |before + (e + more) + after|;
    WalkOne(s, before, a, more + after, |arrays|);
  }

  /** Walking over encoded arrays writes the encoding of the completed ones and nothing else. */
  lemma {:induction false} WalkEncoded(s: seq<Byte>, before: seq<Byte>, arrays: seq<OkArray>, after: seq<Byte>)
    requires |s| == |before + EncodeArrays(arrays) + after| && OccursAt(s, EncodeArrays(arrays), |before|)
    ensures Walk(s, |before|, |arrays|, before + EncodeArrays(arrays) + after)
            == before + EncodeArrays(CompleteAll(arrays)) + after
    decreases |arrays|
  {
    hide EncodeArray, EncodeArrays, Walk, CompleteAll, Complete, OccursAt;
    if arrays == [] {
      EmptyArrays();
      NothingToWalk(s, before, after);
    } else {
      var c, others := EncodeArray(Complete(arrays[0])), arrays[1..];
      WalkFirst(s, before, arrays, after);
      CompletedTail(arrays);
      Regroup(before, c, EncodeArrays(CompleteAll(others)), after);
      WalkEncoded(s, before + c, others, after);
    }
  }

  lemma EmptyArrays()
    ensures EncodeArrays([]) == []
  {
  }

  /** No occurrence of the marker starts in a prefix without one, not even across its end. */
  lemma MarkerAfterPrefix(before: seq<Byte>, rest: seq<Byte>)
    requires !Contains(before, MARKER)
    ensures Index(before + MARKER + rest, MARKER) == Some(|before|)
  {
    var s := before + MARKER + rest;
    assert s[|before|..|before| + 4] == MARKER;
    forall k: nat | k < |before|
      ensures !OccursAt(s, MARKER, k)
    {
      if k + 4 <= |before| {
        assert s[k..k + 4] == before[k..k + 4];
        assert !OccursAt(before, MARKER, k);
      } else {
        // The first letter of the true marker cannot stand for a later letter of this one.
        assert s[k..k + 4][|before| - k] == MARKER[0];
      }
    }
    IndexIs(s, MARKER, |before|);
  }

  lemma RecordInPlace(before: seq<Byte>, r: Record, after: seq<Byte>)
    requires RecordOk(r)
    ensures
      var head := before + MARKER + r.fixed + [|r.arrays|];
      && before + MARKER + Encode(r) + after == head + EncodeArrays(r.arrays) + after
      && before + MARKER + Encode(r) + after == before + MARKER + (Encode(r) + after)
      && |head| == |before| + COUNT_OFFSET + 1 && head[|before| + COUNT_OFFSET] == |r.arrays|
  {
    hide EncodeArrays;
    Regroup(before + MARKER, r.fixed + [|r.arrays|], EncodeArrays(r.arrays), after);
    assert before + MARKER + (r.fixed + [|r.arrays|]) == before + MARKER + r.fixed + [|r.arrays|];
  }

  /**
   For every well-formed record behind a prefix with no earlier marker, patching completes
   every array and changes no other byte of the segment.
   */
  lemma PatchCompletesRecord(before: seq<Byte>, r: Record, after: seq<Byte>)
    requires RecordOk(r) && !Contains(before, MARKER)
    ensures RecordOk(Completed(r))
    ensures Patched(before + MARKER + Encode(r) + after) == before + MARKER + Encode(Completed(r)) + after
    ensures Decode(Patched(before + MARKER + Encode(r) + after)[|before| + 4..]) == Some(Completed(r))
  {
    hide EncodeArrays, Walk, Decode, Encode, Index, Patched, CompleteAll, OccursAt, Contains;
    var c := Completed(r);
    RecordInPlace(before, r, after);
    RecordInPlace(before, c, after);
    MarkerAfterPrefix(before, Encode(r) + after);
    var s := before + MARKER + Encode(r) + after;
    var head, body := before + MARKER + r.fixed + [|r.arrays|], EncodeArrays(r.arrays);
    Pieces(head, body, after);
    OccursBetween<Byte>(head, body, after);
    assert s == head + body + after;
    PatchedIsWalk(s);
    WalkEncoded(s, head, r.arrays, after);
    Pieces(before, MARKER, Encode(c) + after);
    DecodeUndoesEncode(c, after);
  }
}

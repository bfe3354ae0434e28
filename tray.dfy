/** The byte-level logic of src/tray.rs: reading the directory of an
    embedded ICO file and choosing the image handed to
    CreateIconFromResourceEx, the fixed 128-unit tooltip buffer, and the
    NUL-terminated UTF-16 strings of `wide_str`. The Win32 calls around
    them are not modelled. */
module Tray {
  import opened Results
  import Utf16

  type byte = x: int | 0 <= x < 0x100

  type u32 = x: int | 0 <= x < 0x1_0000_0000

  const HEADER_LEN: nat := 6      // 2 reserved + 2 type + 2 count
  const ENTRY_LEN: nat := 16      // one ICONDIRENTRY
  const TARGET_SIZE: int := 16    // system tray icon size
  const TWO_32: int := 0x1_0000_0000

  // ---------------------------------------------------------------------
  // Little-endian fields

  function U16LE(lo: byte, hi: byte): (v: int)
    ensures 0 <= v < 0x1_0000
  {
    lo + 0x100 * hi
  }

  /** `u32::from_le_bytes` of the four bytes starting at `at`. */
  function U32LE(b: seq<byte>, at: nat): (v: int)
    requires at + 4 <= |b|
    ensures 0 <= v < TWO_32
  {
    b[at] as int + 0x100 * b[at + 1] as int + 0x1_0000 * b[at + 2] as int + 0x100_0000 * b[at + 3] as int
  }

  /** `u32::to_le_bytes`, the inverse of U32LE. */
  function LE32(v: int): (b: seq<byte>)
    requires 0 <= v < TWO_32
    ensures |b| == 4
  {
    [v % 0x100, v / 0x100 % 0x100, v / 0x1_0000 % 0x100, v / 0x100_0000]
  }

  lemma U32OfLE32(v: int)
    requires 0 <= v < TWO_32
    ensures U32LE(LE32(v), 0) == v
  {
    var b0, q0 := v % 0x100, v / 0x100;
    var b1, q1 := q0 % 0x100, q0 / 0x100;
    var b2, b3 := q1 % 0x100, q1 / 0x100;
    assert v == b0 + 0x100 * q0;
    assert q0 == b1 + 0x100 * q1;
    assert q1 == b2 + 0x100 * b3;
    assert v / 0x1_0000 == q1;
    assert v / 0x100_0000 == b3;
  }

  lemma LE32OfU32(b: seq<byte>)
    requires |b| == 4
    ensures LE32(U32LE(b, 0)) == b
  {
    var v := U32LE(b, 0);
    assert v == b[0] as int + 0x100 * (b[1] as int + 0x100 * (b[2] as int + 0x100 * b[3] as int));
    assert v % 0x100 == b[0] && v / 0x100 == b[1] as int + 0x100 * (b[2] as int + 0x100 * b[3] as int);
    var q0 := v / 0x100;
    assert q0 % 0x100 == b[1] && q0 / 0x100 == b[2] as int + 0x100 * b[3] as int;
    var q1 := q0 / 0x100;
    assert v / 0x1_0000 == q1 by {
      assert v == (v % 0x100) + 0x100 * ((q0 % 0x100) + 0x100 * q1);
    }
    assert v / 0x100_0000 == b[3] by {
      assert v == (v % 0x100) + 0x100 * (q0 % 0x100) + 0x1_0000 * (q1 % 0x100) + 0x100_0000 * b[3] as int;
    }
  }

  // ---------------------------------------------------------------------
  // The ICO directory

  /** What the loop records of one directory entry: the width with byte 0
      ("256") read as 255, the image size and the image offset. */
  datatype Entry = Entry(width: int, size: u32, offset: u32)

  function ActualWidth(w: byte): int
  {
    if w == 0 then 255 else w
  }

  function EntryBase(i: nat): nat
  {
    HEADER_LEN + ENTRY_LEN * i
  }

  /** Entry `i`: width at byte 6+16i, size at +8..+11, offset at +12..+15. */
  function EntryAt(ico: seq<byte>, i: nat): (e: Entry)
    requires EntryBase(i) + ENTRY_LEN <= |ico|
    ensures 1 <= e.width <= 255
    ensures 0 <= e.size < TWO_32 && 0 <= e.offset < TWO_32
  {
    var base := EntryBase(i);
    Entry(ActualWidth(ico[base]), U32LE(ico, base + 8), U32LE(ico, base + 12))
  }

  /** The entry count, bytes 4-5 as a little-endian u16. */
  function Count(ico: seq<byte>): nat
    requires |ico| >= HEADER_LEN
  {
    U16LE(ico[4], ico[5])
  }

  function Entries(ico: seq<byte>, n: nat): (es: seq<Entry>)
    requires EntryBase(n) <= |ico|
    ensures |es| == n
  {
    if n == 0 then [] else Entries(ico, n - 1) + [EntryAt(ico, n - 1)]
  }

  lemma {:induction false} EntriesAt(ico: seq<byte>, n: nat, k: nat)
    requires EntryBase(n) <= |ico| && k < n
    ensures Entries(ico, n)[k] == EntryAt(ico, k)
  {
    if k < n - 1 {
      EntriesAt(ico, n - 1, k);
    }
  }

  // ---------------------------------------------------------------------
  // Entry selection

  /** The replacement test, all three clauses as written: an exact match,
      a narrower width still at least the target, or (when the best so far
      is below the target) any wider one. */
  predicate Replaces(bestW: int, w: int)
  {
    w == TARGET_SIZE
    || (bestW != TARGET_SIZE && w < bestW && w >= TARGET_SIZE)
    || (bestW != TARGET_SIZE && bestW < TARGET_SIZE && w > bestW)
  }

  /** The loop's state after some entries: best_w and which entry it last
      took, if any. */
  datatype Pick = Pick(bestW: int, chosen: Option<nat>)

  function Scan(es: seq<Entry>): (p: Pick)
    ensures p.chosen.Some? ==> p.chosen.value < |es|
  {
    if es == [] then Pick(255, None)
    else
      var p := Scan(es[..|es| - 1]);
      var e := es[|es| - 1];
      if Replaces(p.bestW, e.width) then Pick(e.width, Some(|es| - 1)) else p
  }

  predicate Candidate(e: Entry)
  {
    TARGET_SIZE <= e.width < 255
  }

  predicate NoCandidate(es: seq<Entry>)
  {
    forall j :: 0 <= j < |es| ==> !Candidate(es[j])
  }

  predicate HasExact(es: seq<Entry>)
  {
    exists j :: 0 <= j < |es| && es[j].width == TARGET_SIZE
  }

  /** The entry the selection is meant to pick, stated outright: the last
      entry of width 16 if there is one; otherwise the first entry of least
      width among those with 16 < width < 255. */
  predicate Preferred(es: seq<Entry>, k: nat)
  {
    k < |es| &&
    if HasExact(es) then
      es[k].width == TARGET_SIZE && forall j :: k < j < |es| ==> es[j].width != TARGET_SIZE
    else
      Candidate(es[k])
      && (forall j :: 0 <= j < |es| && Candidate(es[j]) ==> es[k].width <= es[j].width)
      && (forall j :: 0 <= j < k && Candidate(es[j]) ==> es[k].width < es[j].width)
  }

  /** What holds of the loop state after every prefix: best_w starts at 255
      and never drops below the target, it is the width of the entry taken,
      it is 16 exactly when some entry had width 16, and the entry taken is
      the preferred one of the prefix. */
  predicate ScanFacts(es: seq<Entry>, p: Pick)
  {
    TARGET_SIZE <= p.bestW <= 255
    && (p.chosen.None? ==> p.bestW == 255 && forall j :: 0 <= j < |es| ==> !Candidate(es[j]))
    && (p.chosen.Some? ==> Preferred(es, p.chosen.value) && p.bestW == es[p.chosen.value].width)
    && (p.bestW == TARGET_SIZE <==> HasExact(es))
  }

  lemma ScanStep(es: seq<Entry>, e: Entry)
    requires ScanFacts(es, Scan(es))
    ensures ScanFacts(es + [e], Scan(es + [e]))
  {
    var es' := es + [e];
    assert es'[..|es'| - 1] == es;
    var p := Scan(es);
    assert forall j :: 0 <= j < |es| ==> es'[j] == es[j];
    if e.width == TARGET_SIZE {
      assert es'[|es|].width == TARGET_SIZE;
    } else {
      assert HasExact(es') == HasExact(es) by {
        if HasExact(es') {
          var j :| 0 <= j < |es'| && es'[j].width == TARGET_SIZE;
          assert j < |es| && es[j].width == TARGET_SIZE;
        }
        if HasExact(es) {
          var j :| 0 <= j < |es| && es[j].width == TARGET_SIZE;
          assert es'[j].width == TARGET_SIZE;
        }
      }
      if Replaces(p.bestW, e.width) {
        assert p.bestW != TARGET_SIZE && TARGET_SIZE <= e.width < p.bestW;
      } else if p.chosen.Some? {
        var k := p.chosen.value;
        if !HasExact(es) {
          assert forall j :: 0 <= j < |es'| && Candidate(es'[j]) ==> es'[k].width <= es'[j].width;
        }
      }
    }
  }

  lemma {:induction false} ScanInvariant(es: seq<Entry>)
    ensures ScanFacts(es, Scan(es))
  {
    if es != [] {
      var init := es[..|es| - 1];
      ScanInvariant(init);
      ScanStep(init, es[|es| - 1]);
      assert init + [es[|es| - 1]] == es;
    }
  }

  /** The selection takes the preferred entry, and takes none exactly when
      no width lies between 16 and 254; an entry narrower than 16 is never
      taken, so the third clause of the test never decides anything. */
  lemma ScanPicksPreferred(es: seq<Entry>)
    ensures Scan(es).chosen.None? <==> forall j :: 0 <= j < |es| ==> !Candidate(es[j])
    ensures Scan(es).chosen.Some? ==> Preferred(es, Scan(es).chosen.value)
    ensures Scan(es).chosen.Some? ==> es[Scan(es).chosen.value].width >= TARGET_SIZE
  {
    ScanInvariant(es);
    var p := Scan(es);
    if p.chosen.Some? {
      var k := p.chosen.value;
      assert Candidate(es[k]);
    }
  }

  /** The best width never drops below 16, so the third clause of the test
      never holds when the loop evaluates it. */
  lemma ThirdClauseDead(es: seq<Entry>, w: int)
    ensures !(Scan(es).bestW != TARGET_SIZE && Scan(es).bestW < TARGET_SIZE && w > Scan(es).bestW)
  {
    ScanInvariant(es);
  }

  /** At most one entry is preferred, so the statement above fixes the
      choice. */
  lemma PreferredUnique(es: seq<Entry>, k1: nat, k2: nat)
    requires Preferred(es, k1) && Preferred(es, k2)
    ensures k1 == k2
  {
  }

  // ---------------------------------------------------------------------
  // load_icon_from_ico up to the slice

  /** The panics of load_icon_from_ico, by cause. */
  datatype IcoError =
    | HeaderTruncated      // ico_data[4] or ico_data[5] out of bounds
    | DirectoryTruncated   // an entry byte out of bounds
    | SliceOverflow        // best_offset + best_size beyond u32
    | SliceOutOfBounds     // slice end beyond the data

  /** `&ico_data[offset..offset + size]` with a u32 addition. In a debug
      build the addition itself panics on overflow; in a release build it
      wraps to an end below the start and the slice panics. */
  function ImageSlice(ico: seq<byte>, offset: int, size: int): (r: Result<seq<byte>, IcoError>)
    requires 0 <= offset < TWO_32 && 0 <= size < TWO_32
    ensures r.Ok? <==> offset + size <= |ico| && offset + size < TWO_32
    ensures r.Ok? ==> |r.value| == size && ico[offset..offset + size] == r.value
  {
    if offset + size >= TWO_32 then Err(SliceOverflow)
    else if offset + size > |ico| then Err(SliceOutOfBounds)
    else Ok(ico[offset..offset + size])
  }

  /** One more entry read: the selection step on entry `i`. */
  lemma ScanNext(ico: seq<byte>, i: nat)
    requires EntryBase(i) + ENTRY_LEN <= |ico|
    ensures var p := Scan(Entries(ico, i));
      var e := EntryAt(ico, i);
      Scan(Entries(ico, i + 1)) == if Replaces(p.bestW, e.width) then Pick(e.width, Some(i)) else p
  {
    assert Entries(ico, i + 1)[..i] == Entries(ico, i);
  }

  /** The image bytes load_icon_from_ico passes on, or the panic. */
  function LoadIcon(ico: seq<byte>): Result<seq<byte>, IcoError>
  {
    if |ico| < HEADER_LEN then Err(HeaderTruncated)
    else if EntryBase(Count(ico)) > |ico| then Err(DirectoryTruncated)
    else
      var es := Entries(ico, Count(ico));
      match Scan(es).chosen
      case None => ImageSlice(ico, 0, 0)
      case Some(k) => ImageSlice(ico, es[k].offset, es[k].size)
  }

  /** The reads of one directory entry (tray.rs:155-170). */
  method ReadEntry(ico: seq<byte>, i: nat) returns (actualW: int, dataSize: u32, dataOffset: u32)
    requires EntryBase(i) + ENTRY_LEN <= |ico|
    ensures Entry(actualW, dataSize, dataOffset) == EntryAt(ico, i)
  {
    var base := EntryBase(i);
    var w := ico[base];
    dataSize := U32LE(ico, base + 8);
    dataOffset := U32LE(ico, base + 12);
    actualW := if w == 0 then 255 else w;
  }

  /** The selection loop of load_icon_from_ico (tray.rs:150-180): one pass
      over the directory updating best_w, best_offset and best_size; a None
      result is the panic on an entry past the end of the data. */
  method SelectEntry(ico: seq<byte>, count: nat) returns (r: Option<(int, int)>, ghost chosen: Option<nat>)
    requires |ico| >= HEADER_LEN
    ensures r.None? <==> EntryBase(count) > |ico|
    ensures r.Some? ==> chosen == Scan(Entries(ico, count)).chosen
    ensures r.Some? && chosen.None? ==> r.value == (0, 0)
    ensures r.Some? && chosen.Some? ==>
      chosen.value < count && r.value == (EntryAt(ico, chosen.value).offset, EntryAt(ico, chosen.value).size)
  {
    var bestOffset := 0;
    var bestSize := 0;
    var bestW := 255;
    chosen := None;
    for i := 0 to count
      invariant EntryBase(i) <= |ico|
      invariant Pick(bestW, chosen) == Scan(Entries(ico, i))
      invariant chosen.None? ==> bestOffset == 0 && bestSize == 0
      invariant chosen.Some? ==> chosen.value < i && EntryBase(chosen.value) + ENTRY_LEN <= |ico|
      invariant chosen.Some? ==> bestOffset == EntryAt(ico, chosen.value).offset
      invariant chosen.Some? ==> bestSize == EntryAt(ico, chosen.value).size
    {
      var base := EntryBase(i);
      if base + ENTRY_LEN > |ico| {
        assert EntryBase(count) >= base + ENTRY_LEN;
        return None, chosen;
      }
      var actualW, dataSize, dataOffset := ReadEntry(ico, i);
      ScanNext(ico, i);
      if actualW == TARGET_SIZE
        || (bestW != TARGET_SIZE && actualW < bestW && actualW >= TARGET_SIZE)
        || (bestW != TARGET_SIZE && bestW < TARGET_SIZE && actualW > bestW)
      {
        bestW := actualW;
        bestOffset := dataOffset;
        bestSize := dataSize;
        chosen := Some(i);
      }
    }
    return Some((bestOffset, bestSize)), chosen;
  }

  /** load_icon_from_ico (tray.rs:144-182): the count, then the selection,
      then the slice. */
  method LoadIconImage(ico: seq<byte>) returns (r: Result<seq<byte>, IcoError>)
    ensures r == LoadIcon(ico)
  {
    if |ico| < HEADER_LEN {
      return Err(HeaderTruncated);
    }
    var count := U16LE(ico[4], ico[5]);
    var best, chosen := SelectEntry(ico, count);
    if best.None? {
      return Err(DirectoryTruncated);
    }
    var (bestOffset, bestSize) := best.value;
    if chosen.Some? {
      EntriesAt(ico, count, chosen.value);
    }
    if bestOffset + bestSize >= TWO_32 {
      return Err(SliceOverflow);
    }
    if bestOffset + bestSize > |ico| {
      return Err(SliceOutOfBounds);
    }
    return Ok(ico[bestOffset..bestOffset + bestSize]);
  }

  /** The outcome of load_icon_from_ico in the terms of Preferred: a short
      header or directory panics; with no entry of width 16 to 254 the
      slice is empty; otherwise it is the preferred entry's image, if that
      lies within the data. */
  lemma LoadIconSelects(ico: seq<byte>)
    ensures |ico| < HEADER_LEN ==> LoadIcon(ico) == Err(HeaderTruncated)
    ensures |ico| >= HEADER_LEN && EntryBase(Count(ico)) > |ico| ==> LoadIcon(ico) == Err(DirectoryTruncated)
    ensures |ico| >= HEADER_LEN && EntryBase(Count(ico)) <= |ico| ==>
      var es := Entries(ico, Count(ico));
      (NoCandidate(es) ==> LoadIcon(ico) == Ok([]))
      && (forall k: nat :: Preferred(es, k) ==> LoadIcon(ico) == ImageSlice(ico, es[k].offset, es[k].size))
  {
    if |ico| >= HEADER_LEN && EntryBase(Count(ico)) <= |ico| {
      var es := Entries(ico, Count(ico));
      ScanPicksPreferred(es);
      if NoCandidate(es) {
        assert Scan(es).chosen.None?;
        assert LoadIcon(ico) == ImageSlice(ico, 0, 0);
        assert ico[0..0] == [];
      }
      forall k: nat | Preferred(es, k)
        ensures LoadIcon(ico) == ImageSlice(ico, es[k].offset, es[k].size)
      {
        assert Scan(es).chosen.Some?;
        PreferredUnique(es, k, Scan(es).chosen.value);
      }
    }
  }

  // ---------------------------------------------------------------------
  // The tooltip buffer and wide strings

  const TIP_LEN: nat := 128

  /** The tooltip of update_state and add_tray_icon. */
  function TipText(isSpeakers: bool): string
  {
    if isSpeakers then "Audio: Speakers" else "Audio: Headphones"
  }

  /** `[0u16; 128]` with `units` copied into its prefix. */
  function Padded(units: seq<Utf16.u16>): (buf: seq<Utf16.u16>)
    requires |units| <= TIP_LEN
    ensures |buf| == TIP_LEN && buf[..|units|] == units
    ensures forall k :: |units| <= k < TIP_LEN ==> buf[k] == 0
  {
    units + seq(TIP_LEN - |units|, _ => 0)
  }

  /** The fill at tray.rs:91-93 and 239-241 on an array: a buffer of 128
      zeros whose prefix receives the encoded text; `copy_from_slice`
      panics (None) when the text needs more than 128 units. */
  method FillTip(units: seq<Utf16.u16>) returns (r: Option<seq<Utf16.u16>>)
    ensures r.None? <==> |units| > TIP_LEN
    ensures r.Some? ==> r.value == Padded(units)
  {
    var tip := new Utf16.u16[TIP_LEN](_ => 0);
    if |units| > tip.Length {
      return None;
    }
    for j := 0 to |units|
      invariant tip[..j] == units[..j]
      invariant forall k :: j <= k < TIP_LEN ==> tip[k] == 0
    {
      tip[j] := units[j];
    }
    assert tip[..] == Padded(units);
    return Some(tip[..]);
  }

  /** Both tooltips fit, end in a NUL before the buffer does, and read back
      as their text; they are different, so the tooltip tells the state. */
  lemma TipReadsBack(isSpeakers: bool)
    ensures |Utf16.Encode(TipText(isSpeakers))| < TIP_LEN
    ensures Utf16.Decode(Utf16.UntilNul(Padded(Utf16.Encode(TipText(isSpeakers))))) == Some(TipText(isSpeakers))
    ensures TipText(isSpeakers) != TipText(!isSpeakers)
  {
    var text := TipText(isSpeakers);
    var units := Utf16.Encode(text);
    assert '\0' !in text;
    Utf16.EncodeHasNoZero(text);
    var buf := Padded(units);
    assert buf == units + [0] + buf[|units| + 1..];
    Utf16.UntilNulOfTerminated(units, buf[|units| + 1..]);
    Utf16.DecodeEncode(text);
    assert |TipText(isSpeakers)| != |TipText(!isSpeakers)|;
  }

  /** `wide_str`: the UTF-16 units of `s` and one terminating 0. */
  function WideStr(s: string): (w: seq<Utf16.u16>)
    ensures |w| >= 1 && w[|w| - 1] == 0
    ensures Utf16.Decode(w[..|w| - 1]) == Some(s)
  {
    Utf16.DecodeEncode(s);
    assert (Utf16.Encode(s) + [0])[..|Utf16.Encode(s)|] == Utf16.Encode(s);
    Utf16.Encode(s) + [0]
  }

  /** A NUL-free string gives exactly one 0, at the end, and a reader that
      stops at the first 0 gets `s` back. */
  lemma WideStrTerminated(s: string)
    requires '\0' !in s
    ensures |WideStr(s)| >= 1 && WideStr(s)[|WideStr(s)| - 1] == 0
    ensures forall k :: 0 <= k < |WideStr(s)| - 1 ==> WideStr(s)[k] != 0
    ensures Utf16.Decode(Utf16.UntilNul(WideStr(s))) == Some(s)
  {
    Utf16.EncodeHasNoZero(s);
    var u := Utf16.Encode(s);
    assert forall k :: 0 <= k < |u| ==> WideStr(s)[k] == u[k];
    assert WideStr(s) == u + [0] + [];
    Utf16.UntilNulOfTerminated(u, []);
    Utf16.DecodeEncode(s);
  }
}

/** `find_part_disk`: the scan of a decoded device locator for the partition
    and disk GUIDs it holds. */
module GuidScan {
  import opened Text
  import opened HexValues
  import opened Guid

  /** The scan's result: the GUID strings found and the byte offsets of their windows. */
  datatype Found = Found(ids: seq<string>, offs: seq<nat>)

  /** The inner loop: from `idx`, step over zero bytes 4 at a time. It has no
      bounds check, so zeros up to the end raise IndexError. */
  function SkipZeros(arr: seq<nat>, idx: nat): (r: Result<nat>)
    ensures r.Ok? ==> idx <= r.value < |arr| && arr[r.value] != 0 && (r.value - idx) % 4 == 0
    ensures r.Err? ==> r.fault == IndexError
    decreases |arr| - idx
  {
    if idx >= |arr| then Err(IndexError)
    else if arr[idx] == 0 then
      SkipZeros(arr, idx + 4)
    else Ok(idx)
  }

  /** The skip stops at the first non-zero byte of the positions visited,
      and fails exactly when every visited byte is zero. */
  lemma {:induction false} SkipZerosMeans(arr: seq<nat>, idx: nat)
    ensures var r := SkipZeros(arr, idx);
      && (r.Ok? ==> forall k :: idx <= k < r.value && (k - idx) % 4 == 0 ==> arr[k] == 0)
      && (r.Err? <==> forall k :: idx <= k < |arr| && (k - idx) % 4 == 0 ==> arr[k] == 0)
    decreases |arr| - idx
  {
    if idx < |arr| && arr[idx] == 0 {
      SkipZerosMeans(arr, idx + 4);
      var r := SkipZeros(arr, idx + 4);
      if r.Ok? {
        forall k | idx <= k < r.value && (k - idx) % 4 == 0 ensures arr[k] == 0 {
          if k > idx {
            assert (k - (idx + 4)) % 4 == 0;
          }
        }
      }
    }
  }

  /** The window at `j` is taken as a GUID: fewer than 2 zero bytes, at most
      10 bytes in 32..122, and followed by the end of the data or a zero. */
  predicate Accepted(arr: seq<nat>, j: nat)
    requires j + 16 <= |arr|
  {
    var w := arr[j..j + 16];
    Zeros(w) < 2 && Printables(w) <= 10 && (|arr| == j + 16 || arr[j + 16] == 0)
  }

  /** `found` with the offsets `offs` put in front. */
  function Prefixed(offs: seq<nat>, found: Result<seq<nat>>): Result<seq<nat>>
  {
    match found
    case Err(f) => Err(f)
    case Ok(more) => Ok(offs + more)
  }

  /** The offsets of the windows the outer loop takes from index `idx` on. */
  function Scan(arr: seq<nat>, idx: nat): Result<seq<nat>>
    decreases |arr| - idx
  {
    if |arr| < idx + 16 then Ok([])
    else
      match SkipZeros(arr, idx)
      case Err(f) => Err(f)
      case Ok(j) =>
        if |arr| < j + 16 then Ok([])
        else if Accepted(arr, j) then Prefixed([j], Scan(arr, j + 20))
        else Scan(arr, j + 4)
  }

  /** Every window lies inside the data. */
  predicate InRange(arr: seq<nat>, offs: seq<nat>)
  {
    forall k :: 0 <= k < |offs| ==> offs[k] + 16 <= |arr|
  }

  /** The GUID strings of the windows at `offs`. */
  function Ids(arr: seq<nat>, offs: seq<nat>): (ids: seq<string>)
    requires InRange(arr, offs)
    ensures |ids| == |offs|
  {
    if offs == [] then []
    else
      var o := offs[|offs| - 1];
      Ids(arr, offs[..|offs| - 1]) + [UuidStr(arr[o..o + 16])]
  }

  /** Each id is the GUID text of the window at its offset. */
  lemma {:induction false} IdsAt(arr: seq<nat>, offs: seq<nat>, k: nat)
    requires InRange(arr, offs) && k < |offs|
    ensures Ids(arr, offs)[k] == UuidStr(arr[offs[k]..offs[k] + 16])
    decreases |offs|
  {
    if k < |offs| - 1 {
      IdsAt(arr, offs[..|offs| - 1], k);
    }
  }

  /** `find_part_disk(hexstr)`: decode the value, then scan from byte 32. */
  function PartDiskIds(hexstr: string): Result<Found>
  {
    match ArrFromHexstr(hexstr)
    case Err(f) => Err(f)
    case Ok(arr) => FoundIn(arr)
  }

  /** The scan of decoded data from byte 32, with the GUID text of each window. */
  function FoundIn(arr: seq<nat>): Result<Found>
  {
    match Scan(arr, 32)
    case Err(f) => Err(f)
    case Ok(offs) =>
      ScanInRange(arr, 32);
      Ok(Found(Ids(arr, offs), offs))
  }

  lemma ScanInRange(arr: seq<nat>, idx: nat)
    requires Scan(arr, idx).Ok?
    ensures InRange(arr, Scan(arr, idx).value)
  {
    ScanFinds(arr, idx, Scan(arr, idx).value);
  }

  /** `find_part_disk` as the source writes it: decode, then two nested loops
      over `idx`. */
  method FindPartDisk(hexstr: string) returns (r: Result<Found>)
    ensures r == PartDiskIds(hexstr)
  {
    var dec := ArrFromHexstr(hexstr);
    if dec.Err? {
      return Err(dec.fault);
    }
    r := ScanGuids(dec.value);
  }

  /** The loops of `find_part_disk` over the decoded data. */
  method ScanGuids(arr: seq<nat>) returns (r: Result<Found>)
    ensures r == FoundIn(arr)
  {
    var ids: seq<string> := [];
    var offs: seq<nat> := [];
    var idx: nat := 32;
    PrefixedNone(Scan(arr, idx));
    while |arr| >= idx + 16
      invariant Prefixed(offs, Scan(arr, idx)) == Scan(arr, 32)
      invariant InRange(arr, offs) && ids == Ids(arr, offs)
      decreases |arr| - idx
    {
      ghost var start := idx;
      idx := StepOverZeros(arr, idx);
      if idx >= |arr| {
        return Err(IndexError);
      }
      if |arr| < idx + 16 {
        PrefixedEmpty(offs);
        return Ok(Found(ids, offs));
      }
      var taken := TestWindow(arr, idx);
      ghost var ids', offs', next := Advance(arr, ids, offs, start, idx);
      if taken {
        ids := ids + [UuidStr(arr[idx..idx + 16])];
        offs := offs + [idx];
        idx := idx + 16;
      }
      idx := idx + 4;
      assert idx == next && ids == ids' && offs == offs';
    }
    PrefixedEmpty(offs);
    return Ok(Found(ids, offs));
  }

  /** The test of the outer loop: `counts` of the window, then the bounds
      on the two counts and the byte after the window. */
  method TestWindow(arr: seq<nat>, j: nat) returns (taken: bool)
    requires j + 16 <= |arr|
    ensures taken == Accepted(arr, j)
  {
    var cntz, cnta := Counts(arr[j..j + 16]);
    taken := cntz < 2 && cnta <= 10 && (|arr| == j + 16 || arr[j + 16] == 0);
  }

  /** The inner loop of `find_part_disk`: step over zero bytes 4 at a time,
      stopping on a non-zero byte or past the end of the data. */
  method StepOverZeros(arr: seq<nat>, start: nat) returns (idx: nat)
    ensures start <= idx
    ensures idx < |arr| ==> SkipZeros(arr, start) == Ok(idx)
    ensures idx >= |arr| ==> SkipZeros(arr, start) == Err(IndexError)
  {
    idx := start;
    while idx < |arr| && arr[idx] == 0
      invariant start <= idx && SkipZeros(arr, idx) == SkipZeros(arr, start)
      decreases |arr| - idx
    {
      idx := idx + 4;
    }
  }

  /** The outer loop's invariants carried over one round: a taken window
      adds its offset and its GUID text and the scan resumes 16 + 4 bytes
      on, otherwise 4. */
  lemma Advance(arr: seq<nat>, ids: seq<string>, offs: seq<nat>, start: nat, j: nat)
      returns (ids': seq<string>, offs': seq<nat>, next: nat)
    requires Prefixed(offs, Scan(arr, start)) == Scan(arr, 32)
    requires InRange(arr, offs) && ids == Ids(arr, offs)
    requires |arr| >= start + 16 && SkipZeros(arr, start) == Ok(j) && j + 16 <= |arr|
    ensures Accepted(arr, j) ==> ids' == ids + [UuidStr(arr[j..j + 16])] && offs' == offs + [j] && next == j + 16 + 4
    ensures !Accepted(arr, j) ==> ids' == ids && offs' == offs && next == j + 4
    ensures Prefixed(offs', Scan(arr, next)) == Scan(arr, 32)
    ensures InRange(arr, offs') && ids' == Ids(arr, offs')
  {
    ScanStep(arr, start, j);
    PrefixedAssoc(offs, [j], Scan(arr, j + 20));
    IdsSnoc(arr, offs, j);
    if Accepted(arr, j) {
      ids', offs', next := ids + [UuidStr(arr[j..j + 16])], offs + [j], j + 20;
    } else {
      ids', offs', next := ids, offs, j + 4;
    }
  }

  /** One round of the outer loop, once the zeros are skipped up to `j`. */
  lemma ScanStep(arr: seq<nat>, idx: nat, j: nat)
    requires |arr| >= idx + 16 && SkipZeros(arr, idx) == Ok(j) && j + 16 <= |arr|
    ensures Scan(arr, idx) == if Accepted(arr, j) then Prefixed([j], Scan(arr, j + 20)) else Scan(arr, j + 4)
  {
  }

  lemma IdsSnoc(arr: seq<nat>, offs: seq<nat>, o: nat)
    requires InRange(arr, offs) && o + 16 <= |arr|
    ensures InRange(arr, offs + [o])
    ensures Ids(arr, offs + [o]) == Ids(arr, offs) + [UuidStr(arr[o..o + 16])]
  {
    assert (offs + [o])[..|offs|] == offs;
  }

  lemma PrefixedAssoc(a: seq<nat>, b: seq<nat>, found: Result<seq<nat>>)
    ensures Prefixed(a, Prefixed(b, found)) == Prefixed(a + b, found)
  {
    if found.Ok? {
      assert a + (b + found.value) == (a + b) + found.value;
    }
  }

  lemma PrefixedNone(found: Result<seq<nat>>)
    ensures Prefixed([], found) == found
  {
    if found.Ok? {
      assert [] + found.value == found.value;
    }
  }

  lemma PrefixedEmpty(a: seq<nat>)
    ensures Prefixed(a, Ok([])) == Ok(a)
  {
    assert a + [] == a;
  }

  /** What the scan from `idx` promises of a window it takes at `o`: an
      offset a multiple of 4 steps from `idx`, on a non-zero byte, with the
      whole window inside the data, and the window accepted. */
  predicate Taken(arr: seq<nat>, idx: nat, o: nat)
  {
    && idx <= o && (o - idx) % 4 == 0
    && o + 16 <= |arr| && arr[o] != 0
    && Accepted(arr, o)
  }

  lemma TakenEarlier(arr: seq<nat>, idx: nat, j: nat, o: nat)
    requires idx <= j && (j - idx) % 4 == 0 && Taken(arr, j, o)
    ensures Taken(arr, idx, o)
  {
  }

  /** What the scan from `idx` promises of the offsets it reports: each
      `Taken`, and consecutive ones at least 20 apart (16 for the window, 4
      for the step). */
  predicate Finds(arr: seq<nat>, idx: nat, offs: seq<nat>)
  {
    && InRange(arr, offs)
    && (forall k :: 0 <= k < |offs| ==> Taken(arr, idx, offs[k]))
    && (forall k :: 0 <= k < |offs| - 1 ==> offs[k] + 20 <= offs[k + 1])
  }

  lemma FindsTaken(arr: seq<nat>, idx: nat, j: nat, rest: seq<nat>)
    requires Taken(arr, idx, j) && Finds(arr, j + 20, rest)
    ensures Finds(arr, idx, [j] + rest)
  {
    var offs := [j] + rest;
    forall k | 1 <= k < |offs| ensures Taken(arr, idx, offs[k]) && j + 20 <= offs[k] {
      assert offs[k] == rest[k - 1];
      TakenEarlier(arr, idx, j + 20, offs[k]);
    }
  }

  lemma FindsLater(arr: seq<nat>, idx: nat, j: nat, offs: seq<nat>)
    requires idx <= j && (j - idx) % 4 == 0 && Finds(arr, j + 4, offs)
    ensures Finds(arr, idx, offs)
  {
    forall k | 0 <= k < |offs| ensures Taken(arr, idx, offs[k]) {
      TakenEarlier(arr, idx, j + 4, offs[k]);
    }
  }

  lemma {:induction false} ScanFinds(arr: seq<nat>, idx: nat, offs: seq<nat>)
    requires Scan(arr, idx) == Ok(offs)
    ensures Finds(arr, idx, offs)
    decreases |arr| - idx
  {
    if |arr| >= idx + 16 {
      var more, j, rest := ScanRound(arr, idx, offs);
      if more && Accepted(arr, j) {
        ScanFinds(arr, j + 20, rest);
        FindsTaken(arr, idx, j, rest);
      } else if more {
        ScanFinds(arr, j + 4, rest);
        FindsLater(arr, idx, j, rest);
      }
    }
  }

  /** One round of the scan from `idx`: either it reports nothing more, or it
      reaches a non-zero byte at `j` with a whole window there and goes on
      20 bytes later after taking that window, 4 bytes later otherwise. */
  lemma ScanRound(arr: seq<nat>, idx: nat, offs: seq<nat>) returns (more: bool, j: nat, rest: seq<nat>)
    requires Scan(arr, idx) == Ok(offs) && |arr| >= idx + 16
    ensures !more ==> offs == []
    ensures more ==> idx <= j && (j - idx) % 4 == 0 && j + 16 <= |arr| && arr[j] != 0
    ensures more && Accepted(arr, j) ==> Scan(arr, j + 20) == Ok(rest) && offs == [j] + rest
    ensures more && !Accepted(arr, j) ==> Scan(arr, j + 4) == Ok(rest) && offs == rest
  {
    j := SkipZeros(arr, idx).value;
    more := j + 16 <= |arr|;
    rest := offs;
    if more {
      ScanStep(arr, idx, j);
      if Accepted(arr, j) {
        rest := Scan(arr, j + 20).value;
      }
    }
  }

  /** The GUIDs `find_part_disk` reports: as many ids as offsets, each offset
      at least 32 and a multiple of 4, its window taken by the scan, the id
      that window's text, and consecutive offsets at least 20 apart. */
  lemma PartDiskOffsets(hexstr: string)
    requires PartDiskIds(hexstr).Ok?
    ensures var arr := ArrFromHexstr(hexstr).value;
      var fd := PartDiskIds(hexstr).value;
      && |fd.ids| == |fd.offs|
      && (forall k :: 0 <= k < |fd.offs| ==>
            && Taken(arr, 32, fd.offs[k]) && fd.offs[k] % 4 == 0
            && fd.ids[k] == UuidStr(arr[fd.offs[k]..fd.offs[k] + 16]))
      && (forall k :: 0 <= k < |fd.offs| - 1 ==> fd.offs[k] + 20 <= fd.offs[k + 1])
  {
    var arr := ArrFromHexstr(hexstr).value;
    var fd := PartDiskIds(hexstr).value;
    ScanFinds(arr, 32, fd.offs);
    forall k | 0 <= k < |fd.offs|
      ensures fd.ids[k] == UuidStr(arr[fd.offs[k]..fd.offs[k] + 16])
    {
      IdsAt(arr, fd.offs, k);
    }
  }

  /** Two GUIDs stored back to back are never both reported: reported
      windows are at least 20 bytes apart. */
  lemma NotBackToBack(hexstr: string, k: nat)
    requires PartDiskIds(hexstr).Ok? && k + 1 < |PartDiskIds(hexstr).value.offs|
    ensures PartDiskIds(hexstr).value.offs[k + 1] != PartDiskIds(hexstr).value.offs[k] + 16
  {
    ScanFinds(ArrFromHexstr(hexstr).value, 32, PartDiskIds(hexstr).value.offs);
  }

  /** A value without a `hex:` or `hex(7):` tag is refused before any scanning. */
  lemma UntaggedFails(hexstr: string)
    requires !StartsWith(hexstr, "hex:") && !StartsWith(hexstr, "hex(7):")
    ensures PartDiskIds(hexstr) == Err(ValueError)
  {
  }

  /** Zero padding that runs to the end of the data, at the positions the
      inner loop visits, raises IndexError instead of ending the scan. */
  lemma PaddingToEnd(arr: seq<nat>, idx: nat)
    requires |arr| >= idx + 16
    requires forall k :: idx <= k < |arr| && (k - idx) % 4 == 0 ==> arr[k] == 0
    ensures Scan(arr, idx) == Err(IndexError)
  {
    SkipZerosMeans(arr, idx);
  }

  /** An accepted window right at `idx` is the first one reported, and the
      scan goes on 20 bytes later. */
  lemma AcceptedFirst(arr: seq<nat>, idx: nat)
    requires idx + 16 <= |arr| && arr[idx] != 0 && Accepted(arr, idx)
    ensures Scan(arr, idx) == Prefixed([idx], Scan(arr, idx + 20))
  {
  }
}

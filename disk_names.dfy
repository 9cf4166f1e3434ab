/** The string helpers that turn host device names into table entries:
    `multiws_split`, `strip_part` (with `find_loop`'s directory listing as
    a parameter) and `partkey`. */
module DiskNames {
  import opened Text

  // ---------------------------------------------------------------------
  // multiws_split

  /** Where the next field ends: the first blank at or after `from`, and
      only when there is none, the first tab; -1 when there is neither. */
  function FindSep(s: string, from: nat): (r: int)
    ensures -1 <= r < |s|
    ensures r >= 0 ==> from <= r && (s[r] == ' ' || s[r] == '\t')
  {
    var i := Find(s, ' ', from);
    if i == -1 then Find(s, '\t', from) else i
  }

  /** `FindSep` as a position, `|s|` standing for none. */
  function NextSep(s: string, from: nat): (r: nat)
    requires from <= |s|
    ensures from <= r <= |s|
    ensures r < |s| ==> s[r] == ' ' || s[r] == '\t'
  {
    var j := FindSep(s, from);
    if j == -1 then |s| else j
  }

  /** The first index at or after `j` that is not white space, or `|s|`. */
  function SkipSpace(s: string, j: nat): (r: nat)
    requires j <= |s|
    ensures j <= r <= |s|
    ensures r < |s| ==> !IsSpace(s[r])
    decreases |s| - j
  {
    if j < |s| && IsSpace(s[j]) then SkipSpace(s, j + 1) else j
  }

  /** The fields `multiws_split` finds in `s` from position `p` on: up to
      the next separator, then on from the end of the white-space run after
      it; the rest, if any, is the last field. */
  function FieldsFrom(s: string, p: nat): seq<string>
    requires p <= |s|
    decreases |s| - p
  {
    var ix := NextSep(s, p);
    if ix == |s| then (if p < |s| then [s[p..]] else [])
    else [s[p..ix]] + FieldsFrom(s, SkipSpace(s, ix + 1))
  }

  /** The fields `multiws_split` returns for the text `t`. */
  function Fields(t: string): seq<string>
  {
    FieldsFrom(t, 0)
  }

  /** `multiws_split(stg)`: the fields of `stg`. */
  method MultiwsSplit(stg: string) returns (el: seq<string>)
    ensures el == Fields(stg)
  {
    el := [];
    var ln := |stg|;
    var previx := 0;
    var ix := Find(stg, ' ', previx);
    if ix == -1 {
      ix := Find(stg, '\t', previx);
    }
    while ix != -1
      invariant previx <= |stg|
      invariant ix == FindSep(stg, previx)
      invariant FieldsSoFar(stg, el, previx)
      decreases |stg| - previx
    {
      FieldsLoopStep(stg, previx, ix, el);
      el := el + [stg[previx..ix]];
      previx := SkipBlanks(stg, ix + 1);
      ix := Find(stg, ' ', previx);
      if ix == -1 {
        ix := Find(stg, '\t', previx);
      }
    }
    FieldsLoopExit(stg, previx, el);
    if previx < ln {
      el := el + [stg[previx..]];
    }
  }

  /** One round of the loop: the field up to the separator at `ix`, then
      the fields after the white space that follows it. */
  lemma FieldsFromStep(s: string, p: nat, ix: nat)
    requires p <= |s| && NextSep(s, p) == ix < |s|
    ensures FieldsFrom(s, p) == [s[p..ix]] + FieldsFrom(s, SkipSpace(s, ix + 1))
  {
  }

  /** `FieldsFromStep` with the field, the next start and the fields from
      there given by name. */
  lemma FieldsFromSplit(s: string, p: nat, ix: nat, f: string, next: nat, rest: seq<string>)
    requires p <= |s| && NextSep(s, p) == ix < |s|
    requires f == s[p..ix] && next == SkipSpace(s, ix + 1) && rest == FieldsFrom(s, next)
    ensures FieldsFrom(s, p) == [f] + rest
  {
  }

  /** The loop invariant of `MultiwsSplit`: `el`, followed by the fields
      from `p` on, are all the fields of `s`. */
  ghost predicate FieldsSoFar(s: string, el: seq<string>, p: nat)
    requires p <= |s|
  {
    el + FieldsFrom(s, p) == Fields(s)
  }

  /** The loop invariant of `MultiwsSplit` is kept by one round. */
  lemma FieldsLoopStep(s: string, p: nat, ix: nat, el: seq<string>)
    requires p <= |s| && FindSep(s, p) == ix >= 0
    requires FieldsSoFar(s, el, p)
    ensures FieldsSoFar(s, el + [s[p..ix]], SkipSpace(s, ix + 1))
  {
    FieldsFromStep(s, p, ix);
    AppendField(el, s[p..ix], FieldsFrom(s, SkipSpace(s, ix + 1)), Fields(s));
  }

  /** After the loop, the rest of the text, if any, is the last field. */
  lemma FieldsLoopExit(s: string, p: nat, el: seq<string>)
    requires p <= |s| && FindSep(s, p) == -1
    requires FieldsSoFar(s, el, p)
    ensures (if p < |s| then el + [s[p..]] else el) == Fields(s)
  {
    if p == |s| {
      assert el + [] == el;
    }
  }

  /** The inner loop of `multiws_split`: step over white space from `from`. */
  method SkipBlanks(stg: string, from: nat) returns (previx: nat)
    requires from <= |stg|
    ensures previx == SkipSpace(stg, from)
  {
    previx := from;
    while |stg| > previx && IsSpace(stg[previx])
      invariant from <= previx <= |stg|
      invariant SkipSpace(stg, previx) == SkipSpace(stg, from)
    {
      SkipOne(stg, previx);
      previx := previx + 1;
    }
  }

  /** Moving a field from the rest to the result. */
  lemma AppendField(el: seq<string>, f: string, rest: seq<string>, all: seq<string>)
    requires el + ([f] + rest) == all
    ensures (el + [f]) + rest == all
  {
  }

  /** A white-space character is skipped. */
  lemma SkipOne(s: string, j: nat)
    requires j < |s| && IsSpace(s[j])
    ensures SkipSpace(s, j + 1) == SkipSpace(s, j)
  {
  }

  /** `find` from `m + k` in `s` is `find` from `k` in `s[m..]`, moved by `m`. */
  lemma {:induction false} FindDrop(s: string, m: nat, c: char, k: nat)
    requires m + k <= |s|
    ensures Find(s, c, m + k) == (var r := Find(s[m..], c, k); if r == -1 then -1 else m + r)
    decreases |s| - m - k
  {
    if m + k < |s| {
      assert s[m..][k] == s[m + k];
      if s[m + k] != c {
        FindDrop(s, m, c, k + 1);
      }
    }
  }

  /** The same for `SkipSpace`. */
  lemma {:induction false} SkipSpaceDrop(s: string, m: nat, k: nat)
    requires m + k <= |s|
    ensures SkipSpace(s, m + k) == m + SkipSpace(s[m..], k)
    decreases |s| - m - k
  {
    if m + k < |s| {
      assert s[m..][k] == s[m + k];
      if IsSpace(s[m + k]) {
        SkipSpaceDrop(s, m, k + 1);
      }
    }
  }

  /** The same for `NextSep`. */
  lemma NextSepDrop(s: string, m: nat, k: nat)
    requires m + k <= |s|
    ensures NextSep(s, m + k) == m + NextSep(s[m..], k)
  {
    FindDrop(s, m, ' ', k);
    FindDrop(s, m, '\t', k);
  }

  /** The last field: the rest of the text, if any. */
  lemma FieldsFromLast(s: string, p: nat)
    requires p <= |s| && NextSep(s, p) == |s|
    ensures FieldsFrom(s, p) == if p < |s| then [s[p..]] else []
  {
  }

  /** The fields of `s` from inside its suffix `s[m..]` are the fields of
      that suffix. */
  lemma {:induction false} FieldsFromDrop(s: string, m: nat, k: nat)
    requires m + k <= |s|
    ensures SameFields(s, m + k, s[m..], k)
    decreases |s| - m - k
  {
    var ix := NextSep(s[m..], k);
    if ix == |s| - m {
      FieldsFromDropLast(s, m, k);
    } else {
      var j := SkipSpace(s[m..], ix + 1);
      FieldsFromDrop(s, m, j);
      FieldsFromDropStep(s, m, k, ix, j);
    }
  }

  /** `FieldsFromDrop` for one field, given it for the fields after it. */
  lemma FieldsFromDropStep(s: string, m: nat, k: nat, ix: nat, j: nat)
    requires m + k <= |s|
    requires NextSep(s[m..], k) == ix < |s| - m && j == SkipSpace(s[m..], ix + 1)
    requires SameFields(s, m + j, s[m..], j)
    ensures SameFields(s, m + k, s[m..], k)
  {
    DropFirstField(s, m, k, ix, j);
    var t := s[m..];
    var f, rest := t[k..ix], FieldsFrom(t, j);
    FieldsFromSplit(t, k, ix, f, j, rest);
    FieldsFromSplit(s, m + k, m + ix, f, m + j, rest);
  }

  /** The first field of `s[m..]` from `k`, seen in `s` from `m + k`. */
  lemma DropFirstField(s: string, m: nat, k: nat, ix: nat, j: nat)
    requires m + k <= |s|
    requires NextSep(s[m..], k) == ix < |s| - m && j == SkipSpace(s[m..], ix + 1)
    ensures NextSep(s, m + k) == m + ix
    ensures m + j == SkipSpace(s, m + ix + 1)
    ensures s[m + k..m + ix] == s[m..][k..ix]
  {
    NextSepDrop(s, m, k);
    SkipSpaceDrop(s, m, ix + 1);
    SliceDrop(s, m, k, ix);
  }

  /** `s` from `p` on and `t` from `k` on have the same fields. */
  ghost predicate SameFields(s: string, p: nat, t: string, k: nat)
    requires p <= |s| && k <= |t|
  {
    FieldsFrom(s, p) == FieldsFrom(t, k)
  }

  /** `FieldsFromDrop` when no separator follows. */
  lemma FieldsFromDropLast(s: string, m: nat, k: nat)
    requires m + k <= |s| && NextSep(s[m..], k) == |s| - m
    ensures SameFields(s, m + k, s[m..], k)
  {
    NextSepDrop(s, m, k);
    FieldsFromLast(s, m + k);
    FieldsFromLast(s[m..], k);
    SliceDrop(s, m, k, |s| - m);
  }

  /** Slices of the suffix `s[m..]` are slices of `s`. */
  lemma SliceDrop(s: string, m: nat, k: nat, e: nat)
    requires m + k <= m + e <= |s|
    ensures s[m + k..m + e] == s[m..][k..e]
    ensures s[m + k..] == s[m..][k..]
  {
  }

  /** A word without white space. */
  predicate Word(w: string)
  {
    w != [] && forall i :: 0 <= i < |w| ==> !IsSpace(w[i])
  }

  /** Splitting words joined by single blanks gives the words back. */
  lemma {:induction false} FieldsOfJoin(ws: seq<string>)
    requires forall i :: 0 <= i < |ws| ==> Word(ws[i])
    ensures Fields(Join(ws, ' ')) == ws
    decreases |ws|
  {
    if |ws| == 1 {
      var w := ws[0];
      FindMeans(w, ' ', 0);
      FindMeans(w, '\t', 0);
    } else if |ws| > 1 {
      var rest := Join(ws[1..], ' ');
      assert Join(ws, ' ') == (ws[0] + [' ']) + rest;
      FieldsOfJoin(ws[1..]);
      JoinHead(ws[1..]);
      FieldsCons(ws[0], rest);
    }
  }

  /** A word, a blank and a text that starts with a word split into the word
      and the fields of that text. */
  lemma FieldsCons(w: string, rest: string)
    requires Word(w) && rest != [] && !IsSpace(rest[0])
    ensures Fields((w + [' ']) + rest) == [w] + Fields(rest)
  {
    var a := w + [' '];
    var s := a + rest;
    assert NextSep(s, 0) == |w| by {
      assert ' ' !in w by {
        assert IsSpace(' ');
      }
      assert s == w + ([' '] + rest);
      FindPrefix(w, [' '] + rest, ' ');
    }
    assert s[..|w|] == w;
    assert SkipSpace(s, |w| + 1) == |a| by {
      assert s[|a|] == rest[0];
    }
    FieldsFromDrop(s, |a|, 0);
    assert s[|a|..] == rest;
  }

  /** Words joined by blanks start with the first word's first character. */
  lemma JoinHead(ws: seq<string>)
    requires |ws| >= 1 && Word(ws[0])
    ensures Join(ws, ' ') != [] && Join(ws, ' ')[0] == ws[0][0]
  {
  }

  /** `find` in `w + t` where `w` lacks `c`. */
  lemma {:induction false} FindPrefix(w: string, t: string, c: char)
    requires c !in w && t != [] && t[0] == c
    ensures Find(w + t, c, 0) == |w|
  {
    FindFrom(w + t, c, 0, |w|);
  }

  /** `find` skips positions without `c`. */
  lemma {:induction false} FindFrom(s: string, c: char, j: nat, k: nat)
    requires j <= k < |s| && s[k] == c
    requires forall i :: j <= i < k ==> s[i] != c
    ensures Find(s, c, j) == k
    decreases k - j
  {
    if j < k {
      FindFrom(s, c, j + 1, k);
    }
  }

  /** No field contains a blank; every field but the first is non-empty and
      starts with a character that is not white space. */
  predicate Shaped(fs: seq<string>)
  {
    && (forall i :: 0 <= i < |fs| ==> ' ' !in fs[i])
    && (forall i :: 1 <= i < |fs| ==> fs[i] != [] && !IsSpace(fs[i][0]))
  }

  /** The fields of any text are `Shaped`. A tab ends a field only when no
      blank follows, so earlier fields may hold tabs. */
  lemma FieldsShape(t: string)
    ensures Shaped(Fields(t))
  {
    FieldsFromShape(t, 0);
  }

  /** `FieldsShape` from any position; the first field found after white
      space is non-empty and starts with a character that is not white space. */
  lemma {:induction false} FieldsFromShape(s: string, p: nat)
    requires p <= |s|
    ensures var fs := FieldsFrom(s, p);
      && Shaped(fs)
      && (p < |s| && !IsSpace(s[p]) && fs != [] ==> fs[0] != [] && !IsSpace(fs[0][0]))
    decreases |s| - p
  {
    var ix := NextSep(s, p);
    FirstField(s, p);
    if ix != |s| {
      var j := SkipSpace(s, ix + 1);
      FieldsFromShape(s, j);
      FieldsFromSplit(s, p, ix, s[p..ix], j, FieldsFrom(s, j));
      FieldsShapeCons(s[p..ix], FieldsFrom(s, j));
    } else {
      FieldsFromLast(s, p);
    }
  }

  /** The field from `p` to the next separator holds no blank, and is
      non-empty when it starts with a character that is not white space. */
  lemma FirstField(s: string, p: nat)
    requires p <= |s|
    ensures ' ' !in s[p..NextSep(s, p)]
    ensures p < |s| && !IsSpace(s[p]) ==> NextSep(s, p) > p
  {
    FindMeans(s, ' ', p);
    var ix := NextSep(s, p);
    forall c | c in s[p..ix] ensures c != ' ' {
      var i :| p <= i < ix && s[i] == c;
    }
  }

  /** A field without blanks put in front of `Shaped` fields whose first
      field does not start with white space keeps them `Shaped`. */
  lemma FieldsShapeCons(f: string, fs: seq<string>)
    requires ' ' !in f && Shaped(fs)
    requires fs != [] ==> fs[0] != [] && !IsSpace(fs[0][0])
    ensures Shaped([f] + fs)
  {
    var gs := [f] + fs;
    assert forall i :: 1 <= i < |gs| ==> gs[i] == fs[i - 1];
  }

  // ---------------------------------------------------------------------
  // strip_part

  /** The last character. */
  function Last(s: string): char
    requires s != []
  {
    s[|s| - 1]
  }

  /** `find_loop(nm)` over the listing of `/dev/mapper`, given in listing
      order as pairs of entry name and base name of the entry's link target:
      the first entry whose name starts with `loop` and whose link points
      at `nm`. */
  function FindLoop(mapper: seq<(string, string)>, nm: string): (r: Option<string>)
    ensures r.Some? ==> StartsWith(r.value, "loop") && (r.value, nm) in mapper
    ensures r.None? ==> forall i :: 0 <= i < |mapper| && mapper[i].1 == nm ==> !StartsWith(mapper[i].0, "loop")
  {
    if mapper == [] then None
    else if StartsWith(mapper[0].0, "loop") && mapper[0].1 == nm then Some(mapper[0].0)
    else
      var r := FindLoop(mapper[1..], nm);
      assert forall i :: 1 <= i < |mapper| ==> mapper[i] == mapper[1..][i - 1];
      r
  }

  /** `find_loop(nm)`, with its loop over the filtered listing. */
  method FindLoopScan(mapper: seq<(string, string)>, nm: string) returns (r: Option<string>)
    ensures r == FindLoop(mapper, nm)
  {
    var i := 0;
    while i < |mapper|
      invariant 0 <= i <= |mapper|
      invariant FindLoop(mapper[i..], nm) == FindLoop(mapper, nm)
    {
      assert mapper[i..][1..] == mapper[i + 1..];
      if StartsWith(mapper[i].0, "loop") && mapper[i].1 == nm {
        return Some(mapper[i].0);
      }
      i := i + 1;
    }
    return None;
  }

  /** The loop `while dnm[-1].isdigit()`: trailing digits are dropped, and
      running out of characters is an IndexError. What is left is a prefix
      ending in a non-digit, and everything dropped is a digit. */
  function DropDigits(dnm: string): (r: Result<string>)
    ensures r.Err? <==> forall i :: 0 <= i < |dnm| ==> IsDigit(dnm[i])
    ensures r.Err? ==> r.fault == IndexError
    ensures r.Ok? ==>
      && r.value != [] && !IsDigit(Last(r.value))
      && |r.value| <= |dnm| && dnm[..|r.value|] == r.value
      && forall i :: |r.value| <= i < |dnm| ==> IsDigit(dnm[i])
    decreases |dnm|
  {
    if dnm == [] then Err(IndexError)
    else if IsDigit(Last(dnm)) then
      var r := DropDigits(dnm[..|dnm| - 1]);
      assert r.Ok? ==> dnm[..|r.value|] == dnm[..|dnm| - 1][..|r.value|];
      r
    else Ok(dnm)
  }

  /** `strip_part` up to its final `p` rule: the name must end in a digit
      (an empty name is an IndexError), a `dm` name is replaced by its loop
      device (or gives None), and the last character and the digits before
      it are dropped. */
  function Undigited(nm: string, mapper: seq<(string, string)>): Result<Option<string>>
  {
    if nm == [] then Err(IndexError)
    else if !IsDigit(Last(nm)) then Ok(None)
    else
      var whole := if StartsWith(nm, "dm") then FindLoop(mapper, nm) else Some(nm);
      match whole
      case None => Ok(None)
      case Some(m) =>
        match DropDigits(m[..|m| - 1])
        case Err(f) => Err(f)
        case Ok(dnm) => Ok(Some(dnm))
  }

  /** `strip_part(nm)` as written: a final `p` is always dropped. */
  function StripPartAsWritten(nm: string, mapper: seq<(string, string)>): Result<Option<string>>
  {
    match Undigited(nm, mapper)
    case Err(f) => Err(f)
    case Ok(None) => Ok(None)
    case Ok(Some(dnm)) => Ok(Some(if Last(dnm) == 'p' then dnm[..|dnm| - 1] else dnm))
  }

  /** `strip_part(nm)` as evidently intended: a `p` is the partition
      separator only after a disk name that ends in a digit. */
  function WholeDisk(nm: string, mapper: seq<(string, string)>): Result<Option<string>>
  {
    match Undigited(nm, mapper)
    case Err(f) => Err(f)
    case Ok(None) => Ok(None)
    case Ok(Some(dnm)) =>
      Ok(Some(if Last(dnm) == 'p' && |dnm| >= 2 && IsDigit(dnm[|dnm| - 2]) then dnm[..|dnm| - 1] else dnm))
  }

  /** `strip_part(nm)`, with its loop. */
  method StripPart(nm: string, mapper: seq<(string, string)>) returns (r: Result<Option<string>>)
    ensures r == StripPartAsWritten(nm, mapper)
  {
    if |nm| == 0 {
      return Err(IndexError);
    }
    if !IsDigit(nm[|nm| - 1]) {
      return Ok(None);
    }
    var m := nm;
    if StartsWith(nm, "dm") {
      var lp := FindLoopScan(mapper, nm);
      if lp.None? {
        return Ok(None);
      }
      m := lp.value;
    }
    var dropped := DropDigitsLoop(m[..|m| - 1]);
    UndigitedDropped(nm, mapper, m, dropped);
    if dropped.Err? {
      return Err(dropped.fault);
    }
    var dnm := dropped.value;
    if dnm[|dnm| - 1] == 'p' {
      dnm := dnm[..|dnm| - 1];
    }
    r := Ok(Some(dnm));
  }

  /** `Undigited` once the name to strip, `m`, is known. */
  lemma UndigitedDropped(nm: string, mapper: seq<(string, string)>, m: string, dropped: Result<string>)
    requires nm != [] && IsDigit(Last(nm))
    requires StartsWith(nm, "dm") ==> FindLoop(mapper, nm).Some?
    requires m == if StartsWith(nm, "dm") then FindLoop(mapper, nm).value else nm
    requires m != [] && dropped == DropDigits(m[..|m| - 1])
    ensures Undigited(nm, mapper) == if dropped.Err? then Err(dropped.fault) else Ok(Some(dropped.value))
  {
  }

  /** The loop of `strip_part` over the trailing digits. */
  method DropDigitsLoop(start: string) returns (r: Result<string>)
    ensures r == DropDigits(start)
  {
    var dnm := start;
    while |dnm| > 0 && IsDigit(dnm[|dnm| - 1])
      invariant DropDigits(dnm) == DropDigits(start)
    {
      dnm := dnm[..|dnm| - 1];
    }
    if |dnm| == 0 {
      return Err(IndexError);
    }
    r := Ok(dnm);
  }

  /** A non-empty string of decimal digits: a partition number. */
  predicate Digits(n: string)
  {
    n != [] && forall i :: 0 <= i < |n| ==> IsDigit(n[i])
  }

  /** The kernel's name for partition `n` of disk `d`: a `p` separates them
      when the disk name ends in a digit (`nvme0n1p2`, `mmcblk0p1`,
      `loop0p1`), otherwise the number follows directly (`sda2`). */
  function PartName(d: string, n: string): string
    requires d != []
  {
    if IsDigit(Last(d)) then d + "p" + n else d + n
  }

  /** Dropping digits after a prefix that ends in a non-digit gives the prefix. */
  lemma {:induction false} DropDigitsAfter(x: string, ds: string)
    requires x != [] && !IsDigit(Last(x)) && forall i :: 0 <= i < |ds| ==> IsDigit(ds[i])
    ensures DropDigits(x + ds) == Ok(x)
    decreases |ds|
  {
    if ds != [] {
      var ds' := ds[..|ds| - 1];
      assert (x + ds)[..|x + ds| - 1] == x + ds';
      DropDigitsAfter(x, ds');
    } else {
      assert x + ds == x;
    }
  }

  /** What `Undigited` leaves of a partition name: the disk name, followed
      by the `p` separator when there is one. */
  lemma UndigitedPartition(d: string, n: string, mapper: seq<(string, string)>)
    requires d != [] && !StartsWith(d, "dm") && Digits(n)
    ensures Undigited(PartName(d, n), mapper) == Ok(Some(if IsDigit(Last(d)) then d + "p" else d))
  {
    var x := if IsDigit(Last(d)) then d + "p" else d;
    var body := n[..|n| - 1];
    var nm := PartName(d, n);
    PartNameParts(d, n, x, body);
    DropDigitsAfter(x, body);
    UndigitedPlain(nm, mapper, x);
  }

  /** A partition name is the disk part `x` and the number, so it ends in a
      digit, does not start with `dm`, and without its last character is
      `x` followed by digits. */
  lemma PartNameParts(d: string, n: string, x: string, body: string)
    requires d != [] && !StartsWith(d, "dm") && Digits(n)
    requires x == (if IsDigit(Last(d)) then d + "p" else d) && body == n[..|n| - 1]
    ensures var nm := PartName(d, n);
      && nm != [] && IsDigit(Last(nm)) && !StartsWith(nm, "dm")
      && nm[..|nm| - 1] == x + body
      && x != [] && !IsDigit(Last(x)) && forall i :: 0 <= i < |body| ==> IsDigit(body[i])
  {
    var nm := PartName(d, n);
    assert nm == x + n;
    assert !StartsWith(nm, "dm") by {
      if |d| == 1 {
        assert nm[1] == 'p' || IsDigit(nm[1]);
      } else {
        assert nm[..2] == d[..2];
      }
    }
    assert Last(nm) == Last(n);
    assert nm[..|nm| - 1] == x + body;
  }

  /** `Undigited` of a name ending in a digit and not starting with `dm`. */
  lemma UndigitedPlain(nm: string, mapper: seq<(string, string)>, x: string)
    requires nm != [] && IsDigit(Last(nm)) && !StartsWith(nm, "dm")
    requires DropDigits(nm[..|nm| - 1]) == Ok(x)
    ensures Undigited(nm, mapper) == Ok(Some(x))
  {
  }

  /** As written, a partition name gives back its disk name when the disk
      name does not end in `p`. */
  lemma StripPartOfPartition(d: string, n: string, mapper: seq<(string, string)>)
    requires d != [] && !StartsWith(d, "dm") && Digits(n) && Last(d) != 'p'
    ensures StripPartAsWritten(PartName(d, n), mapper) == Ok(Some(d))
  {
    UndigitedPartition(d, n, mapper);
    if IsDigit(Last(d)) {
      assert (d + "p")[..|d|] == d;
    }
  }

  /** As written, the partitions of disk `sdp` are attributed to a disk `sd`. */
  lemma StripPartSdp(mapper: seq<(string, string)>)
    ensures StripPartAsWritten("sdp1", mapper) == Ok(Some("sd"))
    ensures WholeDisk("sdp1", mapper) == Ok(Some("sdp"))
  {
    assert "sdp"[..2] == "sd";
    UndigitedPartition("sdp", "1", mapper);
    assert PartName("sdp", "1") == "sdp1";
    assert "sdp"[..2] == "sd";
  }

  /** With the intended rule every partition name gives back its disk name,
      except where the kernel's naming is itself ambiguous: a disk name
      ending in a digit and `p` (`x1p` + `1` reads as `x1`'s partition). */
  lemma WholeDiskOfPartition(d: string, n: string, mapper: seq<(string, string)>)
    requires d != [] && !StartsWith(d, "dm") && Digits(n)
    requires !(Last(d) == 'p' && |d| >= 2 && IsDigit(d[|d| - 2]))
    ensures WholeDisk(PartName(d, n), mapper) == Ok(Some(d))
  {
    UndigitedPartition(d, n, mapper);
    if IsDigit(Last(d)) {
      assert (d + "p")[..|d|] == d;
      assert (d + "p")[|d + "p"| - 2] == Last(d);
    }
  }

  /** The ways `strip_part` refuses a name: an empty name is an IndexError,
      a name not ending in a digit or a `dm` name without a loop device gives
      None, and a name of digits only runs the loop off its start. */
  lemma StripPartRefuses(nm: string, mapper: seq<(string, string)>)
    ensures nm == [] ==> StripPartAsWritten(nm, mapper) == Err(IndexError)
    ensures nm != [] && !IsDigit(Last(nm)) ==> StripPartAsWritten(nm, mapper) == Ok(None)
    ensures nm != [] && IsDigit(Last(nm)) && StartsWith(nm, "dm") && FindLoop(mapper, nm).None? ==>
      StripPartAsWritten(nm, mapper) == Ok(None)
    ensures Digits(nm) ==> StripPartAsWritten(nm, mapper) == Err(IndexError)
  {
    if Digits(nm) {
      assert !StartsWith(nm, "dm") by {
        if |nm| >= 2 {
          assert IsDigit(nm[0]);
        }
      }
      var body := nm[..|nm| - 1];
      assert forall i :: 0 <= i < |body| ==> IsDigit(body[i]);
    }
  }

  // ---------------------------------------------------------------------
  // partkey

  /** `partkey(st)` as written: when the character before the last is not a
      digit, `st[:-2] + '0' + st[-1]`, which drops that character; names
      shorter than 2 are an IndexError. */
  function PartKeyAsWritten(st: string): Result<string>
  {
    if |st| < 2 then Err(IndexError)
    else if !IsDigit(st[|st| - 2]) then Ok(st[..|st| - 2] + "0" + [st[|st| - 1]])
    else Ok(st)
  }

  /** `partkey(st)` as evidently intended: a one-digit partition number gets a
      leading `0`, and nothing else changes. */
  function PartKey(st: string): Result<string>
  {
    if |st| < 2 then Err(IndexError)
    else if !IsDigit(st[|st| - 2]) then Ok(st[..|st| - 1] + "0" + [st[|st| - 1]])
    else Ok(st)
  }

  /** Python's `<` on strings: the first difference decides, and a proper
      prefix comes first. */
  predicate LexLess(a: string, b: string)
    decreases |a|
  {
    b != [] && (a == [] || a[0] < b[0] || (a[0] == b[0] && LexLess(a[1..], b[1..])))
  }

  /** A common prefix does not change the order. */
  lemma {:induction false} LexCommonPrefix(d: string, u: string, v: string)
    requires LexLess(u, v)
    ensures LexLess(d + u, d + v)
    decreases |d|
  {
    if d != [] {
      assert (d + u)[0] == d[0] == (d + v)[0];
      LexCommonPrefix(d[1..], u, v);
      assert (d + u)[1..] == d[1..] + u;
      assert (d + v)[1..] == d[1..] + v;
    } else {
      assert d + u == u && d + v == v;
    }
  }

  /** Different disk names of one length order all their keys. */
  lemma {:induction false} LexDifferentPrefix(d1: string, d2: string, u: string, v: string)
    requires |d1| == |d2| && LexLess(d1, d2)
    ensures LexLess(d1 + u, d2 + v)
    decreases |d1|
  {
    if d1[0] == d2[0] {
      LexDifferentPrefix(d1[1..], d2[1..], u, v);
      assert (d1 + u)[1..] == d1[1..] + u;
      assert (d2 + v)[1..] == d2[1..] + v;
    }
  }

  /** The digit for `k < 10`. */
  function Digit(k: nat): char
    requires k < 10
  {
    ('0' as int + k) as char
  }

  /** `str(k)` for a partition number from 1 to 99. */
  function Dec(k: nat): string
    requires 1 <= k <= 99
  {
    if k < 10 then [Digit(k)] else [Digit(k / 10), Digit(k % 10)]
  }

  /** The key of partition `k` of disk `d` is `d` and two digits. */
  lemma KeyOfPartition(d: string, k: nat)
    requires d != [] && !IsDigit(Last(d)) && 1 <= k <= 99
    ensures PartKey(d + Dec(k)) == Ok(d + [Digit(k / 10), Digit(k % 10)])
  {
    var st := d + Dec(k);
    if k < 10 {
      assert st[|st| - 2] == Last(d);
      assert st[..|st| - 1] == d && st[|st| - 1] == Digit(k);
      assert k / 10 == 0 && k % 10 == k;
      assert d + "0" + [Digit(k)] == d + [Digit(0), Digit(k)];
    } else {
      assert st[|st| - 2] == Digit(k / 10);
    }
  }

  /** With the intended key, the partitions of one disk sort by number
      (1 to 99). */
  lemma PartKeyOrder(d: string, a: nat, b: nat)
    requires d != [] && !IsDigit(Last(d)) && 1 <= a < b <= 99
    ensures PartKey(d + Dec(a)).Ok? && PartKey(d + Dec(b)).Ok?
    ensures LexLess(PartKey(d + Dec(a)).value, PartKey(d + Dec(b)).value)
  {
    KeyOfPartition(d, a);
    KeyOfPartition(d, b);
    var u := [Digit(a / 10), Digit(a % 10)];
    var v := [Digit(b / 10), Digit(b % 10)];
    assert LexLess(u, v) by {
      if a / 10 == b / 10 {
        assert LexLess(u[1..], v[1..]);
      }
    }
    LexCommonPrefix(d, u, v);
  }

  /** With the intended key, all partitions of a disk sort before those of a
      later disk whose name has the same length. */
  lemma PartKeyGroups(d1: string, d2: string, a: nat, b: nat)
    requires d1 != [] && !IsDigit(Last(d1)) && d2 != [] && !IsDigit(Last(d2))
    requires |d1| == |d2| && LexLess(d1, d2) && 1 <= a <= 99 && 1 <= b <= 99
    ensures PartKey(d1 + Dec(a)).Ok? && PartKey(d2 + Dec(b)).Ok?
    ensures LexLess(PartKey(d1 + Dec(a)).value, PartKey(d2 + Dec(b)).value)
  {
    KeyOfPartition(d1, a);
    KeyOfPartition(d2, b);
    LexDifferentPrefix(d1, d2, [Digit(a / 10), Digit(a % 10)], [Digit(b / 10), Digit(b % 10)]);
  }

  /** As written, `sda1` and `sdb1` get the same key, and `sdb1` sorts
      before `sda10`. */
  lemma PartKeyCollides()
    ensures PartKeyAsWritten("sda1") == Ok("sd01") && PartKeyAsWritten("sdb1") == Ok("sd01")
    ensures PartKeyAsWritten("sda10") == Ok("sda10") && LexLess("sd01", "sda10")
  {
    assert "sda1"[..2] == "sd" && "sdb1"[..2] == "sd";
    assert "sd" + "0" + ['1'] == "sd01";
    assert LexLess("01", "a10");
    LexCommonPrefix("sd", "01", "a10");
    assert "sd" + "01" == "sd01" && "sd" + "a10" == "sda10";
  }
}

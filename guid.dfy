/** GUID text: `counts`, `uuidstr`, `is_uuidfmt` and `uuid_bytes`. A GUID in
    a BCD device locator is 16 bytes in Microsoft order: the first three
    groups (4, 2 and 2 bytes) little-endian, the last 8 bytes as stored. */
module Guid {
  import opened Text
  import opened HexValues

  /** Number of zero bytes. */
  function Zeros(arr: seq<nat>): nat
  {
    if arr == [] then 0 else Zeros(arr[..|arr| - 1]) + (if arr[|arr| - 1] == 0 then 1 else 0)
  }

  predicate IsPrintable(v: nat)
  {
    32 <= v <= 122
  }

  /** Number of bytes in 32..122. */
  function Printables(arr: seq<nat>): nat
  {
    if arr == [] then 0 else Printables(arr[..|arr| - 1]) + (if IsPrintable(arr[|arr| - 1]) then 1 else 0)
  }

  /** `counts`: the zeros and the bytes in 32..122, in one pass. */
  method Counts(arr: seq<nat>) returns (cntz: nat, cnta: nat)
    ensures cntz == Zeros(arr) && cnta == Printables(arr)
  {
    cntz, cnta := 0, 0;
    var i := 0;
    while i < |arr|
      invariant 0 <= i <= |arr|
      invariant cntz == Zeros(arr[..i]) && cnta == Printables(arr[..i])
    {
      if arr[i] == 0 {
        cntz := cntz + 1;
      }
      if 32 <= arr[i] <= 122 {
        cnta := cnta + 1;
      }
      assert arr[..i + 1][..i] == arr[..i];
      i := i + 1;
    }
    assert arr[..i] == arr;
  }

  /** A zero is never printable, so the two counts together never exceed
      the length. */
  lemma {:induction false} CountsBound(arr: seq<nat>)
    ensures Zeros(arr) + Printables(arr) <= |arr|
  {
    if arr != [] {
      CountsBound(arr[..|arr| - 1]);
    }
  }

  /** `uuidstr`: the 8-4-4-4-12 text of a 16-byte window. The f-string
      prints sixteen two-digit pairs, byte `Order[k]` as pair `k`, with a
      dash before pairs 4, 6, 8 and 10. */
  function UuidStr(h: seq<nat>): string
    requires |h| >= 16
  {
    Dashed(Pairs(h))
  }

  predicate IsDash(i: int)
  {
    i == 8 || i == 13 || i == 18 || i == 23
  }

  /** 36 characters, dashes at 8, 13, 18 and 23, hexadecimal digits elsewhere. */
  predicate UuidShape(s: string)
  {
    && |s| == 36
    && (forall i :: 0 <= i < 36 && IsDash(i) ==> s[i] == '-')
    && (forall i :: 0 <= i < 36 && !IsDash(i) ==> IsHexDigit(s[i]))
  }

  /** `UuidShape` with lower-case digits: what `uuidstr` prints. */
  predicate LowerUuid(s: string)
  {
    UuidShape(s) && forall i :: 0 <= i < 36 && !IsDash(i) ==> IsLowerHexDigit(s[i])
  }

  /** `is_uuidfmt`: the pattern is anchored by `^` and `$`, and `$` also
      matches before a final newline. */
  predicate IsUuidFmt(st: string)
  {
    UuidShape(st) || (|st| == 37 && st[36] == '\n' && UuidShape(st[..36]))
  }

  /** The 16 two-character fields `uuid_bytes` takes from a GUID string, in
      byte order. */
  function UuidFields(u: string): (r: seq<string>)
    ensures |r| == 16
  {
    [Slice(u, 6, 8), Slice(u, 4, 6), Slice(u, 2, 4), Slice(u, 0, 2), Slice(u, 11, 13), Slice(u, 9, 11),
     Slice(u, 16, 18), Slice(u, 14, 16), Slice(u, 19, 21), Slice(u, 21, 23),
     Slice(u, 24, 26), Slice(u, 26, 28), Slice(u, 28, 30), Slice(u, 30, 32), Slice(u, 32, 34), Slice(u, 34, 36)]
  }

  /** `uuid_bytes`: the GUID string as the comma-separated bytes of a
      registry `hex:` value. */
  function UuidBytes(u: string): string
  {
    Join(UuidFields(u), ',')
  }

  /** Byte shown by the k-th two-digit pair of `uuidstr` (its own inverse). */
  const Order: seq<nat> := [3, 2, 1, 0, 5, 4, 7, 6, 8, 9, 10, 11, 12, 13, 14, 15]

  /** Index at which the k-th pair of a GUID string starts. */
  const Starts: seq<nat> := [0, 2, 4, 6, 9, 11, 14, 16, 19, 21, 24, 26, 28, 30, 32, 34]

  /** The pair of the GUID string that holds character `i` (not a dash). */
  function PairOf(i: nat): (k: nat)
    requires i < 36 && !IsDash(i)
    ensures k < 16 && Starts[k] <= i < Starts[k] + 2
  {
    if i < 8 then i / 2 else if i < 13 then 4 + (i - 9) / 2 else if i < 18 then 6 + (i - 14) / 2
    else if i < 23 then 8 + (i - 19) / 2 else 10 + (i - 24) / 2
  }

  /** The dash printed before pair `k`. */
  function Sep(k: nat): string
  {
    if k == 4 || k == 6 || k == 8 || k == 10 then "-" else ""
  }

  /** The last `|q|` of the sixteen pairs, each after its dash if it has one. */
  function Dashed(q: seq<string>): string
    requires |q| <= 16
  {
    if q == [] then "" else Sep(16 - |q|) + q[0] + Dashed(q[1..])
  }

  predicate PairsOk(p: seq<string>)
  {
    |p| == 16 && forall k :: 0 <= k < 16 ==> |p[k]| == 2
  }

  /** Where `Dashed(p[k..])` begins in the whole text. */
  function Begin(k: nat): (r: nat)
    requires k <= 16
    ensures r <= 36
  {
    if k == 16 then 36 else Starts[k] - |Sep(k)|
  }

  lemma BeginStep(k: nat)
    requires k < 16
    ensures Begin(k + 1) == Begin(k) + |Sep(k)| + 2 && Starts[k] == Begin(k) + |Sep(k)|
  {
    if k == 0 {} else if k == 1 {} else if k == 2 {} else if k == 3 {} else if k == 4 {} else if k == 5 {}
    else if k == 6 {} else if k == 7 {} else if k == 8 {} else if k == 9 {} else if k == 10 {} else if k == 11 {}
    else if k == 12 {} else if k == 13 {} else if k == 14 {} else {}
  }

  lemma {:induction false} DashedLength(p: seq<string>, k: nat)
    requires PairsOk(p) && k <= 16
    ensures |Dashed(p[k..])| == 36 - Begin(k)
    decreases 16 - k
  {
    if k < 16 {
      DashedLength(p, k + 1);
      BeginStep(k);
      assert p[k..][1..] == p[k + 1..];
    } else {
      assert p[k..] == [];
    }
  }

  /** `Dashed(p[k..])` is what follows index `Begin(k)` of the whole text. */
  lemma {:induction false} DashedSuffix(p: seq<string>, k: nat)
    requires PairsOk(p) && k <= 16
    ensures |Dashed(p)| == 36 && Dashed(p)[Begin(k)..] == Dashed(p[k..])
  {
    DashedLength(p, 0);
    assert p[0..] == p;
    if k > 0 {
      DashedSuffix(p, k - 1);
      BeginStep(k - 1);
      var t := Dashed(p[k - 1..]);
      var u := Dashed(p[k..]);
      assert p[k - 1..][1..] == p[k..];
      assert t == Sep(k - 1) + p[k - 1] + u;
      SuffixOfSuffix(Dashed(p), Begin(k - 1), |Sep(k - 1)| + 2, t, u);
    }
  }

  lemma SuffixOfSuffix(d: string, b: nat, c: nat, t: string, u: string)
    requires b <= |d| && d[b..] == t && c <= |t| && t[c..] == u
    ensures d[b + c..] == u
  {
  }

  lemma PairAt(p: seq<string>, k: nat)
    requires PairsOk(p) && k < 16
    ensures |Dashed(p)| == 36
    ensures Dashed(p)[Starts[k]..Starts[k] + 2] == p[k]
    ensures Sep(k) == "-" ==> Dashed(p)[Begin(k)] == '-'
  {
    DashedSuffix(p, k);
    DashedLength(p, k + 1);
    BeginStep(k);
    var t := Dashed(p[k..]);
    var a := |Sep(k)|;
    assert p[k..][1..] == p[k + 1..];
    assert t == Sep(k) + p[k] + Dashed(p[k + 1..]);
    assert t[a..a + 2] == p[k];
    SliceOfSuffix(Dashed(p), Begin(k), a, t);
  }

  lemma SliceOfSuffix(d: string, b: nat, a: nat, t: string)
    requires b <= |d| && d[b..] == t && a + 2 <= |t|
    ensures d[b + a..b + a + 2] == t[a..a + 2] && d[b] == t[0]
  {
    assert d[b] == d[b..][0];
  }

  /** The pairs sit at `Starts`, the dashes at 8, 13, 18 and 23. */
  lemma DashedLayout(p: seq<string>)
    requires PairsOk(p)
    ensures |Dashed(p)| == 36
    ensures forall k :: 0 <= k < 16 ==> Dashed(p)[Starts[k]..Starts[k] + 2] == p[k]
    ensures forall i :: 0 <= i < 36 && IsDash(i) ==> Dashed(p)[i] == '-'
  {
    DashedLength(p, 0);
    var s := Dashed(p);
    forall k | 0 <= k < 16 ensures s[Starts[k]..Starts[k] + 2] == p[k] {
      PairAt(p, k);
    }
    forall i | 0 <= i < 36 && IsDash(i) ensures s[i] == '-' {
      var k := if i == 8 then 4 else if i == 13 then 6 else if i == 18 then 8 else 10;
      assert Sep(k) == "-" && Begin(k) == i;
      PairAt(p, k);
    }
  }

  /** The pairs of `uuidstr`, in the order it prints them. */
  function Pairs(h: seq<nat>): (p: seq<string>)
    requires |h| >= 16
    ensures |p| == 16 && forall k :: 0 <= k < 16 ==> p[k] == Hex02(h[Order[k]])
  {
    seq(16, k requires 0 <= k < 16 => Hex02(h[Order[k]]))
  }

  /** Where each byte of the window sits in `uuidstr`'s text. */
  lemma UuidStrAt(h: seq<nat>)
    requires |h| == 16 && AllBytes(h)
    ensures LaidOut(UuidStr(h), h)
  {
    var p := Pairs(h);
    assert PairsOk(p) by {
      forall k | 0 <= k < 16 ensures |p[k]| == 2 {
        assert h[Order[k]] < 256;
      }
    }
    DashedLayout(p);
  }

  /** A 36-character text with the pairs of `h` at `Starts` and dashes between. */
  predicate LaidOut(s: string, h: seq<nat>)
    requires |h| == 16
  {
    && |s| == 36
    && (forall k :: 0 <= k < 16 ==> s[Starts[k]..Starts[k] + 2] == Hex02(h[Order[k]]))
    && (forall i :: 0 <= i < 36 && IsDash(i) ==> s[i] == '-')
  }

  lemma OrderInvolution()
    ensures forall i :: 0 <= i < 16 ==> Order[i] < 16 && Order[Order[i]] == i
  {
  }

  lemma LowerOfLayout(s: string, h: seq<nat>)
    requires |h| == 16 && AllBytes(h) && LaidOut(s, h)
    ensures LowerUuid(s)
  {
    OrderInvolution();
    forall i | 0 <= i < 36 && !IsDash(i) ensures IsLowerHexDigit(s[i]) && IsHexDigit(s[i]) {
      var k := PairOf(i);
      var pair := s[Starts[k]..Starts[k] + 2];
      assert AllLowerHex(pair);
      assert s[i] == pair[i - Starts[k]];
    }
  }

  lemma FieldsOfLayout(s: string, h: seq<nat>)
    requires |h| == 16 && LaidOut(s, h)
    ensures UuidFields(s) == seq(16, i requires 0 <= i < 16 => Hex02(h[i]))
  {
    OrderInvolution();
    FieldsAt(s);
    var parts := seq(16, i requires 0 <= i < 16 => Hex02(h[i]));
    forall i | 0 <= i < 16 ensures UuidFields(s)[i] == parts[i] {
      assert Order[Order[i]] == i;
    }
  }

  /** Two texts laid out alike are equal. */
  lemma SameLayout(s: string, u: string, h: seq<nat>)
    requires |h| == 16 && LaidOut(s, h) && LaidOut(u, h)
    ensures s == u
  {
    forall i | 0 <= i < 36 ensures s[i] == u[i] {
      if !IsDash(i) {
        var k := PairOf(i);
        assert s[Starts[k]..Starts[k] + 2][i - Starts[k]] == s[i];
        assert u[Starts[k]..Starts[k] + 2][i - Starts[k]] == u[i];
      }
    }
  }

  /** The text of a window has the GUID shape, in lower case. */
  lemma UuidStrShape(h: seq<nat>)
    requires |h| == 16 && AllBytes(h)
    ensures LowerUuid(UuidStr(h)) && UuidShape(UuidStr(h)) && IsUuidFmt(UuidStr(h))
  {
    UuidStrAt(h);
    LowerOfLayout(UuidStr(h), h);
  }

  /** `uuid_bytes(uuidstr(w))` is the registry text of `w` itself: the byte
      swaps of the two functions cancel. */
  lemma UuidBytesOfStr(h: seq<nat>)
    requires |h| == 16 && AllBytes(h)
    ensures UuidBytes(UuidStr(h)) == HexList(h)
  {
    UuidStrAt(h);
    FieldsOfLayout(UuidStr(h), h);
    JoinHexList(h);
  }

  /** `uuid_bytes` reads byte `i` from the pair `Order[i]`. */
  lemma FieldsAt(u: string)
    requires |u| == 36
    ensures forall i :: 0 <= i < 16 ==> UuidFields(u)[i] == u[Starts[Order[i]]..Starts[Order[i]] + 2]
  {
    var f := UuidFields(u);
    forall i | 0 <= i < 16 ensures f[i] == u[Starts[Order[i]]..Starts[Order[i]] + 2] {
      if i < 4 {
        assert Order[i] == 3 - i;
      } else if i < 8 {
        assert Order[i] == if i % 2 == 0 then i + 1 else i - 1;
      } else {
        assert Order[i] == i;
      }
    }
  }

  /** Each two-character field of a GUID string. */
  lemma FieldsOfUuid(u: string)
    requires LowerUuid(u)
    ensures forall i :: 0 <= i < 16 ==> |UuidFields(u)[i]| == 2 && AllLowerHex(UuidFields(u)[i])
  {
    FieldsAt(u);
    OrderInvolution();
    forall i | 0 <= i < 16 ensures |UuidFields(u)[i]| == 2 && AllLowerHex(UuidFields(u)[i]) {
      var st := Starts[Order[i]];
      var f := u[st..st + 2];
      forall j | 0 <= j < 2 ensures IsLowerHexDigit(f[j]) {
        assert !IsDash(st + j);
      }
    }
  }

  /** The bytes a GUID string stands for. */
  function UuidValue(u: string): (r: seq<nat>)
    requires LowerUuid(u)
    ensures |r| == 16 && AllBytes(r)
  {
    FieldsOfUuid(u);
    var r := seq(16, i requires 0 <= i < 16 => ParseHex(UuidFields(u)[i]));
    assert forall i :: 0 <= i < 16 ==> r[i] < 256 by {
      forall i | 0 <= i < 16 ensures r[i] < 256 {
        Hex02OfParse(UuidFields(u)[i]);
      }
    }
    r
  }

  lemma ValueLayout(u: string)
    requires LowerUuid(u)
    ensures LaidOut(u, UuidValue(u))
  {
    var w := UuidValue(u);
    FieldsOfUuid(u);
    FieldsAt(u);
    OrderInvolution();
    forall k | 0 <= k < 16 ensures u[Starts[k]..Starts[k] + 2] == Hex02(w[Order[k]]) {
      Hex02OfParse(UuidFields(u)[Order[k]]);
    }
  }

  /** Every lower-case GUID string is the text of the bytes it stands for:
      `uuidstr` is onto the lower-case GUID strings. */
  lemma UuidStrOfValue(u: string)
    requires LowerUuid(u)
    ensures UuidStr(UuidValue(u)) == u
  {
    UuidStrAt(UuidValue(u));
    ValueLayout(u);
    SameLayout(UuidStr(UuidValue(u)), u, UuidValue(u));
  }

  /** A lower-case GUID string gives 47 characters of registry text, which
      decode back to its bytes. */
  lemma UuidBytesOfValue(u: string)
    requires LowerUuid(u)
    ensures UuidBytes(u) == HexList(UuidValue(u)) && |UuidBytes(u)| == 47
  {
    UuidStrOfValue(u);
    UuidBytesOfStr(UuidValue(u));
    HexListLength(UuidValue(u));
  }
}

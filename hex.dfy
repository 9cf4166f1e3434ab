/** Hexadecimal text: `int(x, 16)`, `f"{v:02x}"`, and the decoding of a
    registry `hex:` value into its list of numbers (`arr_from_hexstr`). */
module HexValues {
  import opened Text

  predicate IsHexDigit(c: char)
  {
    '0' <= c <= '9' || 'a' <= c <= 'f' || 'A' <= c <= 'F'
  }

  predicate IsLowerHexDigit(c: char)
  {
    '0' <= c <= '9' || 'a' <= c <= 'f'
  }

  predicate AllHex(s: string)
  {
    forall i :: 0 <= i < |s| ==> IsHexDigit(s[i])
  }

  predicate AllLowerHex(s: string)
  {
    forall i :: 0 <= i < |s| ==> IsLowerHexDigit(s[i])
  }

  function DigitValue(c: char): (v: nat)
    requires IsHexDigit(c)
    ensures v < 16
  {
    if '0' <= c <= '9' then (c - '0') as nat
    else if 'a' <= c <= 'f' then (c - 'a') as nat + 10
    else (c - 'A') as nat + 10
  }

  /** The lower-case digit Python's `x` format prints for `d`. */
  function LowerDigit(d: nat): (c: char)
    requires d < 16
    ensures IsLowerHexDigit(c)
  {
    if d < 10 then ('0' as int + d) as char else ('a' as int + d - 10) as char
  }

  /** Reading back a printed digit gives its value. */
  lemma LowerDigitValue(d: nat)
    requires d < 16
    ensures DigitValue(LowerDigit(d)) == d
  {
  }

  lemma LowerDigitOf(c: char)
    requires IsLowerHexDigit(c)
    ensures LowerDigit(DigitValue(c)) == c
  {
  }

  /** `int(s, 16)` for a string of hexadecimal digits. */
  function ParseHex(s: string): nat
    requires AllHex(s)
  {
    if s == [] then 0 else ParseHex(s[..|s| - 1]) * 16 + DigitValue(s[|s| - 1])
  }

  /** `format(v, 'x')`: the shortest lower-case hexadecimal spelling of `v`. */
  function HexDigits(v: nat): (r: string)
    ensures |r| >= 1 && AllLowerHex(r)
    ensures v < 16 <==> |r| == 1
    ensures v < 256 <==> |r| <= 2
  {
    if v < 16 then [LowerDigit(v)] else HexDigits(v / 16) + [LowerDigit(v % 16)]
  }

  /** `f"{v:02x}"`: hexadecimal, padded with zeros to at least two digits. */
  function Hex02(v: nat): (r: string)
    ensures |r| >= 2 && AllLowerHex(r)
    ensures v < 256 <==> |r| == 2
  {
    HexDigits(v / 16) + [LowerDigit(v % 16)]
  }

  lemma {:induction false} ParseHexDigits(v: nat)
    ensures AllHex(HexDigits(v)) && ParseHex(HexDigits(v)) == v
  {
    var s := HexDigits(v);
    LowerDigitValue(v % 16);
    if v < 16 {
      assert s[..0] == [];
    } else {
      ParseHexDigits(v / 16);
      assert s[..|s| - 1] == HexDigits(v / 16);
    }
  }

  /** Printing with `:02x` and reading back with `int(_, 16)` is the identity. */
  lemma ParseHex02(v: nat)
    ensures AllHex(Hex02(v)) && ParseHex(Hex02(v)) == v
  {
    if v < 16 {
      var s := Hex02(v);
      assert ParseHex(['0']) == 0 by {
        assert ['0'][..0] == [];
      }
      assert s[..1] == ['0'];
    } else {
      ParseHexDigits(v);
    }
  }

  /** Two lower-case digits are what `:02x` prints for the number they spell. */
  lemma Hex02OfParse(s: string)
    requires |s| == 2 && AllLowerHex(s)
    ensures AllHex(s) && ParseHex(s) < 256 && Hex02(ParseHex(s)) == s
  {
    var hi, lo := DigitValue(s[0]), DigitValue(s[1]);
    assert ParseHex(s[..1]) == hi by {
      assert s[..1][..0] == [];
      assert s[..1][0] == s[0];
    }
    assert ParseHex(s) == hi * 16 + lo;
    LowerDigitOf(s[0]);
    LowerDigitOf(s[1]);
    TwoDigits(hi, lo);
    assert Hex02(hi * 16 + lo) == [LowerDigit(hi), LowerDigit(lo)];
  }

  lemma TwoDigits(hi: nat, lo: nat)
    requires hi < 16 && lo < 16
    ensures (hi * 16 + lo) / 16 == hi && (hi * 16 + lo) % 16 == lo && hi * 16 + lo < 256
  {
  }

  predicate AllBytes(bs: seq<nat>)
  {
    forall i :: 0 <= i < |bs| ==> bs[i] < 256
  }

  /** `",".join(f"{b:02x}" for b in bs)`: the registry spelling of a byte list. */
  function HexList(bs: seq<nat>): string
  {
    if |bs| == 0 then ""
    else if |bs| == 1 then Hex02(bs[0])
    else Hex02(bs[0]) + "," + HexList(bs[1..])
  }

  /** Each byte takes three characters of text, the last one two. */
  lemma {:induction false} HexListLength(bs: seq<nat>)
    requires |bs| >= 1 && AllBytes(bs)
    ensures |HexList(bs)| == 3 * |bs| - 1
  {
    if |bs| > 1 {
      HexListLength(bs[1..]);
    }
  }

  lemma {:induction false} HexListAppend(xs: seq<nat>, ys: seq<nat>)
    requires |xs| >= 1 && |ys| >= 1
    ensures HexList(xs + ys) == HexList(xs) + "," + HexList(ys)
  {
    if |xs| == 1 {
      assert (xs + ys)[1..] == ys;
    } else {
      assert (xs + ys)[1..] == xs[1..] + ys;
      HexListAppend(xs[1..], ys);
    }
  }

  /** The comma-separated fields of a `HexList` are the `:02x` spellings. */
  lemma {:induction false} SplitHexList(bs: seq<nat>)
    requires |bs| >= 1
    ensures Split(HexList(bs), ',') == seq(|bs|, i requires 0 <= i < |bs| => Hex02(bs[i]))
  {
    var parts := seq(|bs|, i requires 0 <= i < |bs| => Hex02(bs[i]));
    JoinHexList(bs);
    SplitJoin(parts, ',');
  }

  lemma {:induction false} JoinHexList(bs: seq<nat>)
    requires |bs| >= 1
    ensures HexList(bs) == Join(seq(|bs|, i requires 0 <= i < |bs| => Hex02(bs[i])), ',')
    ensures forall i :: 0 <= i < |bs| ==> ',' !in Hex02(bs[i])
  {
    var parts := seq(|bs|, i requires 0 <= i < |bs| => Hex02(bs[i]));
    forall i | 0 <= i < |bs| ensures ',' !in Hex02(bs[i]) {
      var h := Hex02(bs[i]);
      assert forall j :: 0 <= j < |h| ==> IsLowerHexDigit(h[j]);
    }
    if |bs| > 1 {
      JoinHexList(bs[1..]);
      assert parts[1..] == seq(|bs| - 1, i requires 0 <= i < |bs| - 1 => Hex02(bs[1..][i]));
    }
  }

  /** The text after the `hex(7):` or `hex:` tag, or None when neither is present. */
  function Payload(hexstr: string): (r: Option<string>)
    ensures r.Some? <==> StartsWith(hexstr, "hex(7):") || StartsWith(hexstr, "hex:")
  {
    if StartsWith(hexstr, "hex(7):") then Some(hexstr[7..])
    else if StartsWith(hexstr, "hex:") then Some(hexstr[4..])
    else None
  }

  predicate FieldOk(f: string)
  {
    f != [] && AllHex(f)
  }

  /** `[int(x, 16) for x in text.split(",")]`; a field that is empty or not
      hexadecimal raises ValueError. */
  function Fields(text: string): Result<seq<nat>>
  {
    var parts := Split(text, ',');
    if forall i :: 0 <= i < |parts| ==> FieldOk(parts[i]) then
      Ok(seq(|parts|, i requires 0 <= i < |parts| && FieldOk(parts[i]) => ParseHex(parts[i])))
    else Err(ValueError)
  }

  /** `arr_from_hexstr`: decode a `hex:` or `hex(7):` value into its numbers. */
  function ArrFromHexstr(hexstr: string): (r: Result<seq<nat>>)
    ensures Payload(hexstr).None? ==> r == Err(ValueError)
    ensures r.Ok? ==>
      var fields := Split(Payload(hexstr).value, ',');
      && |r.value| == |fields|
      && forall i :: 0 <= i < |fields| ==> FieldOk(fields[i]) && r.value[i] == ParseHex(fields[i])
  {
    match Payload(hexstr)
    case None => Err(ValueError)
    case Some(text) => Fields(text)
  }

  /** The decoded list has one element more than the payload has commas. */
  lemma DecodedLength(hexstr: string)
    requires ArrFromHexstr(hexstr).Ok?
    ensures |ArrFromHexstr(hexstr).value| == Occurrences(Payload(hexstr).value, ',') + 1
  {
    SplitCount(Payload(hexstr).value, ',');
  }

  /** A tagged `HexList` decodes back to its bytes. */
  lemma {:induction false} DecodeHexList(tag: string, bs: seq<nat>)
    requires tag == "hex:" || tag == "hex(7):"
    requires |bs| >= 1
    ensures ArrFromHexstr(tag + HexList(bs)) == Ok(bs)
  {
    var s := tag + HexList(bs);
    assert s[..|tag|] == tag;
    if tag == "hex:" {
      assert !StartsWith(s, "hex(7):") by {
        assert s[3] == ':';
      }
    }
    assert Payload(s) == Some(HexList(bs));
    SplitHexList(bs);
    var parts := Split(HexList(bs), ',');
    forall i | 0 <= i < |parts| ensures FieldOk(parts[i]) && ParseHex(parts[i]) == bs[i] {
      ParseHex02(bs[i]);
    }
    assert Fields(HexList(bs)).Ok?;
    var decoded := Fields(HexList(bs)).value;
    assert |decoded| == |bs|;
    forall i | 0 <= i < |bs| ensures decoded[i] == bs[i] {
    }
    assert decoded == bs;
    assert ArrFromHexstr(s) == Fields(HexList(bs));
  }
}

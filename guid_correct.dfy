/** `correct_uuid`: overwrite the 16 bytes of one GUID window in the text of
    a `hex:` value. */
module GuidCorrect {
  import opened Text
  import opened HexValues
  import opened RegTree
  import opened Guid

  /** Index of the first character `correct_uuid` overwrites: byte `offs`
      of the value sits 3 characters per byte after the first ':'. */
  function SpliceAt(dstr: string, offs: nat): int
  {
    Find(dstr, ':', 0) + 3 * offs + 1
  }

  /** The new value text: the 47 characters from `SpliceAt` on are replaced
      by `uuid_bytes(uuid)`, with Python's clamped slices; a value without
      ':' fails the assertion. */
  function CorrectValue(uuid: string, offs: nat, dstr: string): Result<string>
  {
    var ix := Find(dstr, ':', 0);
    if ix < 0 then Err(AssertionError)
    else
      var at := ix + 3 * offs + 1;
      Ok(Slice(dstr, 0, at) + UuidBytes(uuid) + Drop(dstr, at + 47))
  }

  /** `correct_uuid(uuid, offs, dct)` on the dictionary `dct`: its `Element`
      value is replaced. A value that is not a dictionary cannot be indexed
      by a string, a missing `Element` is a KeyError, and an `Element` that
      is a dictionary has no `find`. */
  function CorrectUuid(uuid: string, offs: nat, dct: Node): Result<Node>
  {
    match dct
    case Leaf(_) => Err(TypeError)
    case Branch(es) =>
      match Get(es, "Element")
      case None => Err(KeyError)
      case Some(Branch(_)) => Err(AttributeError)
      case Some(Leaf(dstr)) =>
        match CorrectValue(uuid, offs, dstr)
        case Err(f) => Err(f)
        case Ok(v) => Ok(Branch(Put(es, "Element", Leaf(v))))
  }

  /** The assertion fails exactly when the value has no ':'. When the 47
      characters fit and `uuid_bytes` gives 47 characters, the value keeps its
      length and only those 47 characters change, to `uuid_bytes(uuid)`. */
  lemma CorrectSplice(uuid: string, offs: nat, dstr: string)
    ensures CorrectValue(uuid, offs, dstr).Err? <==> ':' !in dstr
    ensures CorrectValue(uuid, offs, dstr).Err? ==> CorrectValue(uuid, offs, dstr).fault == AssertionError
    ensures var ix := SpliceAt(dstr, offs);
      var r := CorrectValue(uuid, offs, dstr);
      ':' in dstr && ix + 47 <= |dstr| && |UuidBytes(uuid)| == 47 ==>
        && r.Ok? && |r.value| == |dstr|
        && r.value[..ix] == dstr[..ix]
        && r.value[ix..ix + 47] == UuidBytes(uuid)
        && r.value[ix + 47..] == dstr[ix + 47..]
  {
    var ix := Find(dstr, ':', 0);
    FindMeans(dstr, ':', 0);
    if ':' in dstr {
      var k :| 0 <= k < |dstr| && dstr[k] == ':';
      assert ix >= 0;
    }
    if ix >= 0 {
      var at := SpliceAt(dstr, offs);
      var ub := UuidBytes(uuid);
      if at + 47 <= |dstr| && |ub| == 47 {
        var r := dstr[..at] + ub + dstr[at + 47..];
        assert CorrectValue(uuid, offs, dstr) == Ok(r);
        assert r[..at] == dstr[..at];
        assert r[at..at + 47] == ub;
        assert r[at + 47..] == dstr[at + 47..];
      }
    }
  }

  lemma CorrectValueAt(uuid: string, offs: nat, dstr: string, ub: string)
    requires ':' in dstr && SpliceAt(dstr, offs) + 47 <= |dstr| && UuidBytes(uuid) == ub
    ensures var at := SpliceAt(dstr, offs);
      CorrectValue(uuid, offs, dstr) == Ok(dstr[..at] + ub + dstr[at + 47..])
  {
    CorrectSplice(uuid, offs, dstr);
  }

  /** The first ':' of a tagged value is the tag's own. */
  lemma TagColon(tag: string, body: string)
    requires tag == "hex:" || tag == "hex(7):"
    ensures Find(tag + body, ':', 0) == |tag| - 1
  {
    var pre := tag[..|tag| - 1];
    assert tag == pre + [':'];
    assert ':' !in pre;
    assert tag + body == pre + [':'] + body;
    FindSeparator(pre, ':', body);
  }

  lemma Split3(bs: seq<nat>, i: nat, j: nat)
    requires i <= j <= |bs|
    ensures bs == bs[..i] + bs[i..j] + bs[j..]
  {
  }

  /** Replacing the 47 characters after `pre`. */
  lemma ReplaceWindow(uuid: string, offs: nat, pre: string, mid: string, tail: string, ub: string)
    requires ':' in pre && |mid| == 47 && SpliceAt(pre + mid + tail, offs) == |pre| && UuidBytes(uuid) == ub
    ensures CorrectValue(uuid, offs, pre + mid + tail) == Ok(pre + ub + tail)
  {
    var d := pre + mid + tail;
    var k :| 0 <= k < |pre| && pre[k] == ':';
    assert d[k] == ':';
    CorrectValueAt(uuid, offs, d, ub);
    assert d[..|pre|] == pre;
    assert d[|pre| + 47..] == tail;
  }

  /** The text of a byte list cut in three, the first two parts not empty. */
  lemma HexList3(a: seq<nat>, w: seq<nat>, c: seq<nat>)
    requires |a| >= 1 && |w| >= 1
    ensures HexList(a + w + c) == HexList(a) + "," + HexList(w) + Tail(c)
  {
    HexListAppend(a, w);
    if c == [] {
      assert a + w + c == a + w;
    } else {
      HexListAppend(a + w, c);
    }
  }

  /** The text of a byte list cut around the window of 16 bytes at `offs`. */
  lemma HexListAround(bs: seq<nat>, offs: nat)
    requires 1 <= offs && offs + 16 <= |bs| && AllBytes(bs)
    ensures var w := bs[offs..offs + 16];
      && |HexList(bs[..offs])| == 3 * offs - 1
      && |HexList(w)| == 47
      && HexList(bs) == HexList(bs[..offs]) + "," + HexList(w) + Tail(bs[offs + 16..])
  {
    var a, w, c := bs[..offs], bs[offs..offs + 16], bs[offs + 16..];
    HexListLength(a);
    HexListLength(w);
    Split3(bs, offs, offs + 16);
    HexList3(a, w, c);
  }

  /** The text after a window's 47 characters: nothing at the end of the
      value, otherwise a ',' and the following bytes. */
  function Tail(c: seq<nat>): string
  {
    if c == [] then "" else "," + HexList(c)
  }

  /** Correcting a tagged value with a lower-case GUID string writes that
      GUID's bytes into the window at `offs` and leaves every other byte as
      it was: the decoded value is the old one with the window replaced. */
  lemma CorrectDecoded(tag: string, bs: seq<nat>, offs: nat, u: string)
    requires tag == "hex:" || tag == "hex(7):"
    requires AllBytes(bs) && 1 <= offs && offs + 16 <= |bs|
    requires LowerUuid(u)
    ensures var spliced := bs[..offs] + UuidValue(u) + bs[offs + 16..];
      && CorrectValue(u, offs, tag + HexList(bs)) == Ok(tag + HexList(spliced))
      && ArrFromHexstr(tag + HexList(bs)) == Ok(bs)
      && ArrFromHexstr(tag + HexList(spliced)) == Ok(spliced)
  {
    var v := UuidValue(u);
    var pre := tag + HexList(bs[..offs]) + ",";
    TaggedAround(tag, bs, offs);
    UuidBytesOfValue(u);
    ReplaceWindow(u, offs, pre, HexList(bs[offs..offs + 16]), Tail(bs[offs + 16..]), HexList(v));
    HexList3(bs[..offs], v, bs[offs + 16..]);
    Regroup(tag, HexList(bs[..offs]), HexList(v), Tail(bs[offs + 16..]));
    DecodeHexList(tag, bs);
    DecodeHexList(tag, bs[..offs] + v + bs[offs + 16..]);
  }

  lemma Regroup(t: string, x: string, y: string, z: string)
    ensures (t + x + ",") + y + z == t + (x + "," + y + z)
  {
  }

  /** A tagged value cut around the window at `offs`, which starts right
      where `correct_uuid` begins to overwrite. */
  lemma TaggedAround(tag: string, bs: seq<nat>, offs: nat)
    requires tag == "hex:" || tag == "hex(7):"
    requires AllBytes(bs) && 1 <= offs && offs + 16 <= |bs|
    ensures var pre := tag + HexList(bs[..offs]) + ",";
      && tag + HexList(bs) == pre + HexList(bs[offs..offs + 16]) + Tail(bs[offs + 16..])
      && ':' in pre && |HexList(bs[offs..offs + 16])| == 47
      && SpliceAt(tag + HexList(bs), offs) == |pre|
  {
    var x, w, c := HexList(bs[..offs]), HexList(bs[offs..offs + 16]), Tail(bs[offs + 16..]);
    HexListAround(bs, offs);
    Regroup(tag, x, w, c);
    TagColon(tag, HexList(bs));
    ColonInPrefix(tag, x + ",");
  }

  lemma ColonInPrefix(tag: string, rest: string)
    requires tag == "hex:" || tag == "hex(7):"
    ensures ':' in tag + rest
  {
    assert (tag + rest)[|tag| - 1] == ':';
  }

  /** Two splices 20 bytes or more apart, as the reassignment of a locator
      does: both windows are rewritten and every other character is kept. */
  lemma TwoSplices(u0: string, o0: nat, u1: string, o1: nat, h: string)
    requires ':' in h && o0 + 20 <= o1 && SpliceAt(h, o1) + 47 <= |h|
    requires |UuidBytes(u0)| == 47 && |UuidBytes(u1)| == 47
    ensures CorrectValue(u0, o0, h).Ok? && CorrectValue(u1, o1, CorrectValue(u0, o0, h).value).Ok?
    ensures var v2 := CorrectValue(u1, o1, CorrectValue(u0, o0, h).value).value;
      var i0 := SpliceAt(h, o0);
      var i1 := SpliceAt(h, o1);
      && i0 + 47 <= i1 && |v2| == |h|
      && v2[..i0] == h[..i0] && v2[i0..i0 + 47] == UuidBytes(u0)
      && v2[i0 + 47..i1] == h[i0 + 47..i1]
      && v2[i1..i1 + 47] == UuidBytes(u1) && v2[i1 + 47..] == h[i1 + 47..]
  {
    var i0 := SpliceAt(h, o0);
    var i1 := SpliceAt(h, o1);
    CorrectSplice(u0, o0, h);
    var v1 := CorrectValue(u0, o0, h).value;
    SpliceAtKept(h, v1, i0, o1);
    CorrectSplice(u1, o1, v1);
    var v2 := CorrectValue(u1, o1, v1).value;
    SpliceTwice(h, v1, v2, i0, i1);
  }

  /** Two windows of 47 characters replaced one after the other leave the
      text between and around them as it was. */
  lemma SpliceTwice(h: string, v1: string, v2: string, i0: nat, i1: nat)
    requires i0 + 47 <= i1 && i1 + 47 <= |h| && |v1| == |h| && |v2| == |h|
    requires v1[..i0] == h[..i0] && v1[i0 + 47..] == h[i0 + 47..]
    requires v2[..i1] == v1[..i1] && v2[i1 + 47..] == v1[i1 + 47..]
    ensures v2[..i0] == h[..i0] && v2[i0..i0 + 47] == v1[i0..i0 + 47]
    ensures v2[i0 + 47..i1] == h[i0 + 47..i1] && v2[i1 + 47..] == h[i1 + 47..]
  {
    assert v2[..i0] == v2[..i1][..i0] && v1[..i0] == v1[..i1][..i0];
    assert v2[i0..i0 + 47] == v2[..i1][i0..i0 + 47] && v1[i0..i0 + 47] == v1[..i1][i0..i0 + 47];
    assert v2[i0 + 47..i1] == v2[..i1][i0 + 47..] && v1[i0 + 47..i1] == v1[..i1][i0 + 47..];
    assert v1[i0 + 47..i1] == v1[i0 + 47..][..i1 - (i0 + 47)] && h[i0 + 47..i1] == h[i0 + 47..][..i1 - (i0 + 47)];
    assert v1[i1 + 47..] == v1[i0 + 47..][i1 - i0..] && h[i1 + 47..] == h[i0 + 47..][i1 - i0..];
  }

  /** A value that agrees with `dstr` up to past its first ':' is spliced at
      the same places. */
  lemma SpliceAtKept(dstr: string, v: string, n: nat, offs: nat)
    requires ':' in dstr && n <= |dstr| && n <= |v| && v[..n] == dstr[..n]
    requires Find(dstr, ':', 0) < n
    ensures ':' in v && SpliceAt(v, offs) == SpliceAt(dstr, offs)
  {
    var c := Find(dstr, ':', 0);
    FindMeans(dstr, ':', 0);
    FindMeans(v, ':', 0);
    assert c >= 0;
    assert v[c] == v[..n][c] == dstr[..n][c] == ':';
    var d := Find(v, ':', 0);
    assert forall j :: 0 <= j < c ==> v[j] == v[..n][j] == dstr[..n][j] == dstr[j];
  }

  /** After a successful correction the dictionary's `Element` is the new
      value and every other key is untouched. */
  lemma CorrectUuidElement(uuid: string, offs: nat, dct: Node)
    requires CorrectUuid(uuid, offs, dct).Ok?
    ensures dct.Branch? && Get(dct.entries, "Element").Some? && Get(dct.entries, "Element").value.Leaf?
    ensures var dstr := Get(dct.entries, "Element").value.value;
      var n := CorrectUuid(uuid, offs, dct).value;
      && CorrectValue(uuid, offs, dstr).Ok?
      && n == Branch(Put(dct.entries, "Element", Leaf(CorrectValue(uuid, offs, dstr).value)))
      && Get(n.entries, "Element") == Some(Leaf(CorrectValue(uuid, offs, dstr).value))
      && forall k :: k != "Element" ==> Get(n.entries, k) == Get(dct.entries, k)
  {
  }
}

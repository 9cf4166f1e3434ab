/** The writer: `output_elem`, `output_regsub` and `output_reg`. Each method
    returns the text its `print` calls produce, before the file's newline
    translation; a function states the same text, and lemmas say what it is. */
module RegWrite {
  import opened Text
  import opened RegTree

  /** How `output_elem` cuts a value: the chunks it ends with `\`, a newline
      and a two-space indent, then the final chunk printed with a newline. */
  datatype Wrapped = Wrapped(cuts: seq<string>, tail: string)

  /** The cuts `output_elem` makes of `val`, starting with line width `wrap`,
      or None when its loop never ends: once no ',' follows index `wrap - 2`,
      `find` gives -1, nothing is cut, and with width 76 that repeats forever. */
  function Chunks(val: string, wrap: nat): Option<Wrapped>
    requires wrap == 66 || wrap == 76
    decreases |val|, if wrap == 66 then 1 else 0
  {
    if val == [] then Some(Wrapped([], ""))
    else if |val| <= wrap then Some(Wrapped([], val))
    else
      var idx := Find(val, ',', wrap - 2);
      if idx < 0 && wrap == 76 then None
      else
        match Chunks(val[idx + 1..], 76)
        case None => None
        case Some(w) => Some(Wrapped([val[..idx + 1]] + w.cuts, w.tail))
  }

  function Concat(ss: seq<string>): string
  {
    if ss == [] then "" else ss[0] + Concat(ss[1..])
  }

  /** The text printed for the cuts and the final chunk. */
  function WrapText(cuts: seq<string>, tail: string): string
  {
    if cuts == [] then (if tail == "" then "" else tail + "\n")
    else cuts[0] + "\\\n  " + WrapText(cuts[1..], tail)
  }

  predicate Terminates(val: string)
  {
    Chunks(val, 66).Some?
  }

  /** The text `output_elem(val)` prints. */
  function ElemText(val: string): string
    requires Terminates(val)
  {
    var w := Chunks(val, 66).value;
    WrapText(w.cuts, w.tail)
  }

  /** The text still to be printed for `v` at line width `wrap`. */
  function Remaining(v: string, wrap: nat): string
    requires wrap == 66 || wrap == 76
    requires Chunks(v, wrap).Some?
  {
    WrapText(Chunks(v, wrap).value.cuts, Chunks(v, wrap).value.tail)
  }

  /** `output_elem` as the source writes it. It terminates exactly when
      `Chunks` gives a result, which is what the precondition demands. */
  method OutputElem(val: string) returns (out: string)
    requires Terminates(val)
    ensures out == ElemText(val)
  {
    var v := val;
    var wrap := 66;
    out := "";
    while v != []
      invariant wrap == 66 || wrap == 76
      invariant Chunks(v, wrap).Some?
      invariant out + Remaining(v, wrap) == ElemText(val)
      decreases |v|, if wrap == 66 then 1 else 0
    {
      if |v| <= wrap {
        LastChunk(v, wrap);
        out := out + v + "\n";
        return;
      }
      var idx := Find(v, ',', wrap - 2);
      CutStep(v, wrap, idx);
      ghost var old_out := out;
      wrap := 76;
      var piece := v[..idx + 1] + "\\\n  ";
      out := out + piece;
      v := v[idx + 1..];
      assert old_out + (piece + Remaining(v, wrap)) == out + Remaining(v, wrap);
    }
    assert Remaining(v, wrap) == "";
  }

  lemma LastChunk(v: string, wrap: nat)
    requires wrap == 66 || wrap == 76
    requires v != [] && |v| <= wrap
    ensures Chunks(v, wrap).Some? && Remaining(v, wrap) == v + "\n"
  {
  }

  lemma CutStep(v: string, wrap: nat, idx: int)
    requires wrap == 66 || wrap == 76
    requires |v| > wrap && Chunks(v, wrap).Some? && idx == Find(v, ',', wrap - 2)
    ensures -1 <= idx < |v| && Chunks(v[idx + 1..], 76).Some?
    ensures Remaining(v, wrap) == v[..idx + 1] + "\\\n  " + Remaining(v[idx + 1..], 76)
  {
    ChunksStep(v, wrap, idx);
  }

  /** One cut: the value up to the ',' found, then the cuts of the rest at
      width 76. Only a first cut may be empty, and only when no ',' follows
      index 64; the rest is shorter unless that empty cut was made. */
  lemma Cut(val: string, wrap: nat, w: Wrapped) returns (c: string, rest: string, w': Wrapped)
    requires wrap == 66 || wrap == 76
    requires |val| > wrap && Chunks(val, wrap) == Some(w)
    ensures Chunks(rest, 76) == Some(w') && w == Wrapped([c] + w'.cuts, w'.tail)
    ensures val == c + rest && CutOk(c, wrap == 66)
    ensures c == "" ==> wrap == 66 && Find(val, ',', 64) < 0 && rest == val
    ensures val[|val| - 1] != ',' ==> rest != [] && rest[|rest| - 1] == val[|val| - 1]
  {
    var idx := Find(val, ',', wrap - 2);
    ChunksStep(val, wrap, idx);
    c, rest := CutText(val, wrap, idx);
    w' := Chunks(rest, 76).value;
  }

  /** The text side of one cut: the value split right after the ',' found. */
  lemma CutText(val: string, wrap: nat, idx: int) returns (c: string, rest: string)
    requires wrap == 66 || wrap == 76
    requires |val| > wrap && idx == Find(val, ',', wrap - 2) && (idx < 0 ==> wrap == 66)
    ensures -1 <= idx < |val| && c == val[..idx + 1] && rest == val[idx + 1..]
    ensures val == c + rest && CutOk(c, wrap == 66)
    ensures c == "" ==> wrap == 66 && Find(val, ',', 64) < 0 && rest == val
    ensures val[|val| - 1] != ',' ==> rest != [] && rest[|rest| - 1] == val[|val| - 1]
  {
    CutHead(val, wrap, idx);
    c, rest := val[..idx + 1], val[idx + 1..];
    LastAfterCut(val, idx + 1, rest);
    SliceJoin(val, idx + 1);
    EmptyCut(val, wrap, idx, c, rest);
  }

  lemma EmptyCut(val: string, wrap: nat, idx: int, c: string, rest: string)
    requires wrap == 66 || wrap == 76
    requires idx == Find(val, ',', wrap - 2) && (idx < 0 ==> wrap == 66)
    requires c == val[..idx + 1] && rest == val[idx + 1..]
    ensures c == "" ==> wrap == 66 && Find(val, ',', 64) < 0 && rest == val
  {
    if c == "" {
      assert idx == -1;
    }
  }

  lemma SliceJoin(s: string, n: nat)
    requires n <= |s|
    ensures s[..n] + s[n..] == s
  {
  }

  lemma ChunksStep(val: string, wrap: nat, idx: int)
    requires wrap == 66 || wrap == 76
    requires |val| > wrap && Chunks(val, wrap).Some? && idx == Find(val, ',', wrap - 2)
    ensures -1 <= idx < |val| && (idx < 0 ==> wrap == 66)
    ensures Chunks(val[idx + 1..], 76).Some?
    ensures Chunks(val, wrap).value
         == Wrapped([val[..idx + 1]] + Chunks(val[idx + 1..], 76).value.cuts, Chunks(val[idx + 1..], 76).value.tail)
  {
  }

  /** Cutting after a ',' keeps the last character of a value that does not
      end in ','. */
  lemma LastAfterCut(val: string, n: nat, rest: string)
    requires val != [] && n <= |val| && (n > 0 ==> val[n - 1] == ',')
    requires rest == val[n..]
    ensures val[|val| - 1] != ',' ==> rest != [] && rest[|rest| - 1] == val[|val| - 1]
  {
  }

  /** The cuts and the final chunk put back together are the value. */
  lemma {:induction false} ChunksRebuild(val: string, wrap: nat, w: Wrapped)
    requires wrap == 66 || wrap == 76
    requires Chunks(val, wrap) == Some(w)
    ensures Concat(w.cuts) + w.tail == val
    decreases |val|, if wrap == 66 then 1 else 0
  {
    if |val| > wrap {
      var c, rest, w' := Cut(val, wrap, w);
      ChunksRebuild(rest, 76, w');
      ConcatCons(c, w'.cuts);
      AppendAssoc(c, Concat(w'.cuts), w'.tail);
    }
  }

  lemma ConcatCons(c: string, cuts: seq<string>)
    ensures Concat([c] + cuts) == c + Concat(cuts)
  {
    assert ([c] + cuts)[1..] == cuts;
  }

  /** Where a cut may end: right after the first ',' at or after index 64 of
      the text still to print for the first cut, 74 for later ones. Only the
      first cut may be empty. */
  predicate CutOk(c: string, first: bool)
  {
    var from := if first then 64 else 74;
    || (first && c == "")
    || (&& |c| > from && c[|c| - 1] == ','
        && forall j :: from <= j < |c| - 1 ==> c[j] != ',')
  }

  /** `CutOk` for every cut, the first one under the first-cut rule when `first`. */
  predicate CutsOk(cuts: seq<string>, first: bool)
  {
    cuts == [] || (CutOk(cuts[0], first) && CutsOk(cuts[1..], false))
  }

  /** Each cut ends at the first ',' past the width's limit. */
  lemma {:induction false} ChunksCuts(val: string, wrap: nat, w: Wrapped)
    requires wrap == 66 || wrap == 76
    requires Chunks(val, wrap) == Some(w)
    ensures CutsOk(w.cuts, wrap == 66)
    decreases |val|, if wrap == 66 then 1 else 0
  {
    if |val| > wrap {
      var c, rest, w' := Cut(val, wrap, w);
      ChunksCuts(rest, 76, w');
      CutsCons(c, w'.cuts, wrap == 66);
    }
  }

  lemma CutsCons(c: string, cuts: seq<string>, first: bool)
    requires CutOk(c, first) && CutsOk(cuts, false)
    ensures CutsOk([c] + cuts, first)
  {
    assert ([c] + cuts)[1..] == cuts;
  }

  /** `CutsOk` cut by cut. */
  lemma {:induction false} CutsOkAt(cuts: seq<string>, first: bool, i: nat)
    requires CutsOk(cuts, first) && i < |cuts|
    ensures CutOk(cuts[i], i == 0 && first)
  {
    if i > 0 {
      CutsOkAt(cuts[1..], false, i - 1);
    }
  }

  /** The first cut is empty only when the value has no ',' at or after
      index 64, and the final chunk fits the width in force when it is printed. */
  lemma {:induction false} ChunksLimits(val: string, wrap: nat, w: Wrapped)
    requires wrap == 66 || wrap == 76
    requires Chunks(val, wrap) == Some(w)
    ensures w.cuts != [] && w.cuts[0] == "" ==> wrap == 66 && Find(val, ',', 64) < 0
    ensures |w.tail| <= (if w.cuts == [] then wrap else 76)
    decreases |val|, if wrap == 66 then 1 else 0
  {
    if |val| > wrap {
      var c, rest, w' := Cut(val, wrap, w);
      ChunksLimits(rest, 76, w');
    }
  }

  lemma CutHead(val: string, wrap: nat, idx: int)
    requires wrap == 66 || wrap == 76
    requires |val| > wrap && idx == Find(val, ',', wrap - 2) && (idx < 0 ==> wrap == 66)
    ensures CutOk(val[..idx + 1], wrap == 66)
  {
    FindMeans(val, ',', wrap - 2);
    if idx >= 0 {
      var c := val[..idx + 1];
      assert forall j :: wrap - 2 <= j < |c| - 1 ==> c[j] == val[j];
    }
  }

  /** A value longer than 76 characters with no ',' at or after index 64
      makes `output_elem` loop forever. */
  lemma Diverges(val: string)
    requires |val| > 76 && Find(val, ',', 64) < 0
    ensures !Terminates(val)
  {
    FindNoneLater(val, ',', 64, 74);
    KeepsLooping(val);
    assert val[Find(val, ',', 64) + 1..] == val;
  }

  /** At width 76, a remainder too long with no ',' after index 74 is never cut. */
  lemma KeepsLooping(val: string)
    requires |val| > 76 && Find(val, ',', 74) < 0
    ensures Chunks(val, 76).None?
  {
  }

  /** An empty value prints nothing, not even a line end; a value not ending
      in ',' ends with a non-empty final chunk. */
  lemma ChunksTail(val: string, wrap: nat, w: Wrapped)
    requires wrap == 66 || wrap == 76
    requires Chunks(val, wrap) == Some(w)
    ensures val == [] ==> w == Wrapped([], "")
    ensures val != [] && val[|val| - 1] != ',' ==> w.tail != [] && w.tail[|w.tail| - 1] == val[|val| - 1]
  {
    ChunksRebuild(val, wrap, w);
    if val != [] && val[|val| - 1] != ',' {
      TailFilled(val, wrap, w);
      assert val[|val| - 1] == (Concat(w.cuts) + w.tail)[|val| - 1];
    }
  }

  /** A value that does not end in ',' leaves a non-empty final chunk. */
  lemma {:induction false} TailFilled(val: string, wrap: nat, w: Wrapped)
    requires wrap == 66 || wrap == 76
    requires Chunks(val, wrap) == Some(w)
    requires val != [] && val[|val| - 1] != ','
    ensures w.tail != []
    decreases |val|, if wrap == 66 then 1 else 0
  {
    if |val| > wrap {
      var c, rest, w' := Cut(val, wrap, w);
      TailFilled(rest, 76, w');
    }
  }

  /** Whether every value under `es` can be written (see `Terminates`). */
  predicate Writable(es: seq<Entry>)
    decreases es
  {
    es == [] ||
    (&& (match es[0].node case Leaf(v) => Terminates(v) case Branch(c) => Writable(c))
     && Writable(es[1..]))
  }

  /** The text `output_regsub(es, f, pre)` prints: a branch as a blank line
      and `[pre\key]` followed by its own entries, a leaf as `"key"=` followed
      by its value, all in insertion order. */
  function EntriesText(es: seq<Entry>, pre: string): string
    requires Writable(es)
    decreases es
  {
    if es == [] then ""
    else
      (match es[0].node
       case Branch(c) => "\n[" + pre + "\\" + es[0].key + "]\n" + EntriesText(c, pre + "\\" + es[0].key)
       case Leaf(v) => "\"" + es[0].key + "\"=" + ElemText(v))
      + EntriesText(es[1..], pre)
  }

  /** The text one entry prints. */
  function EntryText(e: Entry, pre: string): string
    requires Writable([e])
  {
    assert [e][0] == e && [e][1..] == [];
    match e.node
    case Branch(c) => "\n[" + pre + "\\" + e.key + "]\n" + EntriesText(c, pre + "\\" + e.key)
    case Leaf(v) => "\"" + e.key + "\"=" + ElemText(v)
  }

  lemma AppendAssoc(a: string, b: string, c: string)
    ensures (a + b) + c == a + (b + c)
  {
  }

  lemma WritableOne(e: Entry)
    requires Writable([e])
    ensures match e.node case Leaf(v) => Terminates(v) case Branch(c) => Writable(c)
  {
    assert [e][0] == e;
  }

  lemma EntriesTextAt(es: seq<Entry>, i: nat, pre: string)
    requires i < |es| && Writable(es[i..])
    ensures Writable([es[i]]) && Writable(es[i + 1..])
    ensures EntriesText(es[i..], pre) == EntryText(es[i], pre) + EntriesText(es[i + 1..], pre)
  {
    assert es[i..][0] == es[i] && es[i..][1..] == es[i + 1..];
    assert [es[i]][0] == es[i] && [es[i]][1..] == [];
  }

  /** `output_regsub` as the source writes it: a loop over the keys that
      recurses into each dictionary. */
  method OutputRegsub(es: seq<Entry>, pre: string) returns (out: string)
    requires Writable(es)
    ensures out == EntriesText(es, pre)
    decreases es
  {
    out := "";
    var i := 0;
    while i < |es|
      invariant 0 <= i <= |es|
      invariant Writable(es[i..])
      invariant out + EntriesText(es[i..], pre) == EntriesText(es, pre)
      decreases |es| - i
    {
      var e := es[i];
      EntriesTextAt(es, i, pre);
      WritableOne(e);
      var chunk: string;
      match e.node {
        case Branch(c) =>
          chunk := "\n[" + pre + "\\" + e.key + "]\n";
          var sub := OutputRegsub(c, pre + "\\" + e.key);
          chunk := chunk + sub;
        case Leaf(v) =>
          chunk := "\"" + e.key + "\"=";
          var t := OutputElem(v);
          chunk := chunk + t;
      }
      assert chunk == EntryText(e, pre);
      AppendAssoc(out, chunk, EntriesText(es[i + 1..], pre));
      out := out + chunk;
      i := i + 1;
    }
    assert es[i..] == [];
  }

  /** The text `output_reg(regd, fnm, header)` writes: the header and a blank
      line when there is a header, `[\]`, the entries, and a final blank line. */
  function RegText(root: Node, header: string): string
    requires root.Branch? && Writable(root.entries)
  {
    (if header != "" then header + "\n" + "\n" else "") + "[\\]\n" + EntriesText(root.entries, "\\") + "\n"
  }

  method OutputReg(root: Node, header: string) returns (out: string)
    requires root.Branch? && Writable(root.entries)
    ensures out == RegText(root, header)
  {
    out := "";
    if header != "" {
      out := out + header + "\n" + "\n";
    }
    out := out + "[\\]\n";
    var body := OutputRegsub(root.entries, "\\");
    out := out + body + "\n";
  }
}

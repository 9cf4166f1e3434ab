/** What the writer's output looks like line by line, and when reading it
    back gives the same tree and header. */
module RegRoundTrip {
  import opened Text
  import opened RegTree
  import opened RegParse
  import opened RegWrite

  // ---------------------------------------------------------------------
  // Line layout

  /** The lines a value is printed on after `"key"=`: each cut followed by a
      backslash, then the final chunk. */
  function Pieces(cuts: seq<string>, tail: string): (r: seq<string>)
    ensures |r| == |cuts| + 1
  {
    if cuts == [] then [tail] else [cuts[0] + "\\"] + Pieces(cuts[1..], tail)
  }

  function Indent(ps: seq<string>): (r: seq<string>)
    ensures |r| == |ps|
  {
    if ps == [] then [] else ["  " + ps[0]] + Indent(ps[1..])
  }

  /** The lines `"key"=` and `output_elem(v)` print. */
  function LeafLines(k: string, v: string): seq<string>
    requires Terminates(v)
  {
    var w := Chunks(v, 66).value;
    var ps := Pieces(w.cuts, w.tail);
    ["\"" + k + "\"=" + ps[0]] + Indent(ps[1..])
  }

  /** The lines `output_regsub(es, f, pre)` prints. */
  function EntriesLines(es: seq<Entry>, pre: string): seq<string>
    requires Writable(es)
    decreases es
  {
    if es == [] then []
    else
      (match es[0].node
       case Branch(c) => ["", "[" + pre + "\\" + es[0].key + "]"] + EntriesLines(c, pre + "\\" + es[0].key)
       case Leaf(v) => LeafLines(es[0].key, v))
      + EntriesLines(es[1..], pre)
  }

  /** The lines `output_reg` writes. */
  function RegLines(root: Node, header: string): seq<string>
    requires root.Branch? && Writable(root.entries)
  {
    (if header != "" then [header, ""] else []) + ["[\\]"] + EntriesLines(root.entries, "\\") + [""]
  }

  /** Every value under `es` can be written and ends in a non-empty final
      chunk, so that its text ends with a line end. */
  predicate Printable(es: seq<Entry>)
    decreases es
  {
    es == [] ||
    (&& (match es[0].node
         case Leaf(v) => Terminates(v) && v != [] && v[|v| - 1] != ','
         case Branch(c) => Printable(c))
     && Printable(es[1..]))
  }

  lemma {:induction false} PrintableWritable(es: seq<Entry>)
    requires Printable(es)
    ensures Writable(es)
    decreases es
  {
    if es != [] {
      match es[0].node {
        case Leaf(_) =>
        case Branch(c) => PrintableWritable(c);
      }
      PrintableWritable(es[1..]);
    }
  }

  lemma {:induction false} WrapLines(cuts: seq<string>, tail: string)
    requires tail != []
    ensures var ps := Pieces(cuts, tail);
      WrapText(cuts, tail) == ps[0] + "\n" + Unlines(Indent(ps[1..]))
    decreases |cuts|
  {
    if cuts != [] {
      WrapLines(cuts[1..], tail);
      WrapStep(cuts, tail, Pieces(cuts[1..], tail));
    } else {
      assert Pieces(cuts, tail) == [tail];
    }
  }

  lemma WrapStep(cuts: seq<string>, tail: string, q: seq<string>)
    requires cuts != [] && tail != [] && q == Pieces(cuts[1..], tail)
    requires WrapText(cuts[1..], tail) == q[0] + "\n" + Unlines(Indent(q[1..]))
    ensures var ps := Pieces(cuts, tail);
      WrapText(cuts, tail) == ps[0] + "\n" + Unlines(Indent(ps[1..]))
  {
    var ps := Pieces(cuts, tail);
    assert ps[0] == cuts[0] + "\\" && ps[1..] == q;
    var u := Unlines(Indent(q[1..]));
    assert Unlines(Indent(q)) == "  " + q[0] + "\n" + u;
    calc {
      WrapText(cuts, tail);
      cuts[0] + "\\\n  " + (q[0] + "\n" + u);
      cuts[0] + "\\" + "\n" + ("  " + q[0] + "\n" + u);
    }
  }

  lemma LeafTextLines(k: string, v: string)
    requires Terminates(v) && v != [] && v[|v| - 1] != ','
    ensures "\"" + k + "\"=" + ElemText(v) == Unlines(LeafLines(k, v))
  {
    var w := Chunks(v, 66).value;
    ChunksTail(v, 66, w);
    WrapLines(w.cuts, w.tail);
  }

  /** The text `output_regsub` prints is the layout `EntriesLines`: for each
      branch a blank line and its bracket line before its own entries, for
      each leaf its key line and continuation lines. */
  lemma {:induction false} EntriesTextLines(es: seq<Entry>, pre: string)
    requires Printable(es)
    ensures Writable(es) && EntriesText(es, pre) == Unlines(EntriesLines(es, pre))
    decreases es
  {
    PrintableWritable(es);
    if es != [] {
      EntriesTextLines(es[1..], pre);
      match es[0].node
      case Leaf(v) =>
        LeafEntryText(es, pre, v);
      case Branch(c) =>
        EntriesTextLines(c, pre + "\\" + es[0].key);
        BranchEntryText(es, pre, c);
    }
  }

  lemma LeafEntryText(es: seq<Entry>, pre: string, v: string)
    requires es != [] && es[0].node == Leaf(v) && Printable(es) && Writable(es)
    requires EntriesText(es[1..], pre) == Unlines(EntriesLines(es[1..], pre))
    ensures EntriesText(es, pre) == Unlines(EntriesLines(es, pre))
  {
    var rest := EntriesLines(es[1..], pre);
    LeafTextLines(es[0].key, v);
    UnlinesAppend(LeafLines(es[0].key, v), rest);
    assert EntriesLines(es, pre) == LeafLines(es[0].key, v) + rest;
  }

  lemma BranchLinesUnfold(es: seq<Entry>, pre: string, c: seq<Entry>)
    requires es != [] && es[0].node == Branch(c) && Writable(es)
    ensures EntriesLines(es, pre)
         == ["", "[" + pre + "\\" + es[0].key + "]"] + EntriesLines(c, pre + "\\" + es[0].key) + EntriesLines(es[1..], pre)
  {
  }

  lemma BranchTextUnfold(es: seq<Entry>, pre: string, c: seq<Entry>)
    requires es != [] && es[0].node == Branch(c) && Writable(es)
    ensures EntriesText(es, pre)
         == "\n[" + pre + "\\" + es[0].key + "]\n" + EntriesText(c, pre + "\\" + es[0].key) + EntriesText(es[1..], pre)
  {
  }

  lemma BranchEntryText(es: seq<Entry>, pre: string, c: seq<Entry>)
    requires es != [] && es[0].node == Branch(c) && Writable(es)
    requires EntriesText(es[1..], pre) == Unlines(EntriesLines(es[1..], pre))
    requires EntriesText(c, pre + "\\" + es[0].key) == Unlines(EntriesLines(c, pre + "\\" + es[0].key))
    ensures EntriesText(es, pre) == Unlines(EntriesLines(es, pre))
  {
    var q := pre + "\\" + es[0].key;
    var head := ["", "[" + pre + "\\" + es[0].key + "]"];
    var inner, rest := EntriesLines(c, q), EntriesLines(es[1..], pre);
    BranchLinesUnfold(es, pre, c);
    BranchTextUnfold(es, pre, c);
    UnlinesAppend(head, inner);
    UnlinesAppend(head + inner, rest);
    BracketText(pre, es[0].key);
  }

  /** The text of a blank line and a bracket line. */
  lemma BracketText(pre: string, k: string)
    ensures Unlines(["", "[" + pre + "\\" + k + "]"]) == "\n[" + pre + "\\" + k + "]\n"
  {
    var b := "[" + pre + "\\" + k + "]";
    assert ["", b][1..] == [b] && [b][1..] == [];
    assert Unlines([b]) == b + "\n" + Unlines([]);
    assert Unlines(["", b]) == "" + "\n" + Unlines([b]);
  }

  /** `output_reg` writes the header and a blank line when there is a header,
      then `[\]`, the entries depth-first in insertion order, and a blank line. */
  lemma RegTextLines(root: Node, header: string)
    requires root.Branch? && Printable(root.entries)
    ensures Writable(root.entries) && RegText(root, header) == Unlines(RegLines(root, header))
  {
    EntriesTextLines(root.entries, "\\");
    var top := (if header != "" then [header, ""] else []) + ["[\\]"];
    var body := EntriesLines(root.entries, "\\");
    UnlinesAppend(top, body);
    UnlinesAppend(top + body, [""]);
    TopText(header);
  }

  // ---------------------------------------------------------------------
  // Well-formed trees

  predicate LeafKeyOk(k: string)
  {
    k != "" && '"' !in k && '=' !in k && '\n' !in k && '\r' !in k
  }

  predicate BranchKeyOk(k: string)
  {
    k != "" && '\\' !in k && '\n' !in k && '\r' !in k
  }

  predicate ValueOk(v: string)
  {
    && v != [] && '=' !in v && '\n' !in v && '\r' !in v
    && v[|v| - 1] != '\\' && v[|v| - 1] != ','
    && Terminates(v)
  }

  /** Leaves come before sub-branches: a leaf printed after a sub-branch
      would be read into that sub-branch (see `LeafAfterBranchMoves`). */
  predicate LeavesFirst(es: seq<Entry>)
  {
    forall i, j :: 0 <= i < j < |es| && es[j].node.Leaf? ==> es[i].node.Leaf?
  }

  /** The trees the writer's output reads back as they were. */
  predicate WellFormed(es: seq<Entry>)
    decreases es
  {
    es == [] ||
    (&& Get(es[1..], es[0].key).None?
     && (es[0].node.Branch? ==> forall i :: 0 <= i < |es[1..]| ==> es[1..][i].node.Branch?)
     && (match es[0].node
         case Leaf(v) => LeafKeyOk(es[0].key) && ValueOk(v)
         case Branch(c) => BranchKeyOk(es[0].key) && WellFormed(c))
     && WellFormed(es[1..]))
  }

  lemma {:induction false} WellFormedPrintable(es: seq<Entry>)
    requires WellFormed(es)
    ensures Printable(es)
    decreases es
  {
    if es != [] {
      match es[0].node {
        case Leaf(_) =>
        case Branch(c) => WellFormedPrintable(c);
      }
      WellFormedPrintable(es[1..]);
    }
  }

  /** `WellFormed` spelled out entry by entry. */
  lemma {:induction false} WellFormedMeans(es: seq<Entry>)
    requires WellFormed(es)
    ensures UniqueKeys(es) && LeavesFirst(es)
    decreases es
  {
    if es != [] {
      WellFormedMeans(es[1..]);
      forall i, j | 0 <= i < j < |es| ensures es[i].key != es[j].key {
        if i == 0 {
          assert es[1..][j - 1] == es[j];
        } else {
          assert es[1..][i - 1] == es[i] && es[1..][j - 1] == es[j];
        }
      }
      forall i, j | 0 <= i < j < |es| && es[j].node.Leaf? ensures es[i].node.Leaf? {
        assert es[1..][j - 1] == es[j];
        if i > 0 {
          assert es[1..][i - 1] == es[i];
        }
      }
    }
  }

  predicate HasLeaf(es: seq<Entry>)
  {
    exists i :: 0 <= i < |es| && es[i].node.Leaf?
  }

  predicate NoLeaf(es: seq<Entry>)
  {
    forall i :: 0 <= i < |es| ==> es[i].node.Branch?
  }

  predicate PathOk(p: seq<string>)
  {
    forall i :: 0 <= i < |p| ==> BranchKeyOk(p[i])
  }

  /** The `pre` argument `output_regsub` is given for the branch at `p`. */
  function PathPrefix(p: seq<string>): string
  {
    if p == [] then "\\" else PathPrefix(p[..|p| - 1]) + "\\" + p[|p| - 1]
  }

  lemma {:induction false} PathPrefixJoin(p: seq<string>)
    requires p != []
    ensures PathPrefix(p) == Backslashes(2) + Join(p, '\\')
    decreases |p|
  {
    var q := p[..|p| - 1];
    if q == [] {
      assert p == [p[0]];
    } else {
      PathPrefixJoin(q);
      JoinSnoc(q, p[|p| - 1], '\\');
      assert q + [p[|p| - 1]] == p;
    }
  }

  // ---------------------------------------------------------------------
  // Reading the layout back

  function Undo(ps: seq<string>): string
    requires forall i :: 0 <= i < |ps| ==> ps[i] != []
  {
    if ps == [] then "" else DropBackslash(ps[0]) + Undo(ps[1..])
  }

  lemma {:induction false} UndoPieces(cuts: seq<string>, tail: string)
    requires tail != [] && tail[|tail| - 1] != '\\'
    ensures var ps := Pieces(cuts, tail);
      (forall i :: 0 <= i < |ps| ==> ps[i] != []) && Undo(ps) == Concat(cuts) + tail
    decreases |cuts|
  {
    var ps := Pieces(cuts, tail);
    PiecesNonEmpty(cuts, tail);
    if cuts == [] {
      assert ps == [tail];
      assert Undo(ps) == DropBackslash(tail) + Undo([]);
    } else {
      var c := cuts[0];
      var more := Pieces(cuts[1..], tail);
      UndoPieces(cuts[1..], tail);
      assert ps[0] == c + "\\" && ps[1..] == more;
      calc {
        Undo(ps);
        DropBackslash(c + "\\") + Undo(more);
        { assert DropBackslash(c + "\\") == c; }
        c + (Concat(cuts[1..]) + tail);
        (c + Concat(cuts[1..])) + tail;
        Concat(cuts) + tail;
      }
    }
  }

  lemma {:induction false} PiecesNonEmpty(cuts: seq<string>, tail: string)
    requires tail != []
    ensures forall i :: 0 <= i < |Pieces(cuts, tail)| ==> Pieces(cuts, tail)[i] != []
    decreases |cuts|
  {
    if cuts != [] {
      var ps := Pieces(cuts, tail);
      var more := Pieces(cuts[1..], tail);
      PiecesNonEmpty(cuts[1..], tail);
      assert ps == [cuts[0] + "\\"] + more;
      forall i | 0 <= i < |ps| ensures ps[i] != [] {
        if i > 0 {
          assert ps[i] == more[i - 1];
        }
      }
    }
  }

  /** Every piece is made of characters of the value, plus a backslash. */
  lemma {:induction false} PiecesChars(cuts: seq<string>, tail: string, ch: char)
    requires ch != '\\' && ch !in Concat(cuts) && ch !in tail
    ensures forall i :: 0 <= i < |Pieces(cuts, tail)| ==> ch !in Pieces(cuts, tail)[i]
    decreases |cuts|
  {
    if cuts != [] {
      assert Concat(cuts) == cuts[0] + Concat(cuts[1..]);
      PiecesChars(cuts[1..], tail, ch);
      var ps := Pieces(cuts, tail);
      assert ps[1..] == Pieces(cuts[1..], tail);
      forall i | 0 <= i < |ps| ensures ch !in ps[i] {
        if i > 0 {
          assert ps[i] == ps[1..][i - 1];
        }
      }
    }
  }

  /** Continuation lines append their pieces to the current leaf. */
  lemma {:induction false} ContinuationLines(s: ParseState, r0: Node, p: seq<string>, es: seq<Entry>, k: string, acc: string, ps: seq<string>)
    requires s.key == Some(p) && s.elem == Some(k) && k != ""
    requires Resolve(r0, p) == Some(Branch(es))
    requires s.root == ReplaceAt(r0, p, Branch(Put(es, k, Leaf(acc))))
    requires forall i :: 0 <= i < |ps| ==> ps[i] != []
    ensures Run(s, Indent(ps)) == Ok(s.(root := ReplaceAt(r0, p, Branch(Put(es, k, Leaf(acc + Undo(ps)))))))
    decreases |ps|
  {
    if ps != [] {
      var s', acc' := ContinuationRound(s, r0, p, es, k, acc, ps);
      ContinuationLines(s', r0, p, es, k, acc', ps[1..]);
    } else {
      NoContinuation(s, r0, p, es, k, acc);
    }
  }

  lemma NoContinuation(s: ParseState, r0: Node, p: seq<string>, es: seq<Entry>, k: string, acc: string)
    requires s.root == ReplaceAt(r0, p, Branch(Put(es, k, Leaf(acc))))
    ensures Run(s, Indent([])) == Ok(s.(root := ReplaceAt(r0, p, Branch(Put(es, k, Leaf(acc + Undo([])))))))
  {
    assert acc + Undo([]) == acc;
  }

  /** One indented line: the state it leads to and what is left to add. */
  lemma ContinuationRound(s: ParseState, r0: Node, p: seq<string>, es: seq<Entry>, k: string, acc: string, ps: seq<string>)
      returns (s': ParseState, acc': string)
    requires s.key == Some(p) && s.elem == Some(k) && k != ""
    requires Resolve(r0, p) == Some(Branch(es))
    requires s.root == ReplaceAt(r0, p, Branch(Put(es, k, Leaf(acc))))
    requires ps != [] && forall i :: 0 <= i < |ps| ==> ps[i] != []
    ensures forall i :: 0 <= i < |ps[1..]| ==> ps[1..][i] != []
    ensures s'.key == Some(p) && s'.elem == Some(k)
    ensures s'.root == ReplaceAt(r0, p, Branch(Put(es, k, Leaf(acc'))))
    ensures acc' + Undo(ps[1..]) == acc + Undo(ps)
    ensures s'.(root := ReplaceAt(r0, p, Branch(Put(es, k, Leaf(acc + Undo(ps)))))) == s.(root := ReplaceAt(r0, p, Branch(Put(es, k, Leaf(acc + Undo(ps))))))
    ensures Run(s, Indent(ps)) == Run(s', Indent(ps[1..]))
  {
    acc' := acc + DropBackslash(ps[0]);
    s' := s.(root := ReplaceAt(r0, p, Branch(Put(es, k, Leaf(acc')))));
    ContinuationStep(s, r0, p, es, k, acc, ps[0]);
    NonEmptyTail(ps);
    UndoCons(acc, ps);
    assert Indent(ps) == ["  " + ps[0]] + Indent(ps[1..]);
    RunCons(s, "  " + ps[0], Indent(ps[1..]));
  }

  lemma NonEmptyTail(ps: seq<string>)
    requires ps != [] && forall i :: 0 <= i < |ps| ==> ps[i] != []
    ensures forall i :: 0 <= i < |ps[1..]| ==> ps[1..][i] != []
  {
    forall i | 0 <= i < |ps[1..]| ensures ps[1..][i] != [] {
      assert ps[1..][i] == ps[i + 1];
    }
  }

  lemma UndoCons(acc: string, ps: seq<string>)
    requires ps != [] && forall i :: 0 <= i < |ps| ==> ps[i] != []
    ensures acc + DropBackslash(ps[0]) + Undo(ps[1..]) == acc + Undo(ps)
  {
    assert Undo(ps) == DropBackslash(ps[0]) + Undo(ps[1..]);
    AppendAssoc(acc, DropBackslash(ps[0]), Undo(ps[1..]));
  }

  lemma RunCons(s: ParseState, ln: string, rest: seq<string>)
    requires Step(s, ln).Ok?
    ensures Run(s, [ln] + rest) == Run(Step(s, ln).value, rest)
  {
    assert ([ln] + rest)[0] == ln && ([ln] + rest)[1..] == rest;
  }

  lemma ContinuationStep(s: ParseState, r0: Node, p: seq<string>, es: seq<Entry>, k: string, acc: string, piece: string)
    requires s.key == Some(p) && s.elem == Some(k) && k != ""
    requires Resolve(r0, p) == Some(Branch(es))
    requires s.root == ReplaceAt(r0, p, Branch(Put(es, k, Leaf(acc))))
    requires piece != []
    ensures Step(s, "  " + piece) == Ok(s.(root := ReplaceAt(r0, p, Branch(Put(es, k, Leaf(acc + DropBackslash(piece)))))))
  {
    var cur := Branch(Put(es, k, Leaf(acc)));
    var acc' := acc + DropBackslash(piece);
    ResolveReplace(r0, p, cur);
    ContinuationLine(s, p, Put(es, k, Leaf(acc)), k, acc, piece);
    PutTwice(es, k, Leaf(acc), Leaf(acc'));
    ReplaceTwice(r0, p, cur, Branch(Put(es, k, Leaf(acc'))));
  }

  /** The lines of one leaf set that leaf in the current branch. */
  lemma LeafParse(s: ParseState, p: seq<string>, es: seq<Entry>, k: string, v: string)
    requires s.key == Some(p) && Resolve(s.root, p) == Some(Branch(es))
    requires LeafKeyOk(k) && ValueOk(v)
    ensures Run(s, LeafLines(k, v)) == Ok(s.(root := ReplaceAt(s.root, p, Branch(Put(es, k, Leaf(v)))), elem := Some(k)))
  {
    var ps := LeafPieces(k, v);
    var first := DropBackslash(ps[0]);
    LeafLine(s, p, es, k, ps[0]);
    var s1 := s.(root := ReplaceAt(s.root, p, Branch(Put(es, k, Leaf(first)))), elem := Some(k));
    ContinuationLines(s1, s.root, p, es, k, first, ps[1..]);
    RunAppend(s, ["\"" + k + "\"=" + ps[0]], Indent(ps[1..]));
    PutTwice(es, k, Leaf(first), Leaf(v));
  }

  /** The pieces a leaf value is printed in: none is empty or holds `=`,
      and dropping their trailing backslashes gives the value back. */
  lemma LeafPieces(k: string, v: string) returns (ps: seq<string>)
    requires ValueOk(v)
    ensures ps != [] && forall i :: 0 <= i < |ps| ==> ps[i] != [] && '=' !in ps[i]
    ensures LeafLines(k, v) == ["\"" + k + "\"=" + ps[0]] + Indent(ps[1..])
    ensures DropBackslash(ps[0]) + Undo(ps[1..]) == v
  {
    var w := Chunks(v, 66).value;
    ps := Pieces(w.cuts, w.tail);
    ChunksRebuild(v, 66, w);
    ChunksTail(v, 66, w);
    UndoPieces(w.cuts, w.tail);
    PiecesChars(w.cuts, w.tail, '=');
  }

  lemma {:induction false} WellFormedTail(es: seq<Entry>)
    requires WellFormed(es) && es != []
    ensures WellFormed(es[1..])
    ensures es[0].node.Branch? ==> NoLeaf(es[1..])
    ensures HasLeaf(es[1..]) ==> es[0].node.Leaf?
  {
  }

  /** Reading the lines of the entries `es` of the branch at `p`, whose
      entries so far are `done`, appends `es` to that branch and touches
      nothing else. */
  lemma {:induction false} ParseEntries(s: ParseState, p: seq<string>, done: seq<Entry>, es: seq<Entry>)
    requires WellFormed(es) && PathOk(p)
    requires Resolve(s.root, p) == Some(Branch(done))
    requires forall i :: 0 <= i < |es| ==> Get(done, es[i].key).None?
    requires HasLeaf(es) ==> s.key == Some(p)
    requires Attached(s)
    ensures Writable(es)
    ensures var r := Run(s, EntriesLines(es, PathPrefix(p)));
      && r.Ok?
      && r.value.root == ReplaceAt(s.root, p, Branch(done + es))
      && r.value.header == s.header
      && Attached(r.value)
    decreases es, 1
  {
    WellFormedPrintable(es);
    PrintableWritable(es);
    if es == [] {
      assert done + es == done;
      ReplaceSame(s.root, p);
    } else {
      WellFormedTail(es);
      FreshRest(done, es);
      match es[0].node {
        case Leaf(v) =>
          assert es[0].node.Leaf?;
          ParseLeafEntry(s, p, done, es, v);
        case Branch(c) =>
          assert !HasLeaf(es[1..]) by {
            WellFormedTail(es);
          }
          ParseBranchEntry(s, p, done, es, c);
      }
    }
  }

  /** `ParseEntries` when the first entry is a leaf. */
  lemma {:induction false} ParseLeafEntry(s: ParseState, p: seq<string>, done: seq<Entry>, es: seq<Entry>, v: string)
    requires es != [] && es[0].node == Leaf(v)
    requires WellFormed(es[1..]) && Writable(es) && PathOk(p)
    requires Resolve(s.root, p) == Some(Branch(done))
    requires Get(done, es[0].key).None?
    requires forall i :: 0 <= i < |es[1..]| ==> Get(done + [es[0]], es[1..][i].key).None?
    requires s.key == Some(p) && Attached(s)
    requires LeafKeyOk(es[0].key) && ValueOk(v)
    ensures var r := Run(s, EntriesLines(es, PathPrefix(p)));
      && r.Ok?
      && r.value.root == ReplaceAt(s.root, p, Branch(done + es))
      && r.value.header == s.header
      && Attached(r.value)
    decreases es, 0
  {
    var s1, done' := LeafRound(s, p, done, es, v);
    ParseEntries(s1, p, done', es[1..]);
    ReplaceTwice(s.root, p, Branch(done'), Branch(done' + es[1..]));
  }

  /** The lines of the first entry, a leaf: the state after them, and the
      branch at `p` with that leaf added. */
  lemma LeafRound(s: ParseState, p: seq<string>, done: seq<Entry>, es: seq<Entry>, v: string)
      returns (s1: ParseState, done': seq<Entry>)
    requires es != [] && es[0].node == Leaf(v) && Writable(es)
    requires Resolve(s.root, p) == Some(Branch(done))
    requires Get(done, es[0].key).None?
    requires s.key == Some(p) && Attached(s)
    requires LeafKeyOk(es[0].key) && ValueOk(v)
    ensures done' == done + [es[0]] && done' + es[1..] == done + es
    ensures s1 == s.(root := ReplaceAt(s.root, p, Branch(done')), elem := Some(es[0].key))
    ensures Resolve(s1.root, p) == Some(Branch(done')) && Attached(s1) && s1.key == Some(p)
    ensures Run(s, EntriesLines(es, PathPrefix(p))) == Run(s1, EntriesLines(es[1..], PathPrefix(p)))
  {
    var e, pre := es[0], PathPrefix(p);
    done' := done + [e];
    MoveFirst(done, es);
    s1 := s.(root := ReplaceAt(s.root, p, Branch(done')), elem := Some(e.key));
    OneLeaf(s, p, done, e.key, v);
    LeafLinesUnfold(es, pre, v);
    RunAppend(s, LeafLines(e.key, v), EntriesLines(es[1..], pre));
  }

  lemma LeafLinesUnfold(es: seq<Entry>, pre: string, v: string)
    requires es != [] && es[0].node == Leaf(v) && Writable(es)
    ensures EntriesLines(es, pre) == LeafLines(es[0].key, v) + EntriesLines(es[1..], pre)
  {
  }

  /** `ParseEntries` when the first entry is a branch: its bracket line, its
      own entries one level down, then the rest back at `p`. */
  lemma {:induction false} ParseBranchEntry(s: ParseState, p: seq<string>, done: seq<Entry>, es: seq<Entry>, c: seq<Entry>)
    requires es != [] && es[0].node == Branch(c)
    requires WellFormed(es[1..]) && Writable(es) && PathOk(p)
    requires Resolve(s.root, p) == Some(Branch(done))
    requires Get(done, es[0].key).None?
    requires forall i :: 0 <= i < |es[1..]| ==> Get(done + [es[0]], es[1..][i].key).None?
    requires !HasLeaf(es[1..])
    requires BranchKeyOk(es[0].key) && WellFormed(c)
    requires Attached(s)
    ensures var r := Run(s, EntriesLines(es, PathPrefix(p)));
      && r.Ok?
      && r.value.root == ReplaceAt(s.root, p, Branch(done + es))
      && r.value.header == s.header
      && Attached(r.value)
    decreases es, 0
  {
    var e, rest := es[0], es[1..];
    var done' := done + [e];
    MoveFirst(done, es);
    var s2 := OpenInner(s, p, done, e.key, c);
    BranchRound(s, p, es, c, s2);
    ParseEntries(s2, p, done', rest);
    ReplaceTwice(s.root, p, Branch(done'), Branch(done' + rest));
  }

  lemma MoveFirst(done: seq<Entry>, es: seq<Entry>)
    requires es != []
    ensures (done + [es[0]]) + es[1..] == done + es
  {
    assert es == [es[0]] + es[1..];
  }

  /** Once the lines of the first entry, a branch, lead to `s2`, the lines
      of the whole run continue from `s2` with the rest. */
  lemma BranchRound(s: ParseState, p: seq<string>, es: seq<Entry>, c: seq<Entry>, s2: ParseState)
    requires es != [] && es[0].node == Branch(c) && Writable(es)
    requires Run(s, ["", "[" + PathPrefix(p) + "\\" + es[0].key + "]"] + EntriesLines(c, PathPrefix(p) + "\\" + es[0].key)) == Ok(s2)
    ensures Run(s, EntriesLines(es, PathPrefix(p))) == Run(s2, EntriesLines(es[1..], PathPrefix(p)))
  {
    var pre := PathPrefix(p);
    var head := ["", "[" + pre + "\\" + es[0].key + "]"] + EntriesLines(c, pre + "\\" + es[0].key);
    BranchLinesUnfold(es, pre, c);
    RunAppend(s, head, EntriesLines(es[1..], pre));
  }

  /** A bracket line opening the new sub-branch `k` of the branch at `p`,
      then the lines of its entries `c`: the branch at `p` gains `k` holding
      `c`. */
  lemma {:induction false} OpenInner(s: ParseState, p: seq<string>, done: seq<Entry>, k: string, c: seq<Entry>)
    returns (s2: ParseState)
    requires PathOk(p) && BranchKeyOk(k) && WellFormed(c)
    requires Resolve(s.root, p) == Some(Branch(done)) && Get(done, k).None?
    requires Attached(s)
    ensures Writable(c)
    ensures Run(s, ["", "[" + PathPrefix(p) + "\\" + k + "]"] + EntriesLines(c, PathPrefix(p) + "\\" + k)) == Ok(s2)
    ensures s2.root == ReplaceAt(s.root, p, Branch(done + [Entry(k, Branch(c))]))
    ensures Resolve(s2.root, p) == Some(Branch(done + [Entry(k, Branch(c))]))
    ensures s2.header == s.header && Attached(s2)
    decreases c, 2
  {
    var q, pre := p + [k], PathPrefix(p);
    var opening := ["", "[" + pre + "\\" + k + "]"];
    var added := done + [Entry(k, Branch([]))];
    var s1 := s.(root := ReplaceAt(s.root, p, Branch(added)), key := Some(q), elem := None);
    OpenBranch(s, p, done, k);
    ParseEntries(s1, q, [], c);
    assert [] + c == c;
    s2 := Run(s1, EntriesLines(c, PathPrefix(q))).value;
    CloseBranch(s.root, p, done, k, c);
    RunThen(s, opening, EntriesLines(c, PathPrefix(q)), s1, s2);
  }

  lemma FreshRest(done: seq<Entry>, es: seq<Entry>)
    requires WellFormed(es) && es != []
    requires forall i :: 0 <= i < |es| ==> Get(done, es[i].key).None?
    ensures Get(done, es[0].key).None?
    ensures forall i :: 0 <= i < |es[1..]| ==> Get(done + [es[0]], es[1..][i].key).None?
  {
    var rest := es[1..];
    forall i | 0 <= i < |rest| ensures Get(done + [es[0]], rest[i].key).None? {
      assert rest[i] == es[i + 1];
      assert rest[i].key != es[0].key;
      GetSnoc(done, es[0], rest[i].key);
    }
  }

  /** The lines of a leaf with a new key append it to the current branch. */
  lemma OneLeaf(s: ParseState, p: seq<string>, done: seq<Entry>, k: string, v: string)
    requires s.key == Some(p) && Resolve(s.root, p) == Some(Branch(done))
    requires LeafKeyOk(k) && ValueOk(v) && Get(done, k).None?
    requires Attached(s)
    ensures var s1 := s.(root := ReplaceAt(s.root, p, Branch(done + [Entry(k, Leaf(v))])), elem := Some(k));
      && Run(s, LeafLines(k, v)) == Ok(s1)
      && Resolve(s1.root, p) == Some(Branch(done + [Entry(k, Leaf(v))]))
      && Attached(s1)
  {
    LeafParse(s, p, done, k, v);
    ResolveReplace(s.root, p, Branch(done + [Entry(k, Leaf(v))]));
  }

  /** A blank line and the bracket line of a new sub-branch append an empty
      dictionary to the current branch and make it current. */
  lemma OpenBranch(s: ParseState, p: seq<string>, done: seq<Entry>, k: string)
    requires PathOk(p) && BranchKeyOk(k)
    requires Resolve(s.root, p) == Some(Branch(done)) && Get(done, k).None?
    requires Attached(s)
    ensures var q := p + [k];
      var s1 := s.(root := ReplaceAt(s.root, p, Branch(done + [Entry(k, Branch([]))])), key := Some(q), elem := None);
      && Run(s, ["", "[" + PathPrefix(p) + "\\" + k + "]"]) == Ok(s1)
      && PathOk(q) && PathPrefix(q) == PathPrefix(p) + "\\" + k
      && Resolve(s1.root, q) == Some(Branch([]))
      && Attached(s1)
  {
    var q := p + [k];
    var added := done + [Entry(k, Branch([]))];
    var r1 := ReplaceAt(s.root, p, Branch(added));
    var s0 := s.(key := None, elem := None);
    var bracket := "[" + PathPrefix(p) + "\\" + k + "]";
    BlankLine(s);
    OpenPath(p, k);
    BracketLine(s0, 2, q);
    AddToDictChild(s.root, p, done, k);
    assert Step(s0, bracket) == Ok(s0.(root := r1, key := Some(q)));
    RunCons(s, "", [bracket]);
    RunCons(s0, bracket, []);
    ResolveNewChild(s.root, p, done, k);
  }

  lemma ResolveNewChild(root: Node, p: seq<string>, done: seq<Entry>, k: string)
    requires Resolve(root, p) == Some(Branch(done)) && Get(done, k).None?
    ensures Resolve(ReplaceAt(root, p, Branch(done + [Entry(k, Branch([]))])), p + [k]) == Some(Branch([]))
  {
    var added := done + [Entry(k, Branch([]))];
    var r1 := ReplaceAt(root, p, Branch(added));
    ResolveReplace(root, p, Branch(added));
    ResolveSplit(r1, p, [k]);
    assert added == Put(done, k, Branch([]));
    assert Resolve(Branch(added), [k]) == Some(Branch([])) by {
      assert [k][0] == k && [k][1..] == [];
    }
  }

  lemma OpenPath(p: seq<string>, k: string)
    requires PathOk(p) && BranchKeyOk(k)
    ensures var q := p + [k];
      && PathOk(q) && PathPrefix(q) == PathPrefix(p) + "\\" + k
      && "[" + PathPrefix(p) + "\\" + k + "]" == "[" + Backslashes(2) + Join(q, '\\') + "]"
      && q != [] && q[0] != [] && q[0][0] != '\\'
      && forall i :: 0 <= i < |q| ==> '\\' !in q[i]
  {
    var q := p + [k];
    assert q[..|q| - 1] == p;
    assert PathOk(q);
    PathPrefixJoin(q);
    var pre := PathPrefix(p);
    assert PathPrefix(q) == pre + "\\" + k;
    calc {
      "[" + pre + "\\" + k + "]";
      "[" + (pre + "\\" + k) + "]";
      "[" + (Backslashes(2) + Join(q, '\\')) + "]";
      "[" + Backslashes(2) + Join(q, '\\') + "]";
    }
  }

  /** Filling the new sub-branch is appending the filled one. */
  lemma CloseBranch(root: Node, p: seq<string>, done: seq<Entry>, k: string, c: seq<Entry>)
    requires Resolve(root, p) == Some(Branch(done)) && Get(done, k).None?
    ensures var added := done + [Entry(k, Branch([]))];
      var r := ReplaceAt(ReplaceAt(root, p, Branch(added)), p + [k], Branch(c));
      && r == ReplaceAt(root, p, Branch(done + [Entry(k, Branch(c))]))
      && Resolve(r, p) == Some(Branch(done + [Entry(k, Branch(c))]))
  {
    var added := done + [Entry(k, Branch([]))];
    var r1 := ReplaceAt(root, p, Branch(added));
    ResolveReplace(root, p, Branch(added));
    assert added == Put(done, k, Branch([]));
    ReplaceChild(r1, p, added, k, Branch(c));
    PutLast(done, k, Branch([]), Branch(c));
    ReplaceTwice(root, p, Branch(added), Branch(done + [Entry(k, Branch(c))]));
    ResolveReplace(root, p, Branch(done + [Entry(k, Branch(c))]));
  }

  lemma {:induction false} ReplaceSame(n: Node, p: seq<string>)
    requires Resolve(n, p).Some?
    ensures ReplaceAt(n, p, Resolve(n, p).value) == n
    decreases |p|
  {
    if p != [] {
      var es := n.entries;
      var c := Get(es, p[0]).value;
      ReplaceSame(c, p[1..]);
      PutSame(es, p[0], c);
    }
  }

  lemma GetSnoc(es: seq<Entry>, e: Entry, k: string)
    requires Get(es, k).None? && e.key != k
    ensures Get(es + [e], k).None?
  {
    var t := es + [e];
    assert forall i :: 0 <= i < |es| ==> t[i] == es[i];
  }

  // ---------------------------------------------------------------------
  // The round trip

  /** A tree and header the writer's output reads back unchanged: the root
      holds no leaves (they would be read while no branch is current), no
      key, value or header holds a line end (`\n` or `\r`, see `SplitLinesCr`),
      and the header is one line that does not look like a bracket line. */
  predicate Dumpable(root: Node, header: string)
  {
    && root.Branch? && WellFormed(root.entries) && NoLeaf(root.entries)
    && (header == "" || ('\n' !in header && '\r' !in header && header[0] != '['))
  }

  /** Reading back the text `output_reg` writes gives the tree and the header
      it was written from, both as the writer prints it and as it lands in
      the file with `\r\n` line ends. */
  lemma RoundTrip(root: Node, header: string)
    requires Dumpable(root, header)
    ensures Writable(root.entries)
    ensures ParseDump(SplitLines(RegText(root, header))) == Ok((root, header))
    ensures ParseDump(SplitLines(Crlf(RegText(root, header)))) == Ok((root, header))
  {
    WellFormedPrintable(root.entries);
    RegTextLines(root, header);
    var lines := RegLines(root, header);
    LinesNoNewline(root, header);
    SplitUnlines(lines, "");
    assert Unlines(lines) + "" == Unlines(lines);
    assert lines + [] == lines;
    SplitCrlfUnlines(lines);
    ParseLines(root, header);
  }

  lemma TopText(header: string)
    ensures var top := (if header != "" then [header, ""] else []) + ["[\\]"];
      Unlines(top) == (if header != "" then header + "\n" + "\n" else "") + "[\\]\n"
  {
    var last := ["[\\]"];
    assert Unlines(last) == "[\\]\n";
    if header != "" {
      UnlinesAppend([header, ""], last);
      assert Unlines([header, ""]) == header + "\n" + "\n" by {
        assert [header, ""][1..] == [""];
      }
    } else {
      assert [] + last == last;
    }
  }

  lemma TopParse(header: string)
    requires header == "" || ('\n' !in header && header[0] != '[')
    ensures Run(Start, (if header != "" then [header, ""] else []) + ["[\\]"]) == Ok(Start.(header := header))
  {
    var last := ["[\\]"];
    assert Step(Start.(header := header), "[\\]") == Ok(Start.(header := header)) by {
      assert "[\\]"[1..2] == "\\";
    }
    if header != "" {
      var s0 := Start.(header := header);
      assert [header, ""] + last == [header] + ([""] + (last + []));
      assert Step(Start, header) == Ok(s0);
      RunCons(Start, header, [""] + (last + []));
      assert Step(s0, "") == Ok(s0);
      RunCons(s0, "", last + []);
      RunCons(s0, "[\\]", []);
    } else {
      assert [] + last == last;
    }
  }

  lemma ParseLines(root: Node, header: string)
    requires Dumpable(root, header)
    ensures Writable(root.entries)
    ensures ParseDump(RegLines(root, header)) == Ok((root, header))
  {
    WellFormedPrintable(root.entries);
    PrintableWritable(root.entries);
    var es := root.entries;
    var top := (if header != "" then [header, ""] else []) + ["[\\]"];
    var s0 := Start.(header := header);
    TopParse(header);
    assert PathOk([]);
    assert !HasLeaf(es);
    ParseEntries(s0, [], [], es);
    var body := EntriesLines(es, PathPrefix([]));
    var s1 := Run(s0, body).value;
    assert [] + es == es;
    assert s1.root == root;
    RunAppend(Start, top, body);
    RunAppend(Start, top + body, [""]);
  }

  // ---------------------------------------------------------------------
  // No line of the layout holds a line end

  lemma LinesNoNewline(root: Node, header: string)
    requires Dumpable(root, header)
    ensures Writable(root.entries) && NoNewline(RegLines(root, header))
  {
    WellFormedPrintable(root.entries);
    PrintableWritable(root.entries);
    EntriesNoNewline(root.entries, []);
    var body := EntriesLines(root.entries, "\\");
    var top := (if header != "" then [header, ""] else []) + ["[\\]"];
    assert NoNewline(top) by {
      if header != "" {
        assert top == [header, "", "[\\]"];
      }
    }
    assert NoNewline([""]);
    NoNewlineAppend(top, body);
    NoNewlineAppend(top + body, [""]);
  }

  lemma {:induction false} EntriesNoNewline(es: seq<Entry>, p: seq<string>)
    requires WellFormed(es) && PathOk(p)
    ensures Writable(es) && NoNewline(EntriesLines(es, PathPrefix(p)))
    decreases es
  {
    WellFormedPrintable(es);
    PrintableWritable(es);
    if es != [] {
      WellFormedTail(es);
      var e := es[0];
      var pre := PathPrefix(p);
      PathPrefixNoNewline(p);
      EntriesNoNewline(es[1..], p);
      var more := EntriesLines(es[1..], pre);
      var head: seq<string>;
      match e.node {
        case Leaf(v) =>
          head := LeafLines(e.key, v);
          LeafLinesNoNewline(e.key, v);
        case Branch(c) =>
          var q := p + [e.key];
          assert q[..|q| - 1] == p;
          assert PathOk(q);
          EntriesNoNewline(c, q);
          head := ["", "[" + pre + "\\" + e.key + "]"] + EntriesLines(c, PathPrefix(q));
          BracketNoNewline(pre, e.key, EntriesLines(c, PathPrefix(q)));
      }
      assert EntriesLines(es, pre) == head + more;
      NoNewlineAppend(head, more);
    }
  }

  lemma BracketNoNewline(pre: string, k: string, inner: seq<string>)
    requires '\n' !in pre && '\r' !in pre && BranchKeyOk(k) && NoNewline(inner)
    ensures NoNewline(["", "[" + pre + "\\" + k + "]"] + inner)
  {
    var b := "[" + pre + "\\" + k + "]";
    assert '\n' !in b && '\r' !in b;
    assert NoNewline(["", b]);
    NoNewlineAppend(["", b], inner);
  }

  lemma NoNewlineAppend(a: seq<string>, b: seq<string>)
    requires NoNewline(a) && NoNewline(b)
    ensures NoNewline(a + b)
  {
    forall i | 0 <= i < |a + b| ensures '\n' !in (a + b)[i] && '\r' !in (a + b)[i] {
      if i >= |a| {
        assert (a + b)[i] == b[i - |a|];
      }
    }
  }

  lemma {:induction false} PathPrefixNoNewline(p: seq<string>)
    requires PathOk(p)
    ensures '\n' !in PathPrefix(p) && '\r' !in PathPrefix(p)
    decreases |p|
  {
    if p != [] {
      var q := p[..|p| - 1];
      assert PathOk(q) by {
        forall i | 0 <= i < |q| ensures BranchKeyOk(q[i]) {
          assert q[i] == p[i];
        }
      }
      PathPrefixNoNewline(q);
    }
  }

  lemma LeafLinesNoNewline(k: string, v: string)
    requires LeafKeyOk(k) && ValueOk(v)
    ensures NoNewline(LeafLines(k, v))
  {
    var w := Chunks(v, 66).value;
    var ps := Pieces(w.cuts, w.tail);
    ChunksRebuild(v, 66, w);
    PiecesChars(w.cuts, w.tail, '\n');
    PiecesChars(w.cuts, w.tail, '\r');
    assert NoNewline(ps[1..]) by {
      forall i | 0 <= i < |ps[1..]| ensures '\n' !in ps[1..][i] && '\r' !in ps[1..][i] {
        assert ps[1..][i] == ps[i + 1];
      }
    }
    IndentNoNewline(ps[1..]);
    NoNewlineAppend(["\"" + k + "\"=" + ps[0]], Indent(ps[1..]));
  }

  lemma {:induction false} IndentNoNewline(ps: seq<string>)
    requires NoNewline(ps)
    ensures NoNewline(Indent(ps))
    decreases |ps|
  {
    if ps != [] {
      assert NoNewline(ps[1..]) by {
        forall i | 0 <= i < |ps[1..]| ensures '\n' !in ps[1..][i] && '\r' !in ps[1..][i] {
          assert ps[1..][i] == ps[i + 1];
        }
      }
      IndentNoNewline(ps[1..]);
      NoNewlineAppend(["  " + ps[0]], Indent(ps[1..]));
    }
  }

  // ---------------------------------------------------------------------
  // Trees that do not read back

  /** A leaf written after a sub-branch is read into that sub-branch: the
      reader has no line that returns to the enclosing branch. Hence
      `LeavesFirst` in `WellFormed`. */
  lemma LeafAfterBranchMoves(a: string, b: string, j: string, v: string)
    requires BranchKeyOk(a) && BranchKeyOk(b) && LeafKeyOk(j) && ValueOk(v)
    ensures var root := Branch([Entry(a, Branch([Entry(b, Branch([])), Entry(j, Leaf(v))]))]);
      && Writable(root.entries)
      && ParseDump(RegLines(root, "")) == Ok((Branch([Entry(a, Branch([Entry(b, Branch([Entry(j, Leaf(v))]))]))]), ""))
  {
    var opening := NestedOpening(a, b);
    NestedLines(a, b, j, v);
    OpenTwo(a, b);
    var s2 := Start.(root := Branch([Entry(a, Branch([Entry(b, Branch([]))]))]), key := Some([a, b]));
    var leaf := [Entry(j, Leaf(v))];
    OneLeaf(s2, [a, b], [], j, v);
    var s3 := s2.(root := ReplaceAt(s2.root, [a, b], Branch([] + leaf)), elem := Some(j));
    BlankLine(s3);
    RunCons(s3, "", []);
    RunAppend(Start, opening, LeafLines(j, v));
    RunAppend(Start, opening + LeafLines(j, v), [""]);
    NestedReplace(a, b, leaf);
  }

  /** The lines written before the value in `LeafAfterBranchMoves`. */
  function NestedOpening(a: string, b: string): seq<string>
  {
    ["[\\]", "", "[" + PathPrefix([]) + "\\" + a + "]", "", "[" + PathPrefix([a]) + "\\" + b + "]"]
  }

  lemma NestedLines(a: string, b: string, j: string, v: string)
    requires BranchKeyOk(a) && BranchKeyOk(b) && LeafKeyOk(j) && ValueOk(v)
    ensures var root := Branch([Entry(a, Branch([Entry(b, Branch([])), Entry(j, Leaf(v))]))]);
      && Writable(root.entries)
      && RegLines(root, "") == NestedOpening(a, b) + LeafLines(j, v) + [""]
  {
    var inner := [Entry(b, Branch([])), Entry(j, Leaf(v))];
    var pa := PathPrefix([]) + "\\" + a;
    assert pa == PathPrefix([a]) by {
      assert [a][..0] == [] && [a][0] == a;
    }
    var il := NestedInnerLines(b, j, v, pa);
    var rl := NestedRootLines(a, inner);
    var root := Branch([Entry(a, Branch(inner))]);
    assert RegLines(root, "") == ["[\\]"] + (["", "[" + PathPrefix([]) + "\\" + a + "]"] + il) + [""];
    assert NestedOpening(a, b) == ["[\\]"] + ["", "[" + PathPrefix([]) + "\\" + a + "]"] + ["", "[" + pa + "\\" + b + "]"];
  }

  /** The lines of the dictionary `a` holds in `NestedLines`. */
  lemma NestedInnerLines(b: string, j: string, v: string, pa: string) returns (il: seq<string>)
    requires BranchKeyOk(b) && LeafKeyOk(j) && ValueOk(v)
    ensures var inner := [Entry(b, Branch([])), Entry(j, Leaf(v))];
      && Printable(inner) && Writable(inner)
      && il == EntriesLines(inner, pa)
      && il == ["", "[" + pa + "\\" + b + "]"] + LeafLines(j, v)
  {
    var leaf := [Entry(j, Leaf(v))];
    var inner := [Entry(b, Branch([]))] + leaf;
    assert inner == [Entry(b, Branch([])), Entry(j, Leaf(v))];
    assert inner[1..] == leaf && leaf[1..] == [];
    assert Printable(leaf);
    assert Printable(inner);
    PrintableWritable(inner);
    assert EntriesLines(leaf, pa) == LeafLines(j, v) + [];
    il := EntriesLines(inner, pa);
  }

  /** The lines of a root holding the one dictionary `a`. */
  lemma NestedRootLines(a: string, inner: seq<Entry>) returns (rl: seq<string>)
    requires Printable(inner) && Writable(inner)
    ensures var es := [Entry(a, Branch(inner))];
      && Writable(es)
      && rl == EntriesLines(es, "\\")
      && rl == ["", "[" + PathPrefix([]) + "\\" + a + "]"] + EntriesLines(inner, PathPrefix([]) + "\\" + a)
  {
    var es := [Entry(a, Branch(inner))];
    assert es[0].node == Branch(inner) && es[1..] == [];
    assert Printable(es[1..]);
    PrintableWritable(es);
    assert PathPrefix([]) == "\\";
    rl := EntriesLines(es, "\\");
    assert EntriesLines(es[1..], "\\") == [];
    assert rl == ["", "[" + "\\" + "\\" + a + "]"] + EntriesLines(inner, "\\" + "\\" + a) + [];
  }

  lemma OpenFirst(a: string)
    requires BranchKeyOk(a)
    ensures var s1 := Start.(root := Branch([Entry(a, Branch([]))]), key := Some([a]));
      && Run(Start, ["[\\]", "", "[" + PathPrefix([]) + "\\" + a + "]"]) == Ok(s1)
      && Resolve(s1.root, [a]) == Some(Branch([])) && Attached(s1)
  {
    var top, open := ["[\\]"], ["", "[" + PathPrefix([]) + "\\" + a + "]"];
    var s1 := Start.(root := Branch([Entry(a, Branch([]))]), key := Some([a]));
    TopRun();
    OpenFirstBranch(a);
    RunThen(Start, top, open, Start, s1);
    assert top + open == ["[\\]", "", "[" + PathPrefix([]) + "\\" + a + "]"];
  }

  /** The root line alone leaves the start state as it was. */
  lemma TopRun()
    ensures Run(Start, ["[\\]"]) == Ok(Start)
  {
    TopParse("");
    assert [] + ["[\\]"] == ["[\\]"];
  }

  /** The first sub-branch of the root, opened from the start state. */
  lemma OpenFirstBranch(a: string)
    requires BranchKeyOk(a)
    ensures var s1 := Start.(root := Branch([Entry(a, Branch([]))]), key := Some([a]));
      && Run(Start, ["", "[" + PathPrefix([]) + "\\" + a + "]"]) == Ok(s1)
      && Resolve(s1.root, [a]) == Some(Branch([])) && Attached(s1)
  {
    assert PathOk([]) && Attached(Start);
    OpenBranch(Start, [], [], a);
    assert [] + [Entry(a, Branch([]))] == [Entry(a, Branch([]))];
  }

  /** Running two blocks of lines one after the other. */
  lemma RunThen(s: ParseState, a: seq<string>, b: seq<string>, t: ParseState, u: ParseState)
    requires Run(s, a) == Ok(t) && Run(t, b) == Ok(u)
    ensures Run(s, a + b) == Ok(u)
  {
    RunAppend(s, a, b);
  }

  lemma OpenTwo(a: string, b: string)
    requires BranchKeyOk(a) && BranchKeyOk(b)
    ensures var s2 := Start.(root := Branch([Entry(a, Branch([Entry(b, Branch([]))]))]), key := Some([a, b]));
      && Run(Start, NestedOpening(a, b)) == Ok(s2)
      && Resolve(s2.root, [a, b]) == Some(Branch([])) && Attached(s2)
  {
    OpenFirst(a);
    OpenSecond(a, b);
    var s1 := Start.(root := Branch([Entry(a, Branch([]))]), key := Some([a]));
    var s2 := Start.(root := Branch([Entry(a, Branch([Entry(b, Branch([]))]))]), key := Some([a, b]));
    var l0 := ["[\\]", "", "[" + PathPrefix([]) + "\\" + a + "]"];
    var l1 := ["", "[" + PathPrefix([a]) + "\\" + b + "]"];
    RunThen(Start, l0, l1, s1, s2);
    assert NestedOpening(a, b) == l0 + l1;
  }

  /** The second bracket line of `NestedOpening`, once the first is open. */
  lemma OpenSecond(a: string, b: string)
    requires BranchKeyOk(a) && BranchKeyOk(b)
    ensures var s1 := Start.(root := Branch([Entry(a, Branch([]))]), key := Some([a]));
      var s2 := Start.(root := Branch([Entry(a, Branch([Entry(b, Branch([]))]))]), key := Some([a, b]));
      && Run(s1, ["", "[" + PathPrefix([a]) + "\\" + b + "]"]) == Ok(s2)
      && Resolve(s2.root, [a, b]) == Some(Branch([])) && Attached(s2)
  {
    var s1 := Start.(root := Branch([Entry(a, Branch([]))]), key := Some([a]));
    assert PathOk([a]) && Attached(s1);
    assert Resolve(s1.root, [a]) == Some(Branch([])) by {
      IndexOfFirst([Entry(a, Branch([]))], a, 0);
    }
    OpenBranch(s1, [a], [], b);
    assert [] + [Entry(b, Branch([]))] == [Entry(b, Branch([]))] && [a] + [b] == [a, b];
    assert ReplaceAt(s1.root, [a], Branch([Entry(b, Branch([]))])) == Branch([Entry(a, Branch([Entry(b, Branch([]))]))]) by {
      assert [a][1..] == [];
      IndexOfFirst([Entry(a, Branch([]))], a, 0);
    }
  }

  lemma NestedReplace(a: string, b: string, leaf: seq<Entry>)
    ensures ReplaceAt(Branch([Entry(a, Branch([Entry(b, Branch([]))]))]), [a, b], Branch([] + leaf))
         == Branch([Entry(a, Branch([Entry(b, Branch(leaf))]))])
  {
    var m := Branch([] + leaf);
    var t := [Entry(b, Branch([]))];
    var top := [Entry(a, Branch(t))];
    IndexOfFirst(t, b, 0);
    IndexOfFirst(top, a, 0);
    assert [a, b][0] == a && [a, b][1..] == [b] && [b][0] == b && [b][1..] == [];
    assert [] + leaf == leaf;
    assert ReplaceAt(Branch([]), [], m) == m;
    assert ReplaceAt(Branch(t), [b], m) == Branch(Put(t, b, m));
    assert Put(t, b, m) == [Entry(b, m)];
    assert ReplaceAt(Branch(top), [a, b], m) == Branch(Put(top, a, Branch([Entry(b, m)])));
    assert Put(top, a, Branch([Entry(b, m)])) == [Entry(a, Branch([Entry(b, m)]))];
  }

  /** A value directly under the root is not read back: no branch is current
      after `[\]`, so its first line becomes the header when there is none,
      and the root stays empty. Hence `NoLeaf` in `Dumpable`. */
  lemma RootLeafBecomesHeader(k: string, v: string)
    requires LeafKeyOk(k) && ValueOk(v)
    ensures Writable([Entry(k, Leaf(v))])
    ensures ParseDump(RegLines(Branch([Entry(k, Leaf(v))]), "")) == Ok((Branch([]), LeafLines(k, v)[0]))
  {
    var root := Branch([Entry(k, Leaf(v))]);
    assert Printable(root.entries);
    PrintableWritable(root.entries);
    var body := LeafLines(k, v) + [""];
    assert RegLines(root, "") == ["[\\]"] + body by {
      assert root.entries[1..] == [];
      assert EntriesLines(root.entries, "\\") == LeafLines(k, v) + [];
    }
    LeafLinesNoBracket(k, v);
    assert NoBracketLine(body) by {
      forall i | 0 <= i < |body| ensures body[i] == [] || body[i][0] != '[' {
        if i < |LeafLines(k, v)| {
          assert body[i] == LeafLines(k, v)[i];
        }
      }
    }
    HeaderLines(Start, body);
    assert Step(Start, "[\\]") == Ok(Start) by {
      assert "[\\]"[1..2] == "\\";
    }
    RunCons(Start, "[\\]", body);
    assert FirstNonBlank(body) == LeafLines(k, v)[0];
  }

  lemma LeafLinesNoBracket(k: string, v: string)
    requires Terminates(v)
    ensures forall i :: 0 <= i < |LeafLines(k, v)| ==> LeafLines(k, v)[i] != [] && LeafLines(k, v)[i][0] != '['
  {
    var w := Chunks(v, 66).value;
    var ps := Pieces(w.cuts, w.tail);
    var ls := LeafLines(k, v);
    assert ls == ["\"" + k + "\"=" + ps[0]] + Indent(ps[1..]);
    IndentStartsWithSpace(ps[1..]);
    forall i | 0 <= i < |ls| ensures ls[i] != [] && ls[i][0] != '[' {
      if i > 0 {
        assert ls[i] == Indent(ps[1..])[i - 1];
      }
    }
  }

  lemma {:induction false} IndentStartsWithSpace(ps: seq<string>)
    ensures forall i :: 0 <= i < |Indent(ps)| ==> Indent(ps)[i] != [] && Indent(ps)[i][0] == ' '
    decreases |ps|
  {
    if ps != [] {
      IndentStartsWithSpace(ps[1..]);
      var r := Indent(ps);
      assert r[1..] == Indent(ps[1..]);
      forall i | 0 <= i < |r| ensures r[i] != [] && r[i][0] == ' ' {
        if i > 0 {
          assert r[i] == r[1..][i - 1];
        }
      }
    }
  }
}

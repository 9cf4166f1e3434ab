/** The nested dictionary `reg_to_dict` builds: a key maps either to a nested
    dictionary (a branch) or to a value string (a leaf). Python dictionaries
    keep insertion order and the dump is written in that order, so a
    dictionary is a sequence of entries, not a map. */
module RegTree {
  import opened Text

  datatype Node = Leaf(value: string) | Branch(entries: seq<Entry>)
  datatype Entry = Entry(key: string, node: Node)

  /** Position of key `k`, or -1 when `k` is absent. */
  function IndexOf(es: seq<Entry>, k: string): (r: int)
    ensures -1 <= r < |es|
    ensures r >= 0 ==> es[r].key == k
    ensures r >= 0 ==> forall i :: 0 <= i < r ==> es[i].key != k
    ensures r < 0 ==> forall i :: 0 <= i < |es| ==> es[i].key != k
  {
    if es == [] then -1
    else if es[|es| - 1].key == k && IndexOf(es[..|es| - 1], k) < 0 then |es| - 1
    else IndexOf(es[..|es| - 1], k)
  }

  lemma IndexOfFirst(es: seq<Entry>, k: string, i: int)
    requires 0 <= i < |es| && es[i].key == k
    requires forall m :: 0 <= m < i ==> es[m].key != k
    ensures IndexOf(es, k) == i
  {
  }

  /** `d[k]` (None where Python raises KeyError). */
  function Get(es: seq<Entry>, k: string): (r: Option<Node>)
  {
    var i := IndexOf(es, k);
    if i < 0 then None else Some(es[i].node)
  }

  /** `d[k] = n`: an existing key keeps its position, a new key goes last. */
  function Put(es: seq<Entry>, k: string, n: Node): (r: seq<Entry>)
    ensures Get(r, k) == Some(n)
    ensures forall j :: j != k ==> Get(r, j) == Get(es, j)
    ensures Get(es, k).None? ==> r == es + [Entry(k, n)]
    ensures Get(es, k).Some? ==> |r| == |es| && forall i :: 0 <= i < |es| ==> r[i].key == es[i].key
  {
    var i := IndexOf(es, k);
    if i < 0 then
      var r := es + [Entry(k, n)];
      assert IndexOf(r, k) == |es| by {
        assert forall j :: 0 <= j < |es| ==> r[j] == es[j];
      }
      forall j | j != k ensures Get(r, j) == Get(es, j) {
        assert forall m :: 0 <= m < |es| ==> r[m] == es[m];
        assert r[|es|].key == k;
      }
      r
    else
      var r := es[i := Entry(k, n)];
      assert IndexOf(r, k) == i by {
        forall m | 0 <= m < i ensures r[m].key != k {
          assert r[m] == es[m];
        }
        IndexOfFirst(r, k, i);
      }
      forall j | j != k ensures Get(r, j) == Get(es, j) {
        assert forall m :: 0 <= m < |es| && m != i ==> r[m] == es[m];
      }
      r
  }

  lemma PutSame(es: seq<Entry>, k: string, n: Node)
    requires Get(es, k) == Some(n)
    ensures Put(es, k, n) == es
  {
    var i := IndexOf(es, k);
    assert es[i] == Entry(k, n);
  }

  lemma PutTwice(es: seq<Entry>, k: string, a: Node, b: Node)
    ensures Put(Put(es, k, a), k, b) == Put(es, k, b)
  {
    var i := IndexOf(es, k);
    var once := Put(es, k, a);
    if i < 0 {
      assert IndexOf(once, k) == |es|;
    } else {
      assert IndexOf(once, k) == i;
    }
  }

  /** Every key appears at most once, as in a Python dictionary. */
  predicate UniqueKeys(es: seq<Entry>)
  {
    forall i, j :: 0 <= i < j < |es| ==> es[i].key != es[j].key
  }

  /** The node reached by following `p` from `n`, or None. */
  function Resolve(n: Node, p: seq<string>): Option<Node>
    decreases |p|
  {
    if p == [] then Some(n)
    else match n
      case Leaf(_) => None
      case Branch(es) =>
        match Get(es, p[0])
        case None => None
        case Some(c) => Resolve(c, p[1..])
  }

  /** `n` with the node at path `p` (which must exist) replaced by `m`. */
  function ReplaceAt(n: Node, p: seq<string>, m: Node): Node
    decreases |p|
  {
    if p == [] then m
    else match n
      case Leaf(_) => n
      case Branch(es) =>
        match Get(es, p[0])
        case None => n
        case Some(c) => Branch(Put(es, p[0], ReplaceAt(c, p[1..], m)))
  }

  /** The node `add_to_dict` walks into for key `k`: the existing one, or a
      new empty dictionary. */
  function ChildOf(es: seq<Entry>, k: string): Node
  {
    match Get(es, k) case Some(c) => c case None => Branch([])
  }

  /** Putting the result of the walk below back under key `k`. */
  function Lift(es: seq<Entry>, k: string, r: Result<Node>): Result<Node>
  {
    match r
    case Err(e) => Err(e)
    case Ok(c) => Ok(Branch(Put(es, k, c)))
  }

  /** `add_to_dict`: walk `p` from the root dictionary, creating each missing
      dictionary on the way. The node reached is what the caller writes into;
      the result is the new tree. Walking into a value string raises TypeError. */
  function AddToDict(n: Node, p: seq<string>): Result<Node>
    decreases |p|
  {
    if p == [] then Ok(n)
    else match n
      case Leaf(_) => Err(TypeError)
      case Branch(es) =>
        Lift(es, p[0], AddToDict(ChildOf(es, p[0]), p[1..]))
  }

  predicate IsBranch(r: Option<Node>)
  {
    r.Some? && r.value.Branch?
  }

  predicate IsLeaf(r: Option<Node>)
  {
    r.Some? && r.value.Leaf?
  }

  lemma ResolveSplit(n: Node, p: seq<string>, q: seq<string>)
    ensures Resolve(n, p + q) == (match Resolve(n, p) case None => None case Some(m) => Resolve(m, q))
    decreases |p|
  {
    if p != [] {
      assert (p + q)[0] == p[0];
      assert (p + q)[1..] == p[1..] + q;
      match n
      case Leaf(_) =>
      case Branch(es) =>
        match Get(es, p[0])
        case None =>
        case Some(c) => ResolveSplit(c, p[1..], q);
    } else {
      assert p + q == q;
    }
  }

  /** After `add_to_dict`, every prefix of the path is a dictionary and the
      whole path resolves to the node handed back to the caller. */
  lemma {:induction false} AddToDictCreatesPath(n: Node, p: seq<string>)
    requires AddToDict(n, p).Ok?
    ensures Resolve(AddToDict(n, p).value, p).Some?
    ensures forall i :: 0 <= i < |p| ==> IsBranch(Resolve(AddToDict(n, p).value, p[..i]))
    decreases |p|
  {
    if p != [] {
      var es := n.entries;
      var child := ChildOf(es, p[0]);
      AddToDictCreatesPath(child, p[1..]);
      var n' := AddToDict(n, p).value;
      var c' := AddToDict(child, p[1..]).value;
      assert n' == Branch(Put(es, p[0], c'));
      forall i | 0 <= i < |p| ensures IsBranch(Resolve(n', p[..i])) {
        if i > 0 {
          assert p[..i][0] == p[0];
          assert p[..i][1..] == p[1..][..i - 1];
        }
      }
    }
  }

  /** A path that already exists is walked without changing anything:
      existing dictionaries are reused, never replaced. */
  lemma {:induction false} AddToDictExisting(n: Node, p: seq<string>)
    requires Resolve(n, p).Some?
    ensures AddToDict(n, p) == Ok(n)
    decreases |p|
  {
    if p != [] {
      var es := n.entries;
      var c := Get(es, p[0]).value;
      AddToDictExisting(c, p[1..]);
      PutSame(es, p[0], c);
    }
  }

  /** `add_to_dict` fails exactly when a proper prefix of the path names a
      value string. */
  lemma {:induction false} AddToDictFails(n: Node, p: seq<string>)
    ensures AddToDict(n, p).Err? <==> exists i :: 0 <= i < |p| && IsLeaf(Resolve(n, p[..i]))
    decreases |p|
  {
    if p != [] && n.Branch? {
      var es, k := n.entries, p[0];
      var child := ChildOf(es, k);
      assert p == [k] + p[1..];
      AddStep(n, k, p[1..]);
      AddToDictFails(child, p[1..]);
      if Get(es, k).None? {
        FreshPathSucceeds(p[1..]);
        NoLeafPastMissing(n, p);
      } else {
        LeafShift(n, p);
      }
    } else if p != [] {
      assert p[..0] == [];
    }
  }

  /** Below a missing key nothing resolves, so no prefix names a value. */
  lemma NoLeafPastMissing(n: Node, p: seq<string>)
    requires p != [] && n.Branch? && Get(n.entries, p[0]).None?
    ensures !exists i :: 0 <= i < |p| && IsLeaf(Resolve(n, p[..i]))
  {
    forall i | 0 <= i < |p| ensures !IsLeaf(Resolve(n, p[..i])) {
      if i > 0 {
        assert p[..i][0] == p[0];
      }
    }
  }

  /** A prefix of `p` names a value exactly when a prefix of `p[1..]` does
      below the child at `p[0]`. */
  lemma LeafShift(n: Node, p: seq<string>)
    requires p != [] && n.Branch? && Get(n.entries, p[0]).Some?
    ensures (exists i :: 0 <= i < |p| && IsLeaf(Resolve(n, p[..i])))
        <==> (exists j :: 0 <= j < |p[1..]| && IsLeaf(Resolve(ChildOf(n.entries, p[0]), p[1..][..j])))
  {
    var child := ChildOf(n.entries, p[0]);
    forall i | 1 <= i <= |p| ensures Resolve(n, p[..i]) == Resolve(child, p[1..][..i - 1]) {
      assert p[..i][0] == p[0];
      assert p[..i][1..] == p[1..][..i - 1];
    }
    assert p[..0] == [];
    if exists i :: 0 <= i < |p| && IsLeaf(Resolve(n, p[..i])) {
      var i :| 0 <= i < |p| && IsLeaf(Resolve(n, p[..i]));
      assert IsLeaf(Resolve(child, p[1..][..i - 1]));
    }
    if exists j :: 0 <= j < |p[1..]| && IsLeaf(Resolve(child, p[1..][..j])) {
      var j :| 0 <= j < |p[1..]| && IsLeaf(Resolve(child, p[1..][..j]));
      assert IsLeaf(Resolve(n, p[..j + 1]));
    }
  }

  lemma {:induction false} FreshPathSucceeds(p: seq<string>)
    ensures AddToDict(Branch([]), p).Ok?
    decreases |p|
  {
    if p != [] {
      FreshPathSucceeds(p[1..]);
    }
  }

  /** Every path present before `add_to_dict` is present after it, a value
      string is left as it was, and a dictionary keeps its keys in order. */
  lemma {:induction false} AddToDictKeeps(n: Node, p: seq<string>, q: seq<string>)
    requires AddToDict(n, p).Ok?
    requires Resolve(n, q).Some?
    ensures Resolve(AddToDict(n, p).value, q).Some?
    ensures IsLeaf(Resolve(n, q)) ==> Resolve(AddToDict(n, p).value, q) == Resolve(n, q)
    ensures IsBranch(Resolve(n, q)) ==> KeepsKeys(Resolve(n, q).value.entries, Resolve(AddToDict(n, p).value, q))
    decreases |p|
  {
    var n' := AddToDict(n, p).value;
    if p == [] {
    } else if q == [] {
      var es := n.entries;
      var child := ChildOf(es, p[0]);
      var c' := AddToDict(child, p[1..]).value;
      assert n' == Branch(Put(es, p[0], c'));
    } else {
      var es := n.entries;
      var child := ChildOf(es, p[0]);
      var c' := AddToDict(child, p[1..]).value;
      assert n' == Branch(Put(es, p[0], c'));
      var d := Get(es, q[0]).value;
      if q[0] == p[0] {
        AddToDictKeeps(d, p[1..], q[1..]);
      }
    }
  }

  /** The new entries keep the old keys, in the old order, in front. */
  predicate KeepsKeys(old_: seq<Entry>, r: Option<Node>)
  {
    && r.Some? && r.value.Branch?
    && |old_| <= |r.value.entries|
    && forall i :: 0 <= i < |old_| ==> r.value.entries[i].key == old_[i].key
  }

  /** Every path `add_to_dict` adds is a prefix of the path it walked. */
  lemma {:induction false} AddToDictOnlyAlongPath(n: Node, p: seq<string>, q: seq<string>)
    requires AddToDict(n, p).Ok?
    requires Resolve(AddToDict(n, p).value, q).Some?
    requires Resolve(n, q).None?
    ensures |q| <= |p| && q == p[..|q|]
    decreases |p|
  {
    var n' := AddToDict(n, p).value;
    if p == [] {
    } else {
      var es := n.entries;
      var child := ChildOf(es, p[0]);
      var c' := AddToDict(child, p[1..]).value;
      assert n' == Branch(Put(es, p[0], c'));
      assert q != [];
      if q[0] != p[0] {
        assert false;
      } else if Get(es, p[0]).Some? {
        AddToDictOnlyAlongPath(child, p[1..], q[1..]);
      } else {
        FreshOnlyAlongPath(p[1..], q[1..]);
      }
    }
  }

  lemma {:induction false} FreshOnlyAlongPath(p: seq<string>, q: seq<string>)
    requires AddToDict(Branch([]), p).Ok?
    requires Resolve(AddToDict(Branch([]), p).value, q).Some?
    ensures |q| <= |p| && q == p[..|q|]
    decreases |p|
  {
    if q != [] {
      FreshStep(p, q);
      FreshOnlyAlongPath(p[1..], q[1..]);
      PrefixCons(p, q);
    }
  }

  /** A fresh path holds one key at each level: the next key of `p`. */
  lemma FreshStep(p: seq<string>, q: seq<string>)
    requires q != [] && AddToDict(Branch([]), p).Ok?
    requires Resolve(AddToDict(Branch([]), p).value, q).Some?
    ensures p != [] && q[0] == p[0]
    ensures AddToDict(Branch([]), p[1..]).Ok?
    ensures Resolve(AddToDict(Branch([]), p[1..]).value, q[1..]).Some?
  {
    FreshPathSucceeds(p[1..]);
    var c' := AddToDict(Branch([]), p[1..]).value;
    assert AddToDict(Branch([]), p).value == Branch(Put([], p[0], c'));
    assert Put([], p[0], c') == [Entry(p[0], c')];
  }

  lemma PrefixCons(p: seq<string>, q: seq<string>)
    requires q != [] && p != [] && q[0] == p[0]
    requires |q[1..]| <= |p[1..]| && q[1..] == p[1..][..|q[1..]|]
    ensures |q| <= |p| && q == p[..|q|]
  {
    assert q == [q[0]] + q[1..];
    assert p[..|q|] == [p[0]] + p[1..][..|q| - 1];
  }

  lemma {:induction false} ResolveReplace(n: Node, p: seq<string>, m: Node)
    requires Resolve(n, p).Some?
    ensures Resolve(ReplaceAt(n, p, m), p) == Some(m)
    decreases |p|
  {
    if p != [] {
      var es := n.entries;
      ResolveReplace(Get(es, p[0]).value, p[1..], m);
    }
  }

  lemma {:induction false} ReplaceTwice(n: Node, p: seq<string>, a: Node, b: Node)
    requires Resolve(n, p).Some?
    ensures ReplaceAt(ReplaceAt(n, p, a), p, b) == ReplaceAt(n, p, b)
    decreases |p|
  {
    if p != [] {
      var es := n.entries;
      var c := Get(es, p[0]).value;
      ReplaceTwice(c, p[1..], a, b);
      PutTwice(es, p[0], ReplaceAt(c, p[1..], a), ReplaceAt(ReplaceAt(c, p[1..], a), p[1..], b));
    }
  }

  /** Replacing a child of the branch at `p` is replacing that branch. */
  lemma {:induction false} ReplaceChild(n: Node, p: seq<string>, es: seq<Entry>, k: string, m: Node)
    requires Resolve(n, p) == Some(Branch(es))
    requires Get(es, k).Some?
    ensures ReplaceAt(n, p + [k], m) == ReplaceAt(n, p, Branch(Put(es, k, m)))
    decreases |p|
  {
    if p == [] {
      assert [k][1..] == [];
    } else {
      assert (p + [k])[0] == p[0];
      assert (p + [k])[1..] == p[1..] + [k];
      ReplaceChild(Get(n.entries, p[0]).value, p[1..], es, k, m);
    }
  }

  /** Adding a new key under an existing branch appends an empty dictionary there. */
  lemma {:induction false} AddToDictChild(n: Node, p: seq<string>, es: seq<Entry>, k: string)
    requires Resolve(n, p) == Some(Branch(es))
    requires Get(es, k).None?
    ensures AddToDict(n, p + [k]) == Ok(ReplaceAt(n, p, Branch(es + [Entry(k, Branch([]))])))
    decreases |p|
  {
    if p == [] {
      assert [k][1..] == [];
    } else {
      assert (p + [k])[0] == p[0];
      assert (p + [k])[1..] == p[1..] + [k];
      AddToDictChild(Get(n.entries, p[0]).value, p[1..], es, k);
    }
  }

  /** Walking a prefix first and then the whole path gives the same tree as
      walking the whole path at once. */
  lemma {:induction false} AddToDictPrefix(n: Node, q: seq<string>, r: seq<string>)
    requires AddToDict(n, q).Ok?
    ensures AddToDict(n, q + r) == AddToDict(AddToDict(n, q).value, q + r)
    decreases |q|
  {
    if q == [] {
      assert q + r == r;
    } else {
      var es, k := n.entries, q[0];
      var child := ChildOf(es, k);
      assert q == [k] + q[1..] && q + r == [k] + (q[1..] + r);
      AddStep(n, k, q[1..]);
      var c1 := AddToDict(child, q[1..]).value;
      var n1 := Branch(Put(es, k, c1));
      AddStep(n, k, q[1..] + r);
      AddStep(n1, k, q[1..] + r);
      AddToDictPrefix(child, q[1..], r);
      LiftTwice(es, k, c1, AddToDict(c1, q[1..] + r));
    }
  }

  lemma AddStep(n: Node, k: string, rest: seq<string>)
    requires n.Branch?
    ensures AddToDict(n, [k] + rest) == Lift(n.entries, k, AddToDict(ChildOf(n.entries, k), rest))
  {
    assert ([k] + rest)[0] == k && ([k] + rest)[1..] == rest;
  }

  lemma LiftTwice(es: seq<Entry>, k: string, a: Node, r: Result<Node>)
    ensures ChildOf(Put(es, k, a), k) == a
    ensures Lift(Put(es, k, a), k, r) == Lift(es, k, r)
  {
    if r.Ok? {
      PutTwice(es, k, a, r.value);
    }
  }

  /** `add_to_dict` as the source writes it: a loop down the path that inserts
      an empty dictionary wherever a key is missing. */
  method AddToDictWalk(root: Node, p: seq<string>) returns (r: Result<Node>)
    ensures r == AddToDict(root, p)
  {
    var tree := root;
    var i := 0;
    while i < |p|
      invariant 0 <= i <= |p|
      invariant Walked(root, p, tree, i)
    {
      var node := Resolve(tree, p[..i]).value;
      match node
      case Leaf(_) =>
        WalkIntoValue(root, p, tree, i);
        return Err(TypeError);
      case Branch(es) =>
        if Get(es, p[i]).None? {
          WalkInsert(root, p, tree, i, es);
          tree := ReplaceAt(tree, p[..i], Branch(es + [Entry(p[i], Branch([]))]));
        } else {
          WalkExisting(root, p, tree, i, es);
        }
        i := i + 1;
    }
    WalkDone(root, p, tree);
    return Ok(tree);
  }

  /** The loop invariant of `AddToDictWalk`: the path so far exists in
      `tree`, and adding the whole path to `tree` or to `root` is the same. */
  ghost predicate Walked(root: Node, p: seq<string>, tree: Node, i: nat)
    requires i <= |p|
  {
    Resolve(tree, p[..i]).Some? && AddToDict(root, p) == AddToDict(tree, p)
  }

  lemma WalkDone(root: Node, p: seq<string>, tree: Node)
    requires Walked(root, p, tree, |p|)
    ensures AddToDict(root, p) == Ok(tree)
  {
    assert p[..|p|] == p;
    AddToDictExisting(tree, p);
  }

  lemma WalkIntoValue(root: Node, p: seq<string>, tree: Node, i: nat)
    requires i < |p| && Walked(root, p, tree, i) && IsLeaf(Resolve(tree, p[..i]))
    ensures AddToDict(root, p) == Err(TypeError)
  {
    AddToDictFails(tree, p);
    AddToDictOnlyTypeError(tree, p);
  }

  lemma {:induction false} AddToDictOnlyTypeError(n: Node, p: seq<string>)
    ensures AddToDict(n, p).Err? ==> AddToDict(n, p) == Err(TypeError)
    decreases |p|
  {
    if p != [] && n.Branch? {
      var child := match Get(n.entries, p[0]) { case Some(c) => c case None => Branch([]) };
      AddToDictOnlyTypeError(child, p[1..]);
    }
  }

  lemma WalkExisting(root: Node, p: seq<string>, tree: Node, i: nat, es: seq<Entry>)
    requires i < |p| && Walked(root, p, tree, i)
    requires Resolve(tree, p[..i]) == Some(Branch(es)) && Get(es, p[i]).Some?
    ensures Walked(root, p, tree, i + 1)
  {
    assert p[..i + 1] == p[..i] + [p[i]];
    ResolveSplit(tree, p[..i], [p[i]]);
  }

  lemma WalkInsert(root: Node, p: seq<string>, tree: Node, i: nat, es: seq<Entry>)
    requires i < |p| && Walked(root, p, tree, i)
    requires Resolve(tree, p[..i]) == Some(Branch(es)) && Get(es, p[i]).None?
    ensures Walked(root, p, ReplaceAt(tree, p[..i], Branch(es + [Entry(p[i], Branch([]))])), i + 1)
  {
    var q := p[..i + 1];
    assert q == p[..i] + [p[i]];
    assert q + p[i + 1..] == p;
    AddToDictChild(tree, p[..i], es, p[i]);
    AddToDictPrefix(tree, q, p[i + 1..]);
    AddToDictCreatesPath(tree, q);
  }

  lemma PutLast(es: seq<Entry>, k: string, a: Node, b: Node)
    requires Get(es, k).None?
    ensures Put(es + [Entry(k, a)], k, b) == es + [Entry(k, b)]
  {
    var t := es + [Entry(k, a)];
    IndexOfFirst(t, k, |es|);
  }
}

/** `reg_to_dict`: the line-driven reader of a `reged -x` dump. It keeps the
    header, the current branch and the current leaf name. The current branch
    is the reference `add_to_dict` hands back; here it is the path to that
    node, and every write through it rebuilds the tree along that path. */
module RegParse {
  import opened Text
  import opened RegTree

  /** The reader's variables: `header`, `regdict`, `key` and `elem`. A header
      of None and one of "" are both false to the reader and to `output_reg`,
      so both are "". */
  datatype ParseState = ParseState(header: string, root: Node, key: Option<seq<string>>, elem: Option<string>)

  const Start := ParseState("", Branch([]), None, None)

  /** A write through the current branch: `key[k] = v` or `key[k] += piece`. */
  datatype Edit = Assign(name: string, value: string) | Append(name: string, piece: string)

  /** The write `e` applied to the node at `p`. Item assignment on a value
      string raises TypeError, so does indexing one or adding text to a
      dictionary; adding to a missing key raises KeyError. A path that names
      no node cannot arise from `Start` (see `RunKeepsAttached`). */
  function EditAt(root: Node, p: seq<string>, e: Edit): Result<Node>
  {
    match Resolve(root, p)
    case None => Err(KeyError)
    case Some(Leaf(_)) => Err(TypeError)
    case Some(Branch(es)) =>
      match e
      case Assign(k, v) => Ok(ReplaceAt(root, p, Branch(Put(es, k, Leaf(v)))))
      case Append(k, piece) =>
        match Get(es, k)
        case None => Err(KeyError)
        case Some(Branch(_)) => Err(TypeError)
        case Some(Leaf(v)) => Ok(ReplaceAt(root, p, Branch(Put(es, k, Leaf(v + piece)))))
  }

  /** `v[:-1] if v[-1] == "\\" else v`. */
  function DropBackslash(v: string): (r: string)
    requires v != []
    ensures v[|v| - 1] == '\\' ==> r + "\\" == v
    ensures v[|v| - 1] != '\\' ==> r == v
  {
    if v[|v| - 1] == '\\' then v[..|v| - 1] else v
  }

  /** `while ln[0] == "\\": ln = ln[1:]`, which raises IndexError once the
      text runs out. */
  function StripBackslashes(s: string): Result<string>
  {
    if s == [] then Err(IndexError)
    else if s[0] == '\\' then StripBackslashes(s[1..])
    else Ok(s)
  }

  /** Stripping fails exactly on text made of backslashes only; otherwise it
      removes the leading backslashes and nothing else. */
  lemma {:induction false} StripBackslashesMeans(s: string)
    ensures var r := StripBackslashes(s);
      && (r.Err? <==> forall i :: 0 <= i < |s| ==> s[i] == '\\')
      && (r.Err? ==> r == Err(IndexError))
      && (r.Ok? ==> |r.value| <= |s| && r.value == s[|s| - |r.value|..])
      && (r.Ok? ==> r.value != [] && r.value[0] != '\\')
      && (r.Ok? ==> forall i :: 0 <= i < |s| - |r.value| ==> s[i] == '\\')
  {
    if s != [] && s[0] == '\\' {
      StripBackslashesMeans(s[1..]);
      var r := StripBackslashes(s[1..]);
      if r.Ok? {
        assert s[|s| - |r.value|..] == s[1..][|s| - 1 - |r.value|..];
      } else {
        assert forall i :: 1 <= i < |s| ==> s[i] == s[1..][i - 1];
      }
    }
  }

  /** One iteration of the reader's loop on line `ln` (its newline removed). */
  function Step(s: ParseState, ln: string): Result<ParseState>
  {
    if (ln == [] || ln[0] != '[') && s.key.None? then
      Ok(if s.header == "" then s.(header := ln) else s)
    else if ln == [] then
      Ok(s.(key := None, elem := None))
    else if ln[0] == '[' then
      if ln[|ln| - 1] != ']' then Err(AssertionError)
      else
        var inner := ln[1..|ln| - 1];
        if inner == "\\" then Ok(s)
        else
          match StripBackslashes(inner)
          case Err(e) => Err(e)
          case Ok(name) =>
            var path := Split(name, '\\');
            match AddToDict(s.root, path)
            case Err(e) => Err(e)
            case Ok(root) => Ok(s.(root := root, key := Some(path)))
    else if ln[0] == '"' then
      // the source asserts that a branch is current; it always is here
      assert s.key.Some?;
      var parts := Split(ln, '=');
      if |parts| != 2 then Err(ValueError)
      else if parts[1] == [] then Err(IndexError)
      else
        var k := RemoveAll(parts[0], '"');
        match EditAt(s.root, s.key.value, Assign(k, DropBackslash(parts[1])))
        case Err(e) => Err(e)
        case Ok(root) => Ok(s.(root := root, elem := Some(k)))
    else if StartsWith(ln, "  ") then
      if s.elem.None? || s.elem.value == "" then Err(AssertionError)
      else if |ln| == 2 then Err(IndexError)
      else
        match EditAt(s.root, s.key.value, Append(s.elem.value, DropBackslash(ln[2..])))
        case Err(e) => Err(e)
        case Ok(root) => Ok(s.(root := root))
    else Ok(s)
  }

  /** The reader's loop over `lines`, stopping at the first exception. */
  function Run(s: ParseState, lines: seq<string>): Result<ParseState>
    decreases |lines|
  {
    if lines == [] then Ok(s)
    else
      match Step(s, lines[0])
      case Err(e) => Err(e)
      case Ok(t) => Run(t, lines[1..])
  }

  /** `reg_to_dict` over the lines of a dump: the tree and the header. */
  function ParseDump(lines: seq<string>): Result<(Node, string)>
  {
    match Run(Start, lines)
    case Err(e) => Err(e)
    case Ok(s) => Ok((s.root, s.header))
  }

  /** `reg_to_dict` as the source writes it: one loop over the lines. */
  method RegToDict(lines: seq<string>) returns (r: Result<(Node, string)>)
    ensures r == ParseDump(lines)
  {
    var header := "";
    var regdict := Branch([]);
    var key: Option<seq<string>> := None;
    var elem: Option<string> := None;
    var i := 0;
    while i < |lines|
      invariant 0 <= i <= |lines|
      invariant Run(Start, lines) == Run(ParseState(header, regdict, key, elem), lines[i..])
    {
      StepOfRun(lines, i, ParseState(header, regdict, key, elem));
      var next := ReadLine(ParseState(header, regdict, key, elem), lines[i]);
      if next.Err? {
        return Err(next.fault);
      }
      header, regdict, key, elem := next.value.header, next.value.root, next.value.key, next.value.elem;
      i := i + 1;
    }
    assert lines[i..] == [];
    return Ok((regdict, header));
  }

  /** The body of the reader's loop for one line `ln`; `continue` ends it
      with the reader's variables as they are. */
  method ReadLine(s: ParseState, ln: string) returns (r: Result<ParseState>)
    ensures r == Step(s, ln)
  {
    var header, regdict, key, elem := s.header, s.root, s.key, s.elem;
    if (ln == [] || ln[0] != '[') && key.None? {
      if header == "" {
        header := ln;
      }
      return Ok(ParseState(header, regdict, key, elem));
    }
    if ln == [] {
      key := None;
      elem := None;
      return Ok(ParseState(header, regdict, key, elem));
    }
    if ln[0] == '[' {
      if ln[|ln| - 1] != ']' {
        return Err(AssertionError);
      }
      var inner := ln[1..|ln| - 1];
      if inner == "\\" {
        return Ok(ParseState(header, regdict, key, elem));
      }
      while inner != [] && inner[0] == '\\'
        invariant StripBackslashes(inner) == StripBackslashes(ln[1..|ln| - 1])
      {
        inner := inner[1..];
      }
      if inner == [] {
        return Err(IndexError);
      }
      var path := Split(inner, '\\');
      var added := AddToDictWalk(regdict, path);
      if added.Err? {
        return Err(added.fault);
      }
      regdict := added.value;
      key := Some(path);
      return Ok(ParseState(header, regdict, key, elem));
    }
    if ln[0] == '"' {
      var parts := Split(ln, '=');
      if |parts| != 2 {
        return Err(ValueError);
      }
      var val := parts[1];
      if val == [] {
        return Err(IndexError);
      }
      if val[|val| - 1] == '\\' {
        val := val[..|val| - 1];
      }
      var k := RemoveAll(parts[0], '"');
      var edited := EditAt(regdict, key.value, Assign(k, val));
      if edited.Err? {
        return Err(edited.fault);
      }
      regdict := edited.value;
      elem := Some(k);
      return Ok(ParseState(header, regdict, key, elem));
    }
    if StartsWith(ln, "  ") {
      if elem.None? || elem.value == "" {
        return Err(AssertionError);
      }
      var rest := ln[2..];
      if rest == [] {
        return Err(IndexError);
      }
      if rest[|rest| - 1] == '\\' {
        rest := rest[..|rest| - 1];
      }
      var edited := EditAt(regdict, key.value, Append(elem.value, rest));
      if edited.Err? {
        return Err(edited.fault);
      }
      regdict := edited.value;
    }
    return Ok(ParseState(header, regdict, key, elem));
  }

  /** The reader's state before line `i` determines the rest of the run. */
  lemma StepOfRun(lines: seq<string>, i: nat, s: ParseState)
    requires i < |lines| && Run(Start, lines) == Run(s, lines[i..])
    ensures Run(Start, lines) == (match Step(s, lines[i]) case Err(e) => Err(e) case Ok(t) => Run(t, lines[i + 1..]))
  {
    assert lines[i..][0] == lines[i] && lines[i..][1..] == lines[i + 1..];
  }

  lemma {:induction false} RunAppend(s: ParseState, a: seq<string>, b: seq<string>)
    ensures Run(s, a + b) == (match Run(s, a) case Err(e) => Err(e) case Ok(t) => Run(t, b))
    decreases |a|
  {
    if a == [] {
      assert a + b == b;
    } else {
      assert (a + b)[0] == a[0];
      assert (a + b)[1..] == a[1..] + b;
      match Step(s, a[0])
      case Err(_) =>
      case Ok(t) => RunAppend(t, a[1..], b);
    }
  }

  /** The current branch always names a node of the tree (it is a live
      reference), and a leaf is current only while a branch is. */
  predicate Attached(s: ParseState)
  {
    && (s.key.Some? ==> Resolve(s.root, s.key.value).Some?)
    && (s.key.None? ==> s.elem.None?)
  }

  lemma StepKeepsAttached(s: ParseState, ln: string)
    requires Attached(s) && Step(s, ln).Ok?
    ensures Attached(Step(s, ln).value)
  {
    var t := Step(s, ln).value;
    if (ln == [] || ln[0] != '[') && s.key.None? {
    } else if ln == [] {
    } else if ln[0] == '[' {
      if t != s {
        var path := t.key.value;
        AddToDictCreatesPath(s.root, path);
      }
    } else if t.root != s.root {
      ResolveReplace(s.root, s.key.value, Resolve(t.root, s.key.value).value) by {
        var p := s.key.value;
        var es := Resolve(s.root, p).value.entries;
        if ln[0] == '"' {
          var parts := Split(ln, '=');
          var k := RemoveAll(parts[0], '"');
          ResolveReplace(s.root, p, Branch(Put(es, k, Leaf(DropBackslash(parts[1])))));
        } else {
          var k := s.elem.value;
          var v := Get(es, k).value.value;
          ResolveReplace(s.root, p, Branch(Put(es, k, Leaf(v + DropBackslash(ln[2..])))));
        }
      }
    }
  }

  /** Every state the reader reaches from `Start` is `Attached`. */
  lemma {:induction false} RunKeepsAttached(s: ParseState, lines: seq<string>)
    requires Attached(s) && Run(s, lines).Ok?
    ensures Attached(Run(s, lines).value)
    decreases |lines|
  {
    if lines != [] {
      StepKeepsAttached(s, lines[0]);
      RunKeepsAttached(Step(s, lines[0]).value, lines[1..]);
    }
  }

  /** The first line that is not blank, or "" when there is none. */
  function FirstNonBlank(lines: seq<string>): string
  {
    if lines == [] then ""
    else if lines[0] != "" then lines[0]
    else FirstNonBlank(lines[1..])
  }

  predicate NoBracketLine(lines: seq<string>)
  {
    forall i :: 0 <= i < |lines| ==> lines[i] == [] || lines[i][0] != '['
  }

  /** While no branch is current, every line but a bracket line is dropped,
      leaves included, except that the first non-blank one becomes the
      header if there is none yet. */
  lemma {:induction false} HeaderLines(s: ParseState, lines: seq<string>)
    requires s.key.None? && NoBracketLine(lines)
    ensures Run(s, lines) == Ok(s.(header := if s.header != "" then s.header else FirstNonBlank(lines)))
    decreases |lines|
  {
    if lines != [] {
      var t := Step(s, lines[0]).value;
      assert NoBracketLine(lines[1..]) by {
        forall i | 0 <= i < |lines[1..]| ensures lines[1..][i] == [] || lines[1..][i][0] != '[' {
          assert lines[1..][i] == lines[i + 1];
        }
      }
      HeaderLines(t, lines[1..]);
    }
  }

  /** The header of a dump is its first non-blank line before any bracket line. */
  lemma DumpHeader(lines: seq<string>, rest: seq<string>)
    requires NoBracketLine(lines)
    ensures Run(Start, lines + rest) == Run(Start.(header := FirstNonBlank(lines)), rest)
  {
    HeaderLines(Start, lines);
    RunAppend(Start, lines, rest);
  }

  function Backslashes(m: nat): (r: string)
    ensures |r| == m && forall i :: 0 <= i < m ==> r[i] == '\\'
  {
    seq(m, _ => '\\')
  }

  /** A bracket line `[\\a\b]` selects the branch at path `a`, `b` whatever
      the number of leading backslashes, creating what is missing. */
  lemma BracketLine(s: ParseState, m: nat, p: seq<string>)
    requires p != [] && p[0] != [] && p[0][0] != '\\'
    requires forall i :: 0 <= i < |p| ==> '\\' !in p[i]
    ensures Step(s, "[" + Backslashes(m) + Join(p, '\\') + "]")
         == (match AddToDict(s.root, p) case Err(e) => Err(e) case Ok(r) => Ok(s.(root := r, key := Some(p))))
  {
    var j := Join(p, '\\');
    var ln := "[" + Backslashes(m) + j + "]";
    var inner := Backslashes(m) + j;
    JoinFirst(p, '\\');
    assert ln[1..|ln| - 1] == inner;
    assert inner[m] == j[0];
    StripLeading(m, j);
    SplitJoin(p, '\\');
  }

  lemma {:induction false} StripLeading(m: nat, j: string)
    requires j != [] && j[0] != '\\'
    ensures StripBackslashes(Backslashes(m) + j) == Ok(j)
  {
    if m == 0 {
      assert Backslashes(m) + j == j;
    } else {
      assert (Backslashes(m) + j)[1..] == Backslashes(m - 1) + j;
      StripLeading(m - 1, j);
    }
  }

  /** A bracket line not ending in `]` fails its assertion; `[\]` changes
      nothing; a path of backslashes only runs out of text. */
  lemma BracketFailures(s: ParseState, ln: string, m: nat)
    requires ln != [] && ln[0] == '['
    ensures ln[|ln| - 1] != ']' ==> Step(s, ln) == Err(AssertionError)
    ensures ln == "[\\]" ==> Step(s, ln) == Ok(s)
    ensures ln == "[" + Backslashes(m) + "]" && m != 1 ==> Step(s, ln) == Err(IndexError)
  {
    if ln == "[" + Backslashes(m) + "]" {
      assert ln[1..|ln| - 1] == Backslashes(m);
      StripBackslashesMeans(Backslashes(m));
    }
  }

  /** `"k"=v` sets entry `k` of the current branch to `v` without one
      trailing backslash; no other entry changes, and `k` becomes the current leaf. */
  lemma LeafLine(s: ParseState, p: seq<string>, es: seq<Entry>, k: string, v: string)
    requires s.key == Some(p) && Resolve(s.root, p) == Some(Branch(es))
    requires '"' !in k && '=' !in k && '=' !in v && v != []
    ensures Step(s, "\"" + k + "\"=" + v)
         == Ok(s.(root := ReplaceAt(s.root, p, Branch(Put(es, k, Leaf(DropBackslash(v))))), elem := Some(k)))
  {
    var ln := "\"" + k + "\"=" + v;
    LeafLineSplit(k, v);
    Unquote(k);
    assert ln != [] && ln[0] == '"';
    var written := Branch(Put(es, k, Leaf(DropBackslash(v))));
    assert EditAt(s.root, p, Assign(k, DropBackslash(v))) == Ok(ReplaceAt(s.root, p, written));
  }

  lemma LeafLineSplit(k: string, v: string)
    requires '=' !in k && '=' !in v
    ensures Split("\"" + k + "\"=" + v, '=') == ["\"" + k + "\"", v]
  {
    var quoted := "\"" + k + "\"";
    assert '=' !in quoted;
    SplitJoin([quoted, v], '=');
    assert Join([quoted, v], '=') == "\"" + k + "\"=" + v;
  }

  lemma Unquote(k: string)
    requires '"' !in k
    ensures RemoveAll("\"" + k + "\"", '"') == k
  {
    RemoveAllAppend("\"" + k, "\"", '"');
    RemoveAllAppend("\"", k, '"');
    RemoveAllAbsent(k, '"');
    assert RemoveAll("\"", '"') == "" by {
      assert "\""[..0] == [];
    }
  }

  /** A leaf line must hold exactly one `=`; otherwise unpacking its split fails. */
  lemma LeafLineNeedsOneEquals(s: ParseState, ln: string)
    requires s.key.Some? && ln != [] && ln[0] == '"'
    requires Occurrences(ln, '=') != 1
    ensures Step(s, ln) == Err(ValueError)
  {
    SplitCount(ln, '=');
  }

  /** A two-space line appends its text, without one trailing backslash, to
      the current leaf of the current branch. */
  lemma ContinuationLine(s: ParseState, p: seq<string>, es: seq<Entry>, k: string, v: string, piece: string)
    requires s.key == Some(p) && s.elem == Some(k) && k != ""
    requires Resolve(s.root, p) == Some(Branch(es)) && Get(es, k) == Some(Leaf(v))
    requires piece != []
    ensures Step(s, "  " + piece) == Ok(s.(root := ReplaceAt(s.root, p, Branch(Put(es, k, Leaf(v + DropBackslash(piece)))))))
  {
    var ln := "  " + piece;
    assert ln[0] == ' ' && ln[..2] == "  " && ln[2..] == piece;
    var written := Branch(Put(es, k, Leaf(v + DropBackslash(piece))));
    assert EditAt(s.root, p, Append(k, DropBackslash(piece))) == Ok(ReplaceAt(s.root, p, written));
  }

  /** A blank line leaves no branch and no leaf current. */
  lemma BlankLine(s: ParseState)
    requires Attached(s)
    ensures Step(s, "") == Ok(s.(key := None, elem := None))
  {
  }

  /** Lines of any other shape are ignored while a branch is current. */
  lemma OtherLine(s: ParseState, ln: string)
    requires s.key.Some? && ln != [] && ln[0] != '[' && ln[0] != '"' && !StartsWith(ln, "  ")
    ensures Step(s, ln) == Ok(s)
  {
  }
}

/** `list_and_correct_entries`: walk the objects of a BCD hive, look at the
    partition and disk GUIDs of each boot entry's two device locators, and
    rewrite the ones that do not match the host. */
module BootEntries {
  import opened Text
  import opened RegTree
  import opened GuidScan
  import opened Guid
  import opened GuidCorrect

  /** Element keys of a BCD object: the boot file (two variants), the
      description, and the two device locators. */
  const FileKey := "12000002"
  const Fil2Key := "22000002"
  const DescKey := "12000004"
  const DiskKey := "11000001"
  const OsdkKey := "21000001"

  /** The host as probed at start-up: partition GUID to device name
      (`PartUUIDs`), partition GUID to the GUID of its disk, which the probe
      may not have found (`PartDisks`), and partition GUID to disk name
      (`PartDskNm`). */
  datatype Topology = Topology(
    partUuids: map<string, string>,
    partDisks: map<string, Option<string>>,
    partDskNm: map<string, string>)

  /** The answers of `select_uuid`: its n-th call (from 0) returns `ask(n)`. */
  type Oracle = nat -> Option<string>

  /** Everything the loop reads besides the tree: the `nochange` flag, the
      overwrite list, the host tables and the user's answers. */
  datatype Env = Env(nochange: bool, ovwr: seq<string>, topo: Topology, ask: Oracle)

  /** `fixes` and `unfixed`, and how often `select_uuid` was called so far. */
  datatype Tally = Tally(fixes: nat, unfixed: nat, asked: nat)

  /** What one locator hands to the next: the entry's elements, `resp`, and the tally. */
  datatype Round = Round(elms: seq<Entry>, resp: Option<string>, t: Tally)

  /** `k in s` for strings: `k` occurs in `s`. */
  predicate Contains(s: string, k: string)
    decreases |s|
  {
    StartsWith(s, k) || (s != [] && Contains(s[1..], k))
  }

  /** `k in n`: a key of a dictionary, a substring of a string. */
  predicate Has(n: Node, k: string)
  {
    match n
    case Leaf(s) => Contains(s, k)
    case Branch(es) => Get(es, k).Some?
  }

  /** `n[k]`: a string cannot be indexed by a string, a missing key is a KeyError. */
  function Index(n: Node, k: string): (r: Result<Node>)
    ensures r.Ok? ==> n.Branch?
  {
    match n
    case Leaf(_) => Err(TypeError)
    case Branch(es) =>
      match Get(es, k)
      case None => Err(KeyError)
      case Some(c) => Ok(c)
  }

  /** Python truth of `resp`: None and the empty string are false. */
  predicate Truthy(r: Option<string>)
  {
    r.Some? && r.value != ""
  }

  /** `loc['Element']` as handed to `find_part_disk`: a dictionary there
      cannot be sliced, and the scan raises (modelled as TypeError). */
  function ElementText(loc: Node): Result<string>
  {
    match Index(loc, "Element")
    case Err(f) => Err(f)
    case Ok(Branch(_)) => Err(TypeError)
    case Ok(Leaf(h)) => Ok(h)
  }

  /** A successful scan has one offset per id. */
  lemma FoundLengths(h: string)
    requires PartDiskIds(h).Ok?
    ensures |PartDiskIds(h).value.ids| == |PartDiskIds(h).value.offs|
  {
  }

  /** The exception, if any, raised while appending the boot file under `key`
      to the description `desc`: a string cannot be indexed by `'Element'`, a
      dictionary has no `replace`, and a dictionary plus a string is a TypeError. */
  function NoteFault(elms: seq<Entry>, key: string, desc: Node): Option<Fault>
  {
    match Get(elms, key)
    case None => None
    case Some(n) =>
      if !Has(n, "Element") then None
      else
        match Index(n, "Element")
        case Err(f) => Some(f)
        case Ok(Branch(_)) => Some(AttributeError)
        case Ok(Leaf(_)) => if desc.Leaf? then None else Some(TypeError)
  }

  /** Building the printed description: the boot file, then its variant. */
  function DescFault(elms: seq<Entry>, desc: Node): Option<Fault>
  {
    match NoteFault(elms, FileKey, desc)
    case Some(f) => Some(f)
    case None => NoteFault(elms, Fil2Key, desc)
  }

  /** The rescan after both windows were rewritten, with its two assertions
      and the index errors of a too short id list. */
  function Validate(loc: Node, pid: string, did: string): Option<Fault>
  {
    match ElementText(loc)
    case Err(f) => Some(f)
    case Ok(h) =>
      match PartDiskIds(h)
      case Err(f) => Some(f)
      case Ok(fd) =>
        if |fd.ids| < 1 then Some(IndexError)
        else if fd.ids[0] != pid then Some(AssertionError)
        else if |fd.ids| < 2 then Some(IndexError)
        else if fd.ids[1] != did then Some(AssertionError)
        else None
  }

  /** With the answer `pid`: rewrite the partition window, then the disk
      window with the partition's disk (a missing key, and a disk the probe
      did not find, raise), and check both by a rescan. */
  function Reassign(loc: Node, pid: string, offs: seq<nat>, topo: Topology): Result<Node>
    requires |offs| == 2
  {
    match CorrectUuid(pid, offs[0], loc)
    case Err(f) => Err(f)
    case Ok(loc1) =>
      if pid !in topo.partDisks then Err(KeyError)
      else if topo.partDisks[pid].None? then Err(TypeError)
      else
        var did := topo.partDisks[pid].value;
        match CorrectUuid(did, offs[1], loc1)
        case Err(f) => Err(f)
        case Ok(loc2) =>
          match Validate(loc2, pid, did)
          case Some(f) => Err(f)
          case None => Ok(loc2)
  }

  /** A locator whose partition is unknown or to be overwritten: ask the
      user unless an earlier answer for this entry is at hand or nothing
      may change. */
  function Unknown(es: seq<Entry>, key: string, loc: Node, offs: seq<nat>, env: Env, resp: Option<string>, t: Tally): Result<Round>
    requires |offs| == 2
  {
    if !Truthy(resp) && !env.nochange then
      Answered(es, key, loc, offs, env, env.ask(t.asked), t.(asked := t.asked + 1))
    else Answered(es, key, loc, offs, env, resp, t)
  }

  /** With the answer `resp` (if any): without a usable one, or under
      `nochange`, the locator stays unfixed; otherwise both windows are
      reassigned. */
  function Answered(es: seq<Entry>, key: string, loc: Node, offs: seq<nat>, env: Env, resp: Option<string>, t: Tally): Result<Round>
    requires |offs| == 2
  {
    if !Truthy(resp) || env.nochange then Ok(Round(es, resp, t.(unfixed := t.unfixed + 1)))
    else
      match Reassign(loc, resp.value, offs, env.topo)
      case Err(f) => Err(f)
      case Ok(loc2) => Ok(Round(Put(es, key, loc2), resp, t.(fixes := t.fixes + 2)))
  }

  /** A locator whose partition the host knows: without a known disk it
      stays unfixed; a different disk GUID is rewritten (or counted unfixed
      under `nochange`); a matching one is reported with its disk name. */
  function Known(es: seq<Entry>, key: string, loc: Node, ids: seq<string>, offs: seq<nat>, env: Env, resp: Option<string>, t: Tally): Result<Round>
    requires |ids| == 2 && |offs| == 2
  {
    var pid := ids[0];
    if pid !in env.topo.partDisks || !Truthy(env.topo.partDisks[pid]) then
      Ok(Round(es, resp, t.(unfixed := t.unfixed + 1)))
    else
      var did := env.topo.partDisks[pid].value;
      if ids[1] != did then
        if env.nochange then Ok(Round(es, resp, t.(unfixed := t.unfixed + 1)))
        else
          match CorrectUuid(did, offs[1], loc)
          case Err(f) => Err(f)
          case Ok(loc1) => Ok(Round(Put(es, key, loc1), resp, t.(fixes := t.fixes + 1)))
      else if pid !in env.topo.partDskNm then Err(KeyError)
      else Ok(Round(es, resp, t))
  }

  /** One pass of the inner loop, for the locator under `key`. */
  function Locator(es: seq<Entry>, key: string, env: Env, resp: Option<string>, t: Tally): Result<Round>
  {
    match Get(es, key)
    case None => Ok(Round(es, resp, t))
    case Some(loc) =>
      match ElementText(loc)
      case Err(f) => Err(f)
      case Ok(h) =>
        match PartDiskIds(h)
        case Err(f) => Err(f)
        case Ok(fd) =>
          FoundLengths(h);
          Rules(es, key, loc, fd, env, resp, t)
  }

  /** The decision rules for the GUIDs found in the locator under `key`:
      anything but two of them is a detection failure. */
  function Rules(es: seq<Entry>, key: string, loc: Node, fd: Found, env: Env, resp: Option<string>, t: Tally): Result<Round>
    requires |fd.ids| == |fd.offs|
  {
    if |fd.ids| != 2 then Ok(Round(es, resp, t.(unfixed := t.unfixed + 1)))
    else if fd.ids[0] !in env.topo.partUuids || fd.ids[0] in env.ovwr then
      Unknown(es, key, loc, fd.offs, env, resp, t)
    else Known(es, key, loc, fd.ids, fd.offs, env, resp, t)
  }

  /** The inner loop over the locator keys, in order. */
  function Locators(es: seq<Entry>, keys: seq<string>, env: Env, resp: Option<string>, t: Tally): Result<Round>
    decreases |keys|
  {
    if keys == [] then Ok(Round(es, resp, t))
    else
      match Locator(es, keys[0], env, resp, t)
      case Err(f) => Err(f)
      case Ok(rd) => Locators(rd.elms, keys[1..], env, rd.resp, rd.t)
  }

  /** One object of the hive: skipped without a description `Element`;
      otherwise its description is built and its two locators are checked,
      each entry starting with no answer. */
  function Object(ob: Node, env: Env, t: Tally): Result<(Node, Tally)>
  {
    match Index(ob, "Elements")
    case Err(f) => Err(f)
    case Ok(elms) =>
      if !Has(elms, DescKey) then Ok((ob, t))
      else
        match Index(elms, DescKey)
        case Err(f) => Err(f)
        case Ok(d) =>
          if !Has(d, "Element") then Ok((ob, t))
          else
            match Index(d, "Element")
            case Err(f) => Err(f)
            case Ok(desc) =>
              match DescFault(elms.entries, desc)
              case Some(f) => Err(f)
              case None =>
                match Locators(elms.entries, [DiskKey, OsdkKey], env, None, t)
                case Err(f) => Err(f)
                case Ok(rd) => Ok((Branch(Put(ob.entries, "Elements", Branch(rd.elms))), rd.t))
  }

  /** Put finished objects in front of the rest of the run. */
  function Prepend(done: seq<Entry>, r: Result<(seq<Entry>, Tally)>): Result<(seq<Entry>, Tally)>
  {
    match r
    case Err(f) => Err(f)
    case Ok((rest, t)) => Ok((done + rest, t))
  }

  /** The outer loop over the objects, in insertion order. */
  function Objects(objs: seq<Entry>, env: Env, t: Tally): Result<(seq<Entry>, Tally)>
    decreases |objs|
  {
    if objs == [] then Ok(([], t))
    else
      match Object(objs[0].node, env, t)
      case Err(f) => Err(f)
      case Ok((ob, t')) => Prepend([Entry(objs[0].key, ob)], Objects(objs[1..], env, t'))
  }

  /** `list_and_correct_entries(regd, nochange, ovwr_list)`: the corrected
      tree and the final tally; a string under `Objects` has no `items`. */
  function ListAndCorrect(regd: Node, env: Env): Result<(Node, Tally)>
  {
    match Index(regd, "Objects")
    case Err(f) => Err(f)
    case Ok(Leaf(_)) => Err(AttributeError)
    case Ok(Branch(objs)) =>
      match Objects(objs, env, Tally(0, 0, 0))
      case Err(f) => Err(f)
      case Ok((objs', t)) => Ok((Branch(Put(regd.entries, "Objects", Branch(objs'))), t))
  }

  /** Unfolding `Objects` at position `i`. */
  lemma ObjectsAt(objs: seq<Entry>, i: nat, env: Env, t: Tally)
    requires i < |objs|
    ensures Objects(objs[i..], env, t) ==
      match Object(objs[i].node, env, t)
      case Err(f) => Err(f)
      case Ok((ob, t')) => Prepend([Entry(objs[i].key, ob)], Objects(objs[i + 1..], env, t'))
  {
    assert objs[i..][1..] == objs[i + 1..];
  }

  /** Prepending nothing changes nothing. */
  lemma PrependEmpty(r: Result<(seq<Entry>, Tally)>)
    ensures Prepend([], r) == r
  {
    if r.Ok? {
      assert [] + r.value.0 == r.value.0;
    }
  }

  /** Prepending twice is prepending the concatenation. */
  lemma PrependTwice(a: seq<Entry>, b: seq<Entry>, r: Result<(seq<Entry>, Tally)>)
    ensures Prepend(a, Prepend(b, r)) == Prepend(a + b, r)
  {
    if r.Ok? {
      assert a + (b + r.value.0) == (a + b) + r.value.0;
    }
  }

  /** `list_and_correct_entries`: the loop over the objects. */
  method ListAndCorrectEntries(regd: Node, env: Env) returns (r: Result<(Node, Tally)>)
    ensures r == ListAndCorrect(regd, env)
  {
    var objs := Index(regd, "Objects");
    if objs.Err? {
      return Err(objs.fault);
    }
    if objs.value.Leaf? {
      return Err(AttributeError);
    }
    var es := objs.value.entries;
    var done: seq<Entry> := [];
    var t := Tally(0, 0, 0);
    var i := 0;
    assert Prepend(done, Objects(es, env, t)) == Objects(es, env, t) by {
      assert es[i..] == es;
      PrependEmpty(Objects(es, env, t));
    }
    while i < |es|
      invariant i <= |es|
      invariant Objects(es, env, Tally(0, 0, 0)) == Prepend(done, Objects(es[i..], env, t))
    {
      var ob := CorrectObject(es[i].node, env, t);
      ObjectsAt(es, i, env, t);
      if ob.Err? {
        return Err(ob.fault);
      }
      PrependTwice(done, [Entry(es[i].key, ob.value.0)], Objects(es[i + 1..], env, ob.value.1));
      done := done + [Entry(es[i].key, ob.value.0)];
      t := ob.value.1;
      i := i + 1;
    }
    assert es[i..] == [] && done + [] == done;
    r := Ok((Branch(Put(regd.entries, "Objects", Branch(done))), t));
  }

  /** The body of the outer loop for one object: the loop over its two locators. */
  method CorrectObject(ob: Node, env: Env, t0: Tally) returns (r: Result<(Node, Tally)>)
    ensures r == Object(ob, env, t0)
  {
    var elms := Index(ob, "Elements");
    if elms.Err? {
      return Err(elms.fault);
    }
    if !Has(elms.value, DescKey) {
      return Ok((ob, t0));
    }
    var d := Index(elms.value, DescKey);
    if d.Err? {
      return Err(d.fault);
    }
    if !Has(d.value, "Element") {
      return Ok((ob, t0));
    }
    var desc := Index(d.value, "Element");
    if desc.Err? {
      return Err(desc.fault);
    }
    var bad := DescFault(elms.value.entries, desc.value);
    if bad.Some? {
      return Err(bad.value);
    }
    var keys := [DiskKey, OsdkKey];
    var cur := elms.value.entries;
    var resp: Option<string> := None;
    var t := t0;
    var j := 0;
    while j < |keys|
      invariant j <= |keys|
      invariant Locators(elms.value.entries, keys, env, None, t0) == Locators(cur, keys[j..], env, resp, t)
    {
      assert keys[j..][1..] == keys[j + 1..];
      var rd := CorrectLocator(cur, keys[j], env, resp, t);
      if rd.Err? {
        return Err(rd.fault);
      }
      cur, resp, t := rd.value.elms, rd.value.resp, rd.value.t;
      j := j + 1;
    }
    r := Ok((Branch(Put(ob.entries, "Elements", Branch(cur))), t));
  }

  /** One locator: scan its value and apply the decision rules. */
  method CorrectLocator(es: seq<Entry>, key: string, env: Env, resp: Option<string>, t: Tally) returns (r: Result<Round>)
    ensures r == Locator(es, key, env, resp, t)
  {
    var got := Get(es, key);
    if got.None? {
      return Ok(Round(es, resp, t));
    }
    var loc := got.value;
    var h := ElementText(loc);
    if h.Err? {
      return Err(h.fault);
    }
    var fd := FindPartDisk(h.value);
    if fd.Err? {
      return Err(fd.fault);
    }
    FoundLengths(h.value);
    r := ApplyRules(es, key, loc, fd.value, env, resp, t);
  }

  /** The decision rules, once the GUIDs are found. */
  method ApplyRules(es: seq<Entry>, key: string, loc: Node, fd: Found, env: Env, resp: Option<string>, t: Tally) returns (r: Result<Round>)
    requires |fd.ids| == |fd.offs|
    ensures r == Rules(es, key, loc, fd, env, resp, t)
  {
    var ids, offs := fd.ids, fd.offs;
    if |ids| != 2 {
      return Ok(Round(es, resp, t.(unfixed := t.unfixed + 1)));
    }
    if ids[0] !in env.topo.partUuids || ids[0] in env.ovwr {
      r := FixUnknown(es, key, loc, offs, env, resp, t);
    } else {
      r := FixKnown(es, key, loc, ids, offs, env, resp, t);
    }
  }

  /** The branch for an unknown (or overwritten) partition. */
  method FixUnknown(es: seq<Entry>, key: string, loc: Node, offs: seq<nat>, env: Env, resp0: Option<string>, t0: Tally) returns (r: Result<Round>)
    requires |offs| == 2
    ensures r == Unknown(es, key, loc, offs, env, resp0, t0)
  {
    var resp, t := resp0, t0;
    if !Truthy(resp) && !env.nochange {
      resp := env.ask(t.asked);
      t := t.(asked := t.asked + 1);
    }
    r := FixAnswered(es, key, loc, offs, env, resp, t);
  }

  /** The rest of the branch, once the answer is known. */
  method FixAnswered(es: seq<Entry>, key: string, loc: Node, offs: seq<nat>, env: Env, resp: Option<string>, t: Tally) returns (r: Result<Round>)
    requires |offs| == 2
    ensures r == Answered(es, key, loc, offs, env, resp, t)
  {
    if !Truthy(resp) || env.nochange {
      return Ok(Round(es, resp, t.(unfixed := t.unfixed + 1)));
    }
    var loc2 := ReassignLocator(loc, resp.value, offs, env.topo);
    if loc2.Err? {
      return Err(loc2.fault);
    }
    r := Ok(Round(Put(es, key, loc2.value), resp, t.(fixes := t.fixes + 2)));
  }

  /** The two `correct_uuid` calls and the validating rescan. */
  method ReassignLocator(loc: Node, pid: string, offs: seq<nat>, topo: Topology) returns (r: Result<Node>)
    requires |offs| == 2
    ensures r == Reassign(loc, pid, offs, topo)
  {
    var loc1 := CorrectUuid(pid, offs[0], loc);
    if loc1.Err? {
      return Err(loc1.fault);
    }
    if pid !in topo.partDisks {
      return Err(KeyError);
    }
    if topo.partDisks[pid].None? {
      return Err(TypeError);
    }
    var did := topo.partDisks[pid].value;
    var loc2 := CorrectUuid(did, offs[1], loc1.value);
    if loc2.Err? {
      return Err(loc2.fault);
    }
    var h := ElementText(loc2.value);
    if h.Err? {
      return Err(h.fault);
    }
    var fd := FindPartDisk(h.value);
    if fd.Err? {
      return Err(fd.fault);
    }
    var ids := fd.value.ids;
    if |ids| < 1 {
      return Err(IndexError);
    }
    if ids[0] != pid {
      return Err(AssertionError);
    }
    if |ids| < 2 {
      return Err(IndexError);
    }
    if ids[1] != did {
      return Err(AssertionError);
    }
    r := Ok(loc2.value);
  }

  /** The branch for a partition the host knows. */
  method FixKnown(es: seq<Entry>, key: string, loc: Node, ids: seq<string>, offs: seq<nat>, env: Env, resp: Option<string>, t: Tally) returns (r: Result<Round>)
    requires |ids| == 2 && |offs| == 2
    ensures r == Known(es, key, loc, ids, offs, env, resp, t)
  {
    var pid := ids[0];
    if pid !in env.topo.partDisks || !Truthy(env.topo.partDisks[pid]) {
      return Ok(Round(es, resp, t.(unfixed := t.unfixed + 1)));
    }
    var did := env.topo.partDisks[pid].value;
    if ids[1] != did {
      if !env.nochange {
        var loc1 := CorrectUuid(did, offs[1], loc);
        if loc1.Err? {
          return Err(loc1.fault);
        }
        r := Ok(Round(Put(es, key, loc1.value), resp, t.(fixes := t.fixes + 1)));
      } else {
        r := Ok(Round(es, resp, t.(unfixed := t.unfixed + 1)));
      }
    } else if pid !in env.topo.partDskNm {
      r := Err(KeyError);
    } else {
      r := Ok(Round(es, resp, t));
    }
  }

  /** A value the scan accepts carries a `hex:` or `hex(7):` tag, so it has a ':'. */
  lemma ScannedHasColon(h: string)
    requires PartDiskIds(h).Ok?
    ensures ':' in h
  {
    if StartsWith(h, "hex(7):") {
      assert h[..7][6] == ':';
    } else {
      assert h[..4][3] == ':';
    }
  }

  /** How a locator's result relates to what it was given: fixes grow by at
      most 2 and unfixed by at most 1; the elements change only when fixes
      grow, and only under `key`; the user is asked at most once, never when
      an answer for the entry is at hand or under `nochange`, and a new
      answer is the oracle's. */
  ghost predicate StepBounds(es: seq<Entry>, key: string, env: Env, resp: Option<string>, t: Tally, rd: Round)
  {
    && t.fixes <= rd.t.fixes <= t.fixes + 2
    && t.unfixed <= rd.t.unfixed <= t.unfixed + 1
    && (rd.t.fixes == t.fixes ==> rd.elms == es)
    && (forall k :: k != key ==> Get(rd.elms, k) == Get(es, k))
    && (Truthy(resp) ==> rd.resp == resp && rd.t.asked == t.asked)
    && ((rd.t.asked == t.asked && rd.resp == resp) || (rd.t.asked == t.asked + 1 && rd.resp == env.ask(t.asked)))
    && (env.nochange ==> rd.t.fixes == t.fixes && rd.t.asked == t.asked)
  }

  /** The branch for an unknown partition keeps the step bounds. */
  lemma UnknownEffect(es: seq<Entry>, key: string, loc: Node, offs: seq<nat>, env: Env, resp: Option<string>, t: Tally)
    requires |offs| == 2 && Unknown(es, key, loc, offs, env, resp, t).Ok?
    ensures StepBounds(es, key, env, resp, t, Unknown(es, key, loc, offs, env, resp, t).value)
  {
  }

  /** The branch for a known partition keeps the step bounds. */
  lemma KnownEffect(es: seq<Entry>, key: string, loc: Node, ids: seq<string>, offs: seq<nat>, env: Env, resp: Option<string>, t: Tally)
    requires |ids| == 2 && |offs| == 2 && Known(es, key, loc, ids, offs, env, resp, t).Ok?
    ensures StepBounds(es, key, env, resp, t, Known(es, key, loc, ids, offs, env, resp, t).value)
  {
  }

  /** One locator keeps the step bounds. */
  lemma LocatorEffect(es: seq<Entry>, key: string, env: Env, resp: Option<string>, t: Tally)
    requires Locator(es, key, env, resp, t).Ok?
    ensures StepBounds(es, key, env, resp, t, Locator(es, key, env, resp, t).value)
  {
    if Get(es, key).Some? {
      var loc := Get(es, key).value;
      var h := ElementText(loc).value;
      var fd := PartDiskIds(h).value;
      if |fd.ids| == 2 {
        FoundLengths(h);
        if fd.ids[0] !in env.topo.partUuids || fd.ids[0] in env.ovwr {
          UnknownEffect(es, key, loc, fd.offs, env, resp, t);
        } else {
          KnownEffect(es, key, loc, fd.ids, fd.offs, env, resp, t);
        }
      }
    }
  }

  /** The locators of one entry, one after the other: as for one locator,
      summed over the keys; and once the oracle's first answer in the
      entry is usable, it is not asked again. */
  lemma {:induction false} LocatorsEffect(es: seq<Entry>, keys: seq<string>, env: Env, resp: Option<string>, t: Tally)
    requires Locators(es, keys, env, resp, t).Ok?
    ensures var rd := Locators(es, keys, env, resp, t).value;
      && t.fixes <= rd.t.fixes <= t.fixes + 2 * |keys|
      && t.unfixed <= rd.t.unfixed <= t.unfixed + |keys|
      && t.asked <= rd.t.asked <= t.asked + |keys|
      && (rd.t.fixes == t.fixes ==> rd.elms == es)
      && (forall k :: k !in keys ==> Get(rd.elms, k) == Get(es, k))
      && (Truthy(resp) ==> rd.t.asked == t.asked)
      && (Truthy(env.ask(t.asked)) ==> rd.t.asked <= t.asked + 1)
      && (env.nochange ==> rd.t.fixes == t.fixes && rd.t.asked == t.asked)
    decreases |keys|
  {
    if keys != [] {
      var rd1 := Locator(es, keys[0], env, resp, t).value;
      LocatorEffect(es, keys[0], env, resp, t);
      LocatorsEffect(rd1.elms, keys[1..], env, rd1.resp, rd1.t);
    }
  }

  /** An object the loop passes over: its `Elements` hold no description
      `Element`. */
  predicate Skipped(ob: Node)
  {
    match Index(ob, "Elements")
    case Err(_) => false
    case Ok(elms) =>
      !Has(elms, DescKey) || (Index(elms, DescKey).Ok? && !Has(Index(elms, DescKey).value, "Element"))
  }

  /** One object: a skipped one is returned as it is; otherwise the user is
      asked at most twice, and only once when the first answer is usable;
      fixes grow by at most 4 and unfixed by at most 2, and the object is
      unchanged unless fixes grow; `nochange` keeps fixes and asks as they are. */
  lemma ObjectEffect(ob: Node, env: Env, t: Tally)
    requires Object(ob, env, t).Ok?
    ensures var (ob', t') := Object(ob, env, t).value;
      && (Skipped(ob) ==> ob' == ob && t' == t)
      && t.fixes <= t'.fixes <= t.fixes + 4
      && t.unfixed <= t'.unfixed <= t.unfixed + 2
      && t.asked <= t'.asked <= t.asked + 2
      && (Truthy(env.ask(t.asked)) ==> t'.asked <= t.asked + 1)
      && (t'.fixes == t.fixes ==> ob' == ob)
      && (env.nochange ==> t'.fixes == t.fixes && t'.asked == t.asked)
  {
    if !Skipped(ob) {
      var elms := Index(ob, "Elements").value;
      LocatorsEffect(elms.entries, [DiskKey, OsdkKey], env, None, t);
      var rd := Locators(elms.entries, [DiskKey, OsdkKey], env, None, t).value;
      if rd.t.fixes == t.fixes {
        PutSame(ob.entries, "Elements", elms);
      }
    }
  }

  /** The loop over the objects: the object keys and their order stay, skipped
      objects are returned as they are, nothing changes unless fixes grow,
      and the user is asked at most twice per object and never under `nochange`. */
  lemma {:induction false} ObjectsEffect(objs: seq<Entry>, env: Env, t: Tally)
    requires Objects(objs, env, t).Ok?
    ensures var (objs', t') := Objects(objs, env, t).value;
      && |objs'| == |objs|
      && (forall i :: 0 <= i < |objs| ==> objs'[i].key == objs[i].key)
      && (forall i :: 0 <= i < |objs| && Skipped(objs[i].node) ==> objs'[i] == objs[i])
      && t.fixes <= t'.fixes <= t.fixes + 4 * |objs|
      && t.unfixed <= t'.unfixed <= t.unfixed + 2 * |objs|
      && t.asked <= t'.asked <= t.asked + 2 * |objs|
      && (t'.fixes == t.fixes ==> objs' == objs)
      && (env.nochange ==> t'.fixes == t.fixes && t'.asked == t.asked)
    decreases |objs|
  {
    if objs != [] {
      var (ob, t1) := Object(objs[0].node, env, t).value;
      ObjectEffect(objs[0].node, env, t);
      ObjectsEffect(objs[1..], env, t1);
      var (rest, t2) := Objects(objs[1..], env, t1).value;
      var objs' := [Entry(objs[0].key, ob)] + rest;
      assert Objects(objs, env, t).value == (objs', t2);
      forall i | 0 <= i < |objs| && Skipped(objs[i].node)
        ensures objs'[i] == objs[i]
      {
        if i > 0 {
          assert objs[1..][i - 1] == objs[i];
        }
      }
      if t2.fixes == t.fixes {
        assert objs == [objs[0]] + objs[1..];
      }
    }
  }

  /** The whole run: when it ends without an exception, the hive outside
      `Objects` is untouched, object keys keep their order, skipped objects
      are untouched, a run with no fixes leaves the hive exactly as it was
      (the caller writes the hive back only when fixes are counted), and
      under `nochange` nothing is fixed and the user is never asked. */
  lemma RunEffect(regd: Node, env: Env)
    requires ListAndCorrect(regd, env).Ok?
    ensures var (tree, t) := ListAndCorrect(regd, env).value;
      var objs := Index(regd, "Objects").value.entries;
      && tree.Branch? && regd.Branch?
      && (forall k :: k != "Objects" ==> Get(tree.entries, k) == Get(regd.entries, k))
      && Get(tree.entries, "Objects").Some? && Get(tree.entries, "Objects").value.Branch?
      && var objs' := Get(tree.entries, "Objects").value.entries;
      && |objs'| == |objs|
      && (forall i :: 0 <= i < |objs| ==> objs'[i].key == objs[i].key)
      && (forall i :: 0 <= i < |objs| && Skipped(objs[i].node) ==> objs'[i] == objs[i])
      && t.asked <= 2 * |objs|
      && (t.fixes == 0 ==> tree == regd)
      && (env.nochange ==> t.fixes == 0 && t.asked == 0 && tree == regd)
  {
    var objs := Index(regd, "Objects").value.entries;
    ObjectsEffect(objs, env, Tally(0, 0, 0));
    var (tree, t) := ListAndCorrect(regd, env).value;
    if t.fixes == 0 {
      PutSame(regd.entries, "Objects", Branch(objs));
    }
  }

  /** The value under `key` that the scan accepted, with the id it found first. */
  ghost predicate Scanned(es: seq<Entry>, key: string, loc: Node, h: string)
  {
    Get(es, key) == Some(loc) && ElementText(loc) == Ok(h) && PartDiskIds(h).Ok?
  }

  /** A locator whose scan does not find exactly two GUIDs is counted as
      unfixed and left as it is; so is one whose known partition has no
      known disk. A known partition on its recorded disk is left as it is,
      and needs its disk name. */
  lemma LocatorUnfixed(es: seq<Entry>, key: string, env: Env, resp: Option<string>, t: Tally, loc: Node, h: string)
    requires Scanned(es, key, loc, h)
    ensures var ids := PartDiskIds(h).value.ids;
      var r := Locator(es, key, env, resp, t);
      && (|ids| != 2 ==> r == Ok(Round(es, resp, t.(unfixed := t.unfixed + 1))))
      && (|ids| == 2 && ids[0] in env.topo.partUuids && ids[0] !in env.ovwr ==>
            && (ids[0] !in env.topo.partDisks || !Truthy(env.topo.partDisks[ids[0]]) ==>
                  r == Ok(Round(es, resp, t.(unfixed := t.unfixed + 1))))
            && (ids[0] in env.topo.partDisks && env.topo.partDisks[ids[0]] == Some(ids[1]) && ids[1] != "" ==>
                  r == if ids[0] in env.topo.partDskNm then Ok(Round(es, resp, t)) else Err(KeyError)))
  {
    LocatorIsRules(es, key, env, resp, t, loc, h);
  }

  /** A known partition whose recorded disk GUID differs from the host's:
      only the disk window at the second offset is rewritten, to the host's
      disk GUID, and fixes grow by 1; under `nochange` it is counted as
      unfixed instead. */
  lemma MismatchFix(es: seq<Entry>, key: string, env: Env, resp: Option<string>, t: Tally, loc: Node, h: string, did: string)
    requires Scanned(es, key, loc, h)
    requires var fd := PartDiskIds(h).value;
      && |fd.ids| == 2 && |fd.offs| == 2
      && fd.ids[0] in env.topo.partUuids && fd.ids[0] !in env.ovwr
      && fd.ids[0] in env.topo.partDisks && env.topo.partDisks[fd.ids[0]] == Some(did)
      && did != "" && fd.ids[1] != did
    ensures var fd := PartDiskIds(h).value;
      var r := Locator(es, key, env, resp, t);
      var v := CorrectValue(did, fd.offs[1], h);
      var ix := SpliceAt(h, fd.offs[1]);
      && (env.nochange ==> r == Ok(Round(es, resp, t.(unfixed := t.unfixed + 1))))
      && (!env.nochange ==>
            && v.Ok? && loc.Branch?
            && r == Ok(Round(Put(es, key, Branch(Put(loc.entries, "Element", Leaf(v.value)))), resp, t.(fixes := t.fixes + 1)))
            && (ix + 47 <= |h| && |UuidBytes(did)| == 47 ==>
                  && |v.value| == |h| && v.value[..ix] == h[..ix]
                  && v.value[ix..ix + 47] == UuidBytes(did) && v.value[ix + 47..] == h[ix + 47..]))
  {
    var fd := PartDiskIds(h).value;
    LocatorIsRules(es, key, env, resp, t, loc, h);
    ScannedHasColon(h);
    CorrectSplice(did, fd.offs[1], h);
    KnownMismatch(es, key, loc, fd.ids, fd.offs, env, resp, t, h, did);
  }

  /** The mismatch branch of the rules for a known partition. */
  lemma KnownMismatch(es: seq<Entry>, key: string, loc: Node, ids: seq<string>, offs: seq<nat>, env: Env, resp: Option<string>, t: Tally, h: string, did: string)
    requires ElementText(loc) == Ok(h) && ':' in h
    requires |ids| == 2 && |offs| == 2 && ids[0] in env.topo.partUuids && ids[0] !in env.ovwr
    requires ids[0] in env.topo.partDisks && env.topo.partDisks[ids[0]] == Some(did) && did != "" && ids[1] != did
    ensures CorrectValue(did, offs[1], h).Ok? && loc.Branch?
    ensures var r := Rules(es, key, loc, Found(ids, offs), env, resp, t);
      && (env.nochange ==> r == Ok(Round(es, resp, t.(unfixed := t.unfixed + 1))))
      && (!env.nochange ==>
            r == Ok(Round(Put(es, key, Branch(Put(loc.entries, "Element", Leaf(CorrectValue(did, offs[1], h).value)))), resp, t.(fixes := t.fixes + 1))))
  {
    CorrectSplice(did, offs[1], h);
    var v := CorrectValue(did, offs[1], h).value;
    assert Get(loc.entries, "Element") == Some(Leaf(h));
    var loc1 := CorrectUuid(did, offs[1], loc);
    assert loc1 == Ok(Branch(Put(loc.entries, "Element", Leaf(v))));
    assert Rules(es, key, loc, Found(ids, offs), env, resp, t) == Known(es, key, loc, ids, offs, env, resp, t);
    if !env.nochange {
      assert Known(es, key, loc, ids, offs, env, resp, t) == Ok(Round(Put(es, key, loc1.value), resp, t.(fixes := t.fixes + 1)));
    }
  }

  /** Once the value under `key` is scanned, the decision rules decide. */
  lemma LocatorIsRules(es: seq<Entry>, key: string, env: Env, resp: Option<string>, t: Tally, loc: Node, h: string)
    requires Scanned(es, key, loc, h)
    ensures |PartDiskIds(h).value.ids| == |PartDiskIds(h).value.offs|
    ensures Locator(es, key, env, resp, t) == Rules(es, key, loc, PartDiskIds(h).value, env, resp, t)
  {
  }

  /** A partition the host does not know (or one to overwrite): under
      `nochange`, or when no usable answer is at hand or given, the locator
      is counted as unfixed and left as it is; when fixes grow they grow by
      2, the answer is a partition with a known disk, and the rescan of the
      rewritten value finds that partition and that disk first. */
  lemma UnknownFix(es: seq<Entry>, key: string, env: Env, resp: Option<string>, t: Tally, loc: Node, h: string)
    requires Scanned(es, key, loc, h)
    requires var ids := PartDiskIds(h).value.ids;
      |ids| == 2 && (ids[0] !in env.topo.partUuids || ids[0] in env.ovwr)
    ensures var r := Locator(es, key, env, resp, t);
      && (env.nochange ==> r == Ok(Round(es, resp, t.(unfixed := t.unfixed + 1))))
      && (!env.nochange && !Truthy(resp) && !Truthy(env.ask(t.asked)) ==>
            r == Ok(Round(es, env.ask(t.asked), t.(asked := t.asked + 1, unfixed := t.unfixed + 1))))
      && (r.Ok? && r.value.t.fixes != t.fixes ==>
            && r.value.t.fixes == t.fixes + 2 && r.value.t.unfixed == t.unfixed
            && Truthy(r.value.resp) && !env.nochange
            && var pid := r.value.resp.value;
            && pid in env.topo.partDisks && env.topo.partDisks[pid].Some?
            && Get(r.value.elms, key).Some?
            && var h' := ElementText(Get(r.value.elms, key).value);
            && h'.Ok? && PartDiskIds(h'.value).Ok?
            && var ids' := PartDiskIds(h'.value).value.ids;
            && |ids'| >= 2 && ids'[0] == pid && ids'[1] == env.topo.partDisks[pid].value)
  {
    var fd := PartDiskIds(h).value;
    LocatorIsRules(es, key, env, resp, t, loc, h);
    assert Locator(es, key, env, resp, t) == Unknown(es, key, loc, fd.offs, env, resp, t);
    var resp' := if !Truthy(resp) && !env.nochange then env.ask(t.asked) else resp;
    if Truthy(resp') && !env.nochange && Reassign(loc, resp'.value, fd.offs, env.topo).Ok? {
      ReassignMeans(loc, resp'.value, fd.offs, env.topo);
    }
  }

  /** The other direction for an unknown partition: outside `nochange`, with
      a usable answer in force (the one at hand, else the one the user
      gives), the run raises or both windows are rewritten, the partition
      window to the answer and the disk window to the answer's disk (what
      else the value keeps is `TwoSplices`, with `ScanGap`), and fixes grow
      by 2. */
  lemma UnknownReassigned(es: seq<Entry>, key: string, env: Env, resp: Option<string>, t: Tally, loc: Node, h: string)
    requires Scanned(es, key, loc, h)
    requires var ids := PartDiskIds(h).value.ids;
      |ids| == 2 && (ids[0] !in env.topo.partUuids || ids[0] in env.ovwr)
    ensures var r := Locator(es, key, env, resp, t);
      var offs := PartDiskIds(h).value.offs;
      var ans := if Truthy(resp) then resp else env.ask(t.asked);
      var asked := if Truthy(resp) then t.asked else t.asked + 1;
      !env.nochange && Truthy(ans) ==>
        r.Err? ||
          (&& ans.value in env.topo.partDisks && env.topo.partDisks[ans.value].Some? && loc.Branch?
           && var did := env.topo.partDisks[ans.value].value;
           && var v1 := CorrectValue(ans.value, offs[0], h);
           && v1.Ok? && CorrectValue(did, offs[1], v1.value).Ok?
           && r.value.elms == Put(es, key, Branch(Put(loc.entries, "Element", Leaf(CorrectValue(did, offs[1], v1.value).value))))
           && r.value.resp == ans && r.value.t == t.(fixes := t.fixes + 2, asked := asked))
  {
    var offs := PartDiskIds(h).value.offs;
    var ans := if Truthy(resp) then resp else env.ask(t.asked);
    var asked := if Truthy(resp) then t.asked else t.asked + 1;
    if !env.nochange && Truthy(ans) {
      UnknownIsAnswered(es, key, env, resp, t, loc, h);
      AnsweredReassigned(es, key, loc, h, offs, env, ans, t.(asked := asked));
      var r := Answered(es, key, loc, offs, env, ans, t.(asked := asked));
      assert Locator(es, key, env, resp, t) == r;
      if r.Ok? {
        var did := env.topo.partDisks[ans.value].value;
        var v1 := CorrectValue(ans.value, offs[0], h).value;
        var v2 := CorrectValue(did, offs[1], v1).value;
        assert r.value.elms == Put(es, key, Branch(Put(loc.entries, "Element", Leaf(v2))));
        assert r.value.t == t.(fixes := t.fixes + 2, asked := asked);
      }
    }
  }

  /** A value with two reported windows has a ':' and the windows are at
      least 20 bytes apart, so the two splices of a reassignment do not
      overlap and `TwoSplices` says what the rewritten value keeps. */
  lemma ScanGap(h: string)
    requires PartDiskIds(h).Ok? && |PartDiskIds(h).value.offs| == 2
    ensures ':' in h && PartDiskIds(h).value.offs[0] + 20 <= PartDiskIds(h).value.offs[1]
  {
    ScannedHasColon(h);
    PartDiskOffsets(h);
  }

  /** Outside `nochange`, an unknown partition is handled with the answer at
      hand when it is usable, else with the one the user gives. */
  lemma UnknownIsAnswered(es: seq<Entry>, key: string, env: Env, resp: Option<string>, t: Tally, loc: Node, h: string)
    requires Scanned(es, key, loc, h) && !env.nochange
    requires var ids := PartDiskIds(h).value.ids;
      |ids| == 2 && (ids[0] !in env.topo.partUuids || ids[0] in env.ovwr)
    ensures |PartDiskIds(h).value.offs| == 2
    ensures var ans := if Truthy(resp) then resp else env.ask(t.asked);
      var asked := if Truthy(resp) then t.asked else t.asked + 1;
      Locator(es, key, env, resp, t) == Answered(es, key, loc, PartDiskIds(h).value.offs, env, ans, t.(asked := asked))
  {
    assert t.(asked := t.asked) == t;
    LocatorIsRules(es, key, env, resp, t, loc, h);
  }

  /** With a usable answer and outside `nochange`, the run raises or the
      locator under `key` is replaced by the reassigned one, with fixes + 2. */
  lemma AnsweredReassigned(es: seq<Entry>, key: string, loc: Node, h: string, offs: seq<nat>, env: Env, ans: Option<string>, t: Tally)
    requires ElementText(loc) == Ok(h) && |offs| == 2 && !env.nochange && Truthy(ans)
    ensures var r := Answered(es, key, loc, offs, env, ans, t);
      r.Err? ||
        (&& ans.value in env.topo.partDisks && env.topo.partDisks[ans.value].Some? && loc.Branch?
         && var did := env.topo.partDisks[ans.value].value;
         && var v1 := CorrectValue(ans.value, offs[0], h);
         && v1.Ok? && CorrectValue(did, offs[1], v1.value).Ok?
         && r.value.elms == Put(es, key, Branch(Put(loc.entries, "Element", Leaf(CorrectValue(did, offs[1], v1.value).value))))
         && r.value.resp == ans && r.value.t == t.(fixes := t.fixes + 2))
  {
    var re := Reassign(loc, ans.value, offs, env.topo);
    AnsweredIs(es, key, loc, offs, env, ans, t);
    if re.Ok? {
      ReassignValue(loc, ans.value, offs, env.topo, h);
    }
  }

  lemma AnsweredIs(es: seq<Entry>, key: string, loc: Node, offs: seq<nat>, env: Env, ans: Option<string>, t: Tally)
    requires |offs| == 2 && !env.nochange && Truthy(ans)
    ensures Reassign(loc, ans.value, offs, env.topo).Err? ==> Answered(es, key, loc, offs, env, ans, t).Err?
    ensures var re := Reassign(loc, ans.value, offs, env.topo);
      re.Ok? ==> Answered(es, key, loc, offs, env, ans, t) == Ok(Round(Put(es, key, re.value), ans, t.(fixes := t.fixes + 2)))
  {
    var r := Answered(es, key, loc, offs, env, ans, t);
    var re := Reassign(loc, ans.value, offs, env.topo);
    if re.Ok? {
      assert r.Ok?;
      assert r.value.elms == Put(es, key, re.value);
      assert r.value.resp == ans;
      assert r.value.t == t.(fixes := t.fixes + 2);
    }
  }

  /** The value a successful reassignment writes: the partition window is
      rewritten to `pid`, then the disk window to its disk. */
  lemma ReassignValue(loc: Node, pid: string, offs: seq<nat>, topo: Topology, h: string)
    requires |offs| == 2 && ElementText(loc) == Ok(h)
    requires Reassign(loc, pid, offs, topo).Ok?
    ensures pid in topo.partDisks && topo.partDisks[pid].Some? && loc.Branch?
    ensures var did := topo.partDisks[pid].value;
      var v1 := CorrectValue(pid, offs[0], h);
      && v1.Ok? && CorrectValue(did, offs[1], v1.value).Ok?
      && Reassign(loc, pid, offs, topo).value
           == Branch(Put(loc.entries, "Element", Leaf(CorrectValue(did, offs[1], v1.value).value)))
  {
    CorrectUuidElement(pid, offs[0], loc);
    var v1 := CorrectValue(pid, offs[0], h).value;
    var loc1 := Branch(Put(loc.entries, "Element", Leaf(v1)));
    var did := topo.partDisks[pid].value;
    CorrectUuidElement(did, offs[1], loc1);
    var v2 := CorrectValue(did, offs[1], v1).value;
    PutTwice(loc.entries, "Element", Leaf(v1), Leaf(v2));
  }

  /** A successful reassignment: the answer has a known disk, and the rescan
      of the rewritten value finds the answer and that disk first. */
  lemma ReassignMeans(loc: Node, pid: string, offs: seq<nat>, topo: Topology)
    requires |offs| == 2 && Reassign(loc, pid, offs, topo).Ok?
    ensures pid in topo.partDisks && topo.partDisks[pid].Some?
    ensures var h := ElementText(Reassign(loc, pid, offs, topo).value);
      && h.Ok? && PartDiskIds(h.value).Ok?
      && var ids := PartDiskIds(h.value).value.ids;
      && |ids| >= 2 && ids[0] == pid && ids[1] == topo.partDisks[pid].value
  {
  }
}

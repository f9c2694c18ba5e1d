/** pkg/fs/memory.go: a map from paths to shared node objects. */
module Memory {
  import opened Results
  import opened Paths
  import opened Files
  import opened FileLaws

  class Node {
    var kind: Kind
    var data: Bytes
    var target: Target
    var links: nat

    ghost function Value(): Inode
      reads this
    {
      Inode(kind, data, target)
    }

    constructor (inode: Inode)
      ensures Value() == inode && links == 1
    {
      kind, data, target, links := inode.kind, inode.data, inode.target, 1;
    }
  }

  // ------------------------------------------------------------ link counting

  ghost function Names<Id>(paths: map<Path, Id>, id: Id): set<Path> {
    set p | p in paths && paths[p] == id
  }

  /** The number of paths bound to a node. */
  ghost function LinkCount<Id>(paths: map<Path, Id>, id: Id): nat {
    |Names(paths, id)|
  }

  lemma CountPositive<Id>(paths: map<Path, Id>, id: Id)
    ensures LinkCount(paths, id) == 0 <==> id !in paths.Values
  {
    if id in paths.Values {
      var p :| p in paths && paths[p] == id;
      assert p in Names(paths, id);
    } else {
      assert Names(paths, id) == {};
    }
  }

  lemma CountDrop<Id>(paths: map<Path, Id>, p: Path, id: Id)
    requires p in paths
    ensures LinkCount(paths - {p}, id) == LinkCount(paths, id) - (if paths[p] == id then 1 else 0)
  {
    assert Names(paths - {p}, id) == Names(paths, id) - {p};
  }

  /** Dropping an entry drops its node exactly when that was the last link. */
  lemma ValuesAfterDrop<Id>(paths: map<Path, Id>, p: Path)
    requires p in paths
    ensures (paths - {p}).Values == if LinkCount(paths, paths[p]) == 1 then paths.Values - {paths[p]} else paths.Values
  {
    CountDrop(paths, p, paths[p]);
    CountPositive(paths - {p}, paths[p]);
    forall id | id in paths.Values && id != paths[p] ensures id in (paths - {p}).Values {
      var q :| q in paths && paths[q] == id;
      assert (paths - {p})[q] == id;
    }
    CountPositive(paths, paths[p]);
  }

  lemma CountBind<Id>(paths: map<Path, Id>, p: Path, bound: Id, id: Id)
    requires p !in paths
    ensures LinkCount(paths[p := bound], id) == LinkCount(paths, id) + (if bound == id then 1 else 0)
  {
    assert Names(paths[p := bound], id) == Names(paths, id) + (if bound == id then {p} else {});
  }

  /** Binding a new node at a free name, or over an entry whose node has no other name. */
  lemma CountReplace<Id>(paths: map<Path, Id>, p: Path, bound: Id, id: Id)
    requires bound !in paths.Values && id in paths[p := bound].Values
    requires p in paths ==> forall q | q in paths && paths[q] == paths[p] :: q == p
    ensures LinkCount(paths[p := bound], id) == if id == bound then 1 else LinkCount(paths, id)
    ensures id != bound ==> id in paths.Values
  {
    var q :| q in paths[p := bound] && paths[p := bound][q] == id;
    if id == bound {
      assert Names(paths[p := bound], id) == {p};
    } else {
      assert Names(paths[p := bound], id) == Names(paths, id);
    }
  }

  /** An entry that Create may replace is the only name of its node. */
  lemma OneName<Id>(s: Store<Id>, p: Path, inode: Inode)
    requires Tree(s) && Sound(s, Create(p, inode)) && p in s.paths
    ensures forall q | q in s.paths && s.paths[q] == s.paths[p] :: q == p
  {
    forall q | q in s.paths && s.paths[q] == s.paths[p] ensures q == p { assert Unshared(s, p, q); }
  }

  lemma FillCreated<Id>(s: Store<Id>, p: Path, data: Bytes, id: Id)
    ensures Execute(Execute(s, Create(p, FileNode([])), id), SetData(p, data), id)
         == Execute(s, Create(p, FileNode(data)), id)
  {
    var t := Execute(s, Create(p, FileNode([])), id);
    assert t.paths[p] == id;
    assert Execute(t, SetData(p, data), id).nodes == Execute(s, Create(p, FileNode(data)), id).nodes;
  }

  /** Binding an empty file and then filling it is binding the full file, under the same quota. */
  lemma CreateThenFill<Id>(s: Store<Id>, p: Path, data: Bytes, limit: int, id: Id)
    requires Tree(s) && Sound(s, Create(p, FileNode([]))) && id !in s.nodes
    ensures var t := Execute(s, Create(p, FileNode([])), id);
      && IsKind(t, p, Regular) && t.paths[p] == id
      && Exceeds(t, limit, |data|) == Exceeds(s, limit, |data|)
      && Execute(t, SetData(p, DataAt(t, p) + data), id) == Execute(s, Create(p, FileNode(data)), id)
  {
    CreateEntries(s, p, FileNode([]), id);
    CreateTotal(s, p, FileNode([]), id);
    FillCreated(s, p, data, id);
    hide Tree, Sound, Total, Execute, Consistent;
    assert DataAt(Execute(s, Create(p, FileNode([])), id), p) + data == data;
  }

  lemma {:induction false} BijectionCard(a: set<Path>, b: set<Path>, f: Path -> Path)
    requires forall p | p in a :: f(p) in b
    requires forall p, q | p in a && q in a && f(p) == f(q) :: p == q
    requires forall r | r in b :: exists p | p in a :: f(p) == r
    ensures |a| == |b|
    decreases |a|
  {
    if a == {} {
      assert b == {};
    } else {
      var p :| p in a;
      BijectionCard(a - {p}, b - {f(p)}, f);
    }
  }

  /** A move keeps the number of names of every node. */
  lemma CountRelocated<Id>(paths: map<Path, Id>, from: Path, to: Path, id: Id)
    requires to != ROOT && !Within(from, to) && forall q | q in paths :: !(to <= q)
    ensures LinkCount(Relocated(paths, from, to), id) == LinkCount(paths, id)
    ensures id in Relocated(paths, from, to).Values <==> id in paths.Values
  {
    var r := Relocated(paths, from, to);
    RelocatedEntries(paths, from, to);
    hide Relocated;
    var a, b := Names(r, id), Names(paths, id);
    forall p, q | p in a && q in a && Origin(from, to, p) == Origin(from, to, q) ensures p == q {
      OriginInjective(from, to, p, q);
    }
    forall p | p in b ensures exists q | q in a :: Origin(from, to, q) == p {
      var q := if Within(from, p) then to + p[|from|..] else p;
      assert Origin(from, to, q) == p;
      assert q in a;
    }
    BijectionCard(a, b, q => Origin(from, to, q));
    CountPositive(r, id);
    CountPositive(paths, id);
  }

  lemma RelocatedIs<Id>(paths: map<Path, Id>, from: Path, to: Path, out: map<Path, Id>)
    requires to != ROOT && !Within(from, to) && forall q | q in paths :: !(to <= q)
    requires forall k :: k in out <==>
      (k in paths && !Within(from, k)) || (to <= k && from + k[|to|..] in paths && Within(from, from + k[|to|..]))
    requires forall k | k in out :: out[k] == paths[Origin(from, to, k)]
    ensures out == Relocated(paths, from, to)
  {
    RelocatedEntries(paths, from, to);
  }

  class Memory {
    var nodes: map<Path, Node>
    var used: int
    const limit: int

    /** The store the heap represents. */
    ghost function Abs(): Store<Node>
      reads this, nodes.Values
    {
      Store(nodes, map n | n in nodes.Values :: n.Value())
    }

    /** Link counts and byte accounting agree with the entries. */
    ghost predicate Accounted()
      reads this, nodes.Values
    {
      && (forall n | n in nodes.Values :: n.links == LinkCount(nodes, n))
      && used == Total(Abs().nodes)
    }

    ghost predicate Valid()
      reads this, nodes.Values
    {
      Tree(Abs()) && Accounted() && (limit > 0 ==> used <= limit)
    }

    constructor (limit: int)
      ensures Valid() && this.limit == limit && fresh(nodes.Values)
      ensures nodes.Keys == {ROOT} && Abs().nodes.Values == {DirNode()}
    {
      var root := new Node(DirNode());
      nodes, used, this.limit := map[ROOT := root], 0, limit;
      new;
      assert nodes[ROOT] == root && nodes.Values == {root};
      assert Abs().nodes == map[root := DirNode()];
      TotalRemove(Abs().nodes, root);
      assert Abs().nodes - {root} == map[];
      assert Names(nodes, root) == {ROOT};
    }

    // ------------------------------------------------------------- resolution

    method ResolveLocked(name: Path, followFinal: bool) returns (r: Result<Path>)
      ensures r == Resolve(Abs(), name, followFinal, ROUNDS)
      ensures r.Ok? && ROOT in nodes ==> r.value in nodes
    {
      var current := name;
      for links := 0 to 41
        invariant Resolve(Abs(), name, followFinal, ROUNDS) == Resolve(Abs(), current, followFinal, ROUNDS - links)
      {
        if !ValidName(current) {
          return Err(Invalid);
        }
        var parts, restart, i := current, false, 0;
        while i < |parts| && !restart
          invariant 0 <= i <= |parts|
          invariant !restart ==>
            current == parts && Scan(Abs(), parts, followFinal, 0) == Scan(Abs(), parts, followFinal, i)
          invariant restart ==> Scan(Abs(), parts, followFinal, 0) == Redirected(current)
          invariant !restart && i > 0 && i == |parts| ==> parts in nodes
          decreases |parts| - i, !restart
        {
          var cur := parts[..i + 1];
          if cur !in nodes {
            return Err(NotExist);
          }
          var n, final := nodes[cur], i == |parts| - 1;
          if n.kind == Kind.Symlink && (followFinal || !final) {
            current, restart := Redirect(cur, n.target, parts[i + 1..]), true;
          } else if !final && n.kind != Directory {
            return Err(NotDir);
          } else {
            i := i + 1;
            assert i == |parts| ==> cur == parts;
          }
        }
        if !restart {
          return Ok(current);
        }
      }
      return Err(Loop);
    }

    /** Where the source resolves the parent of a new entry and checks that it is a directory. */
    method ResolveParent(name: Path) returns (r: Result<Path>)
      requires ROOT in nodes
      ensures r == Place(Abs(), name)
    {
      var parent := ResolveLocked(Parent(name), true);
      match parent {
        case Err(e) => r := Err(e);
        case Ok(q) =>
          if nodes[q].kind != Directory {
            r := Err(NotDir);
          } else {
            r := Ok(Child(q, name));
          }
      }
    }

    // ---------------------------------------------------------------- reading

    method ReadFile(name: Path) returns (r: Result<Bytes>)
      requires Valid()
      ensures r == ReadFileOf(Abs(), name)
    {
      var resolved := ResolveLocked(name, true);
      if resolved.Err? {
        return Err(resolved.error);
      }
      var n := nodes[resolved.value];
      if n.kind == Directory {
        return Err(IsDir);
      }
      return Ok(n.data);
    }

    method Stat(name: Path, follow: bool) returns (r: Result<Inode>)
      requires Valid()
      ensures r == StatOf(Abs(), name, follow)
    {
      var resolved := ResolveLocked(name, follow);
      if resolved.Err? {
        return Err(resolved.error);
      }
      var n := nodes[resolved.value];
      return Ok(Inode(n.kind, n.data, n.target));
    }

    method Readlink(name: Path) returns (r: Result<Target>)
      requires Valid()
      ensures r == ReadlinkOf(Abs(), name)
    {
      var resolved := ResolveLocked(name, false);
      if resolved.Err? {
        return Err(resolved.error);
      }
      var n := nodes[resolved.value];
      if n.kind != Kind.Symlink {
        return Err(NotALink);
      }
      return Ok(n.target);
    }

    method ReadDir(name: Path) returns (r: Result<map<string, Inode>>)
      requires Valid()
      ensures r == ReadDirOf(Abs(), name)
    {
      var resolved := ResolveLocked(name, true);
      if resolved.Err? {
        return Err(resolved.error);
      }
      var p := resolved.value;
      ResolveSound(Abs(), name, true, ROUNDS);
      hide Tree, Total, Resolve, LinkCount;
      if nodes[p].kind != Directory {
        return Err(NotDir);
      }
      ghost var s := Abs();
      assert forall q | q in nodes :: InodeAt(s, q) == nodes[q].Value();
      var out: map<string, Inode> := map[];
      var todo := nodes.Keys;
      while todo != {}
        invariant todo <= nodes.Keys
        invariant forall c :: c in out <==> p + [c] in nodes && p + [c] !in todo
        invariant forall c | c in out :: out[c] == InodeAt(s, p + [c])
      {
        var q :| q in todo;
        todo := todo - {q};
        IsChild(p, q);
        if q != p && Parent(q) == p {
          out := out[q[|q| - 1] := Inode(nodes[q].kind, nodes[q].data, nodes[q].target)];
        }
      }
      ListingIs(s, p, out);
      hide Listing;
      return Ok(out);
    }

    // --------------------------------------------------------------- mutation

    /** m.nodes[p] = &node{...}, charging the bytes of the new node. */
    method Bind(p: Path, inode: Inode) returns (created: Node)
      requires Valid() && Sound(Abs(), Create(p, inode))
      requires limit > 0 ==> used + |inode.data| <= limit
      modifies this
      ensures fresh(created) && fresh(nodes.Values - old(nodes.Values))
      ensures Abs() == Execute(old(Abs()), Create(p, inode), created)
      ensures Valid()
    {
      hide Tree, Sound, Total, LinkCount;
      ghost var before, bound := Abs(), nodes;
      if p in nodes { OneName(before, p, inode); }
      created := new Node(inode);
      CreateTree(before, p, inode, created);
      CreateTotal(before, p, inode, created);
      nodes := nodes[p := created];
      used := used + |inode.data|;
      assert Abs().nodes == Execute(before, Create(p, inode), created).nodes;
      forall n | n in nodes.Values ensures n.links == LinkCount(nodes, n) {
        CountReplace(bound, p, created, n);
      }
    }

    /** Replacing the bytes of a node, charging the difference. */
    method Rewrite(p: Path, data: Bytes)
      requires Valid() && IsKind(Abs(), p, Regular)
      requires limit > 0 ==> used - |nodes[p].data| + |data| <= limit
      modifies this`used, nodes.Values
      ensures Abs() == Execute(old(Abs()), SetData(p, data), nodes[p])
      ensures Valid()
    {
      ghost var before := Abs();
      var n := nodes[p];
      SetDataTree(before, p, data, n);
      TotalUpdate(before.nodes, n, At(before, p).(data := data));
      hide Tree, Sound, Total;
      used := used + |data| - |n.data|;
      n.data := data;
      assert Abs().nodes == before.nodes[n := At(before, p).(data := data)];
    }

    method CreateFile(name: Path, data: Bytes) returns (outcome: Outcome, ghost created: Node)
      requires Valid()
      modifies this
      ensures var plan := old(CreatePlan(Abs(), name, FileNode(data), false, limit));
        outcome == plan.outcome && Abs() == Execute(old(Abs()), plan.effect, created)
        && (plan.effect.Create? ==> fresh(created))
      ensures Valid() && fresh(nodes.Values - old(nodes.Values))
    {
      created := nodes[ROOT];
      CreatePlanSound(Abs(), name, FileNode(data), false, limit);
      hide Tree, Sound, Total;
      if !ValidName(name) {
        return Failed(Invalid), created;
      }
      var existing := ResolveLocked(name, false);
      if existing.Ok? {
        return Failed(Exist), created;
      } else if existing.error != NotExist {
        return Failed(existing.error), created;
      }
      var place := ResolveParent(name);
      if place.Err? {
        return Failed(place.error), created;
      }
      if limit > 0 && used + |data| > limit {
        PlaceOfMissing(Abs(), name, false);
        return Failed(Quota), created;
      }
      if place.value in nodes {
        return Failed(Exist), created;
      }
      created := Bind(place.value, FileNode(data));
      return Done, created;
    }

    method WriteFile(name: Path, data: Bytes) returns (outcome: Outcome, ghost created: Node)
      requires Valid()
      modifies this, nodes.Values
      ensures var plan := old(WritePlan(InMemory, Abs(), name, data, limit));
        outcome == plan.outcome && Abs() == Execute(old(Abs()), plan.effect, created)
        && (plan.effect.Create? ==> fresh(created))
      ensures Valid() && fresh(nodes.Values - old(nodes.Values))
    {
      created := nodes[ROOT];
      WritePlanSound(InMemory, Abs(), name, data, limit);
      hide Tree, Sound, Total;
      if !ValidName(name) {
        return Failed(Invalid), created;
      }
      var resolved := ResolveLocked(name, true);
      if resolved.Err? && resolved.error != NotExist {
        return Failed(resolved.error), created;
      }
      if resolved.Ok? {
        var p := resolved.value;
        if nodes[p].kind == Directory {
          return Failed(IsDir), created;
        }
        if limit > 0 && used - |nodes[p].data| + |data| > limit {
          return Failed(Quota), created;
        }
        created := nodes[p];
        Rewrite(p, data);
        return Done, created;
      }
      var place := ResolveParent(name);
      if place.Err? {
        return Failed(place.error), created;
      }
      if limit > 0 && used + |data| > limit {
        return Failed(Quota), created;
      }
      created := Bind(place.value, FileNode(data));
      return Done, created;
    }

    /** The tail both branches of AppendFile share. */
    method Extend(p: Path, data: Bytes) returns (outcome: Outcome)
      requires Valid() && p in nodes
      modifies this`used, nodes.Values
      ensures Valid()
      ensures var s := old(Abs());
        if !IsKind(s, p, Regular) then outcome == Failed(IsDir) && Abs() == s
        else if Exceeds(s, limit, |data|) then outcome == Failed(Quota) && Abs() == s
        else outcome == Done && Abs() == Execute(s, SetData(p, DataAt(s, p) + data), nodes[p])
    {
      hide Tree, Total;
      if nodes[p].kind != Regular {
        return Failed(IsDir);
      }
      if limit > 0 && used + |data| > limit {
        return Failed(Quota);
      }
      Rewrite(p, nodes[p].data + data);
      return Done;
    }

    method AppendFile(name: Path, data: Bytes) returns (outcome: Outcome, ghost created: Node)
      requires Valid()
      modifies this, nodes.Values
      ensures var plan := old(AppendPlan(InMemory, Abs(), name, data, limit));
        outcome == plan.outcome && Abs() == Execute(old(Abs()), plan.effect, created)
        && (plan.effect.Create? ==> fresh(created))
      ensures Valid() && fresh(nodes.Values - old(nodes.Values))
    {
      created := nodes[ROOT];
      AppendPlanSound(InMemory, Abs(), name, data, limit);
      hide Tree, Total;
      if !ValidName(name) {
        return Failed(Invalid), created;
      }
      var resolved := ResolveLocked(name, true);
      if resolved.Err? && resolved.error != NotExist {
        return Failed(resolved.error), created;
      }
      ghost var before := Abs();
      if resolved.Ok? {
        created := nodes[resolved.value];
        outcome := Extend(resolved.value, data);
        return;
      }
      var place := ResolveParent(name);
      if place.Err? {
        return Failed(place.error), created;
      }
      created := Bind(place.value, FileNode([]));
      CreateThenFill(before, place.value, data, limit, created);
      hide Execute, Resolve;
      outcome := Extend(place.value, data);
    }

    method Mkdir(name: Path) returns (outcome: Outcome, ghost created: Node)
      requires Valid()
      modifies this
      ensures var plan := old(CreatePlan(Abs(), name, DirNode(), true, limit));
        outcome == plan.outcome && Abs() == Execute(old(Abs()), plan.effect, created)
        && (plan.effect.Create? ==> fresh(created))
      ensures Valid() && fresh(nodes.Values - old(nodes.Values))
    {
      created := nodes[ROOT];
      CreatePlanSound(Abs(), name, DirNode(), true, limit);
      hide Tree, Sound, Total;
      if !ValidName(name) {
        return Failed(Invalid), created;
      }
      var existing := ResolveLocked(name, true);
      if existing.Ok? {
        return Failed(Exist), created;
      } else if existing.error != NotExist {
        return Failed(existing.error), created;
      }
      var place := ResolveParent(name);
      if place.Err? {
        return Failed(place.error), created;
      }
      if place.value in nodes {
        return Failed(Exist), created;
      }
      created := Bind(place.value, DirNode());
      return Done, created;
    }

    /** The source relies on resolution having failed and does not look at the new entry again. */
    method Symlink(target: Target, name: Path) returns (outcome: Outcome, ghost created: Node)
      requires Valid()
      modifies this
      ensures var plan := old(CreatePlan(Abs(), name, LinkNode(target), false, limit));
        outcome == plan.outcome && Abs() == Execute(old(Abs()), plan.effect, created)
        && (plan.effect.Create? ==> fresh(created))
      ensures Valid() && fresh(nodes.Values - old(nodes.Values))
    {
      created := nodes[ROOT];
      CreatePlanSound(Abs(), name, LinkNode(target), false, limit);
      hide Tree, Sound, Total;
      if !ValidName(name) {
        return Failed(Invalid), created;
      }
      var existing := ResolveLocked(name, false);
      if existing.Ok? {
        return Failed(Exist), created;
      } else if existing.error != NotExist {
        return Failed(existing.error), created;
      }
      var place := ResolveParent(name);
      if place.Err? {
        return Failed(place.error), created;
      }
      PlaceOfMissing(Abs(), name, false);
      created := Bind(place.value, LinkNode(target));
      return Done, created;
    }

    /** Another name for a node, and one link more. */
    method AddLink(source: Path, p: Path)
      requires Valid() && Sound(Abs(), Alias(source, p)) && p !in nodes
      modifies this, nodes[source]
      ensures Abs() == Execute(old(Abs()), Alias(source, p), old(nodes[source]))
      ensures Valid() && nodes.Values == old(nodes.Values)
    {
      ghost var before, bound := Abs(), nodes;
      var n := nodes[source];
      AliasTree(before, source, p, n);
      AliasEntries(before, source, p, n);
      hide Tree, Sound, Total, LinkCount;
      n.links := n.links + 1;
      nodes := nodes[p := n];
      assert nodes.Values == bound.Values;
      forall m | m in nodes.Values ensures m.links == LinkCount(nodes, m) { CountBind(bound, p, n, m); }
      assert Abs().nodes == before.nodes;
    }

    method Link(name: Path, newName: Path) returns (outcome: Outcome)
      requires Valid()
      modifies this, nodes.Values
      ensures var plan := old(LinkPlan(InMemory, Abs(), name, newName));
        outcome == plan.outcome && Abs() == Execute(old(Abs()), plan.effect, old(nodes[ROOT]))
      ensures Valid() && nodes.Values <= old(nodes.Values)
    {
      LinkPlanSound(InMemory, Abs(), name, newName);
      if !ValidName(newName) {
        return Failed(Invalid);
      }
      var resolved := ResolveLocked(name, true);
      if resolved.Err? {
        return Failed(resolved.error);
      }
      var source := resolved.value;
      var n := nodes[source];
      if n.kind != Regular {
        return Failed(NotRegular);
      }
      if newName in nodes {
        return Failed(Exist);
      }
      if Parent(newName) !in nodes {
        return Failed(NotExist);
      }
      if nodes[Parent(newName)].kind != Directory {
        return Failed(NotDir);
      }
      AddLink(source, newName);
      return Done;
    }

    method Touch(name: Path) returns (outcome: Outcome)
      requires Valid()
      ensures outcome == TouchPlan(Abs(), name).outcome
    {
      var resolved := ResolveLocked(name, true);
      if resolved.Err? {
        return Failed(resolved.error);
      }
      return Done;
    }

    // --------------------------------------------------------------- removal

    /** When only entries went away or changed names, the heap represents what gathering keeps. */
    lemma AbsGathered(s: Store<Node>)
      requires nodes.Values <= s.nodes.Keys && forall n | n in nodes.Values :: n.Value() == s.nodes[n]
      ensures Abs() == Gather(nodes, s.nodes)
    {
      assert Abs().nodes == Gather(nodes, s.nodes).nodes;
    }

    /** One entry goes away: the link count drops and the last link releases the bytes. */
    method Drop(p: Path)
      requires Accounted() && p in nodes
      modifies this, nodes[p]
      ensures Accounted() && nodes == old(nodes) - {p} && used <= old(used)
      ensures forall n | n in old(nodes.Values) :: n.Value() == old(n.Value())
    {
      hide LinkCount, Total;
      ghost var before, bound := Abs().nodes, nodes;
      var n := nodes[p];
      CountPositive(nodes, n);
      ValuesAfterDrop(nodes, p);
      TotalRemove(before, n);
      n.links := n.links - 1;
      if n.links == 0 {
        used := used - |n.data|;
      }
      nodes := nodes - {p};
      forall m | m in bound.Values ensures m.links == LinkCount(nodes, m) {
        CountDrop(bound, p, m);
      }
      assert Abs().nodes == if n.links == 0 then before - {n} else before;
    }

    method DropTarget(p: Path)
      requires Accounted()
      modifies this, nodes.Values
      ensures Accounted() && nodes == old(nodes) - {p} && used <= old(used)
      ensures forall n | n in old(nodes.Values) :: n.Value() == old(n.Value())
    {
      if p in nodes {
        Drop(p);
      } else {
        assert nodes - {p} == nodes;
      }
    }

    method HasChild(p: Path) returns (found: bool)
      ensures found == HasChildren(Abs(), p)
    {
      var todo := nodes.Keys;
      while todo != {}
        invariant todo <= nodes.Keys
        invariant forall q | q in nodes.Keys - todo :: Parent(q) != p
      {
        var q :| q in todo;
        todo := todo - {q};
        if Parent(q) == p {
          return true;
        }
      }
      return false;
    }

    method Remove(name: Path) returns (outcome: Outcome)
      requires Valid()
      modifies this, nodes.Values
      ensures var plan := old(RemovePlan(Abs(), name));
        outcome == plan.outcome && Abs() == Execute(old(Abs()), plan.effect, old(nodes[ROOT]))
      ensures Valid() && nodes.Values <= old(nodes.Values)
    {
      if name == ROOT {
        return Failed(RootRemoval);
      }
      if !ValidName(name) {
        return Failed(Invalid);
      }
      RemovePlansSound(Abs(), name);
      var resolved := ResolveLocked(name, false);
      if resolved.Err? {
        return Failed(resolved.error);
      }
      var p := resolved.value;
      assert RemovePlan(Abs(), name) ==
        if IsDirectory(Abs(), p) && HasChildren(Abs(), p) then Refuse(NotEmpty) else Perform(Unlink(p));
      if nodes[p].kind == Directory {
        var populated := HasChild(p);
        if populated {
          return Failed(NotEmpty);
        }
      }
      ghost var before := Abs();
      UnlinkTree(before, p, nodes[ROOT]);
      hide Tree, Sound, Total, Resolve, RemovePlan, HasChildren;
      Drop(p);
      AbsGathered(before);
      return Done;
    }

    method RemoveAll(name: Path) returns (outcome: Outcome)
      requires Valid()
      modifies this, nodes.Values
      ensures var plan := old(RemoveAllPlan(Abs(), name));
        outcome == plan.outcome && Abs() == Execute(old(Abs()), plan.effect, old(nodes[ROOT]))
      ensures Valid() && nodes.Values <= old(nodes.Values)
    {
      if name == ROOT {
        return Failed(RootRemoval);
      }
      if !ValidName(name) {
        return Failed(Invalid);
      }
      RemovePlansSound(Abs(), name);
      var resolved := ResolveLocked(name, false);
      if resolved.Err? {
        return if resolved.error == NotExist then Done else Failed(resolved.error);
      }
      var p := resolved.value;
      ghost var before := Abs();
      assert RemoveAllPlan(before, name) == Perform(Prune(p));
      PruneTree(before, p, nodes[ROOT]);
      hide Tree, Sound, Total, Resolve, RemoveAllPlan;
      DropSubtree(p);
      AbsGathered(before);
      return Done;
    }

    method DropSubtree(p: Path)
      requires Accounted()
      modifies this, nodes.Values
      ensures Accounted() && nodes == Without(old(nodes), p) && used <= old(used)
      ensures forall n | n in old(nodes.Values) :: n.Value() == old(n.Value())
    {
      ghost var bound := nodes;
      hide Total, LinkCount;
      var todo := nodes.Keys;
      while todo != {}
        invariant todo <= bound.Keys
        invariant nodes == map q | q in bound && (q in todo || !Within(p, q)) :: bound[q]
        invariant forall n | n in bound.Values :: n.Value() == old(n.Value())
        invariant Accounted() && used <= old(used)
      {
        var q :| q in todo;
        todo := todo - {q};
        if Within(p, q) {
          Drop(q);
        }
      }
    }

    /** A successful rename of the root leaves no tree behind; every other call keeps Valid. */
    method Rename(name: Path, newName: Path) returns (outcome: Outcome)
      requires Valid()
      modifies this, nodes.Values
      ensures var plan := old(RenamePlan(Abs(), name, newName));
        outcome == plan.outcome && Abs() == Execute(old(Abs()), plan.effect, old(nodes[ROOT]))
      ensures name != ROOT || outcome != Done ==> Valid()
      ensures Accounted() && nodes.Values <= old(nodes.Values)
    {
      if !ValidName(name) {
        return Failed(Invalid);
      }
      if !ValidName(newName) {
        return Failed(Invalid);
      }
      var resolved := ResolveLocked(name, false);
      if resolved.Err? {
        return Failed(resolved.error);
      }
      var from := resolved.value;
      var place := ResolveParent(newName);
      if place.Err? {
        return Failed(place.error);
      }
      var to := place.value;
      if Within(from, to) {
        return Failed(IntoItself);
      }
      var obstacle := CheckTarget(from, to);
      if obstacle.Some? {
        return Failed(obstacle.value);
      }
      RenameProceeds(Abs(), name, newName, from, to, nodes[ROOT]);
      hide Tree, Total, Resolve, RenamePlan, LinkCount, Execute, HasChildren;
      Transfer(from, to);
      return Done;
    }

    /** Rename after its checks: the target goes away, the subtree changes its name. */
    method Transfer(from: Path, to: Path)
      requires Accounted() && to != ROOT && !Within(from, to) && ROOT in nodes
      requires forall q | q in nodes :: !(to < q)
      modifies this, nodes.Values
      ensures Abs() == Execute(old(Abs()), Move(from, to), old(nodes[ROOT]))
      ensures Accounted() && nodes.Values <= old(nodes.Values) && used <= old(used)
    {
      ghost var before, bound := Abs(), nodes;
      hide Total, LinkCount;
      RelocatedWithoutTarget(nodes, from, to);
      hide Relocated;
      DropTarget(to);
      Relocate(from, to);
      assert nodes == Relocated(bound, from, to);
      AbsGathered(before);
      hide Gather;
    }

    method CheckTarget(from: Path, to: Path) returns (r: Option<Error>)
      requires from in nodes
      ensures r == Obstacle(Abs(), from, to)
    {
      if to in nodes {
        if nodes[to].kind == Directory && nodes[from].kind != Directory {
          return Some(IsDir);
        }
        if nodes[to].kind != Directory && nodes[from].kind == Directory {
          return Some(NotDir);
        }
        if nodes[to].kind == Directory {
          var populated := HasChild(to);
          if populated {
            return Some(NotEmpty);
          }
        }
      }
      return None;
    }

    /** The two loops of Rename: take the subtree out of the map, then put it back under the new name. */
    method Relocate(from: Path, to: Path)
      requires Accounted() && to != ROOT && !Within(from, to) && forall q | q in nodes :: !(to <= q)
      modifies this`nodes
      ensures nodes == Relocated(old(nodes), from, to) && nodes.Values == old(nodes.Values) && Accounted()
    {
      ghost var bound := nodes;
      hide Total, LinkCount;
      var moving := TakeOut(from);
      PutBack(moving, from, to);
      RelocatedIs(bound, from, to, nodes);
      RelocatedValues(bound, from, to);
      hide Relocated;
      forall n | n in nodes.Values ensures n.links == LinkCount(nodes, n) { CountRelocated(bound, from, to, n); }
      assert Abs().nodes == old(Abs().nodes);
    }

    method TakeOut(from: Path) returns (moving: map<Path, Node>)
      modifies this`nodes
      ensures nodes == Without(old(nodes), from)
      ensures moving == map q | q in old(nodes) && Within(from, q) :: old(nodes)[q]
    {
      ghost var bound := nodes;
      moving := map[];
      var todo := nodes.Keys;
      while todo != {}
        invariant todo <= bound.Keys
        invariant nodes == map q | q in bound && (q in todo || !Within(from, q)) :: bound[q]
        invariant moving == map q | q in bound && q !in todo && Within(from, q) :: bound[q]
      {
        var q :| q in todo;
        todo := todo - {q};
        if Within(from, q) {
          moving := moving[q := nodes[q]];
          nodes := nodes - {q};
        }
      }
    }

    method PutBack(moving: map<Path, Node>, from: Path, to: Path)
      requires forall q | q in moving :: Within(from, q)
      requires forall q | q in nodes :: !(to <= q)
      modifies this`nodes
      ensures forall k :: k in nodes <==> k in old(nodes) || (to <= k && from + k[|to|..] in moving)
      ensures forall k | k in nodes :: nodes[k] == if to <= k then moving[from + k[|to|..]] else old(nodes)[k]
    {
      ghost var kept := nodes;
      var todo := moving.Keys;
      while todo != {}
        invariant todo <= moving.Keys
        invariant forall k :: k in nodes <==> k in kept || (to <= k && from + k[|to|..] in moving.Keys - todo)
        invariant forall k | k in nodes :: nodes[k] == if to <= k then moving[from + k[|to|..]] else kept[k]
      {
        var q :| q in todo;
        todo := todo - {q};
        var moved := to + q[|from|..];
        assert from + moved[|to|..] == q;
        nodes := nodes[moved := moving[q]];
        forall k | to <= k && from + k[|to|..] == q ensures k == moved { assert k == to + k[|to|..]; }
      }
    }
  }
}

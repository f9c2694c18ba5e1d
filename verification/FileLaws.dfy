/** What the reference filesystem keeps: every operation of a tree yields a tree, except the rename
    of the root, and the byte total moves as the quota accounting says. */
module FileLaws {
  import opened Results
  import opened Paths
  import opened Files

  // ------------------------------------------------------- what effects change

  /** Gathering drops unnamed nodes and nothing a caller could see. */
  lemma GatherEntries<Id>(paths: map<Path, Id>, nodes: map<Id, Inode>)
    requires paths.Values <= nodes.Keys
    ensures var t := Gather(paths, nodes);
      && t.paths == paths && Consistent(t)
      && forall q | q in paths :: Present(t, q) && At(t, q) == nodes[paths[q]]
  {
  }

  lemma CreateEntries<Id>(s: Store<Id>, p: Path, inode: Inode, id: Id)
    requires Consistent(s) && id !in s.nodes
    ensures var t := Execute(s, Create(p, inode), id);
      && t.paths == s.paths[p := id] && Consistent(t)
      && forall q | q in t.paths :: Present(t, q) && At(t, q) == if q == p then inode else s.nodes[s.paths[q]]
  {
    GatherEntries(s.paths[p := id], s.nodes[id := inode]);
  }

  lemma SetDataEntries<Id>(s: Store<Id>, p: Path, data: Bytes, id: Id)
    requires Consistent(s) && Present(s, p)
    ensures var t := Execute(s, SetData(p, data), id);
      && t.paths == s.paths && Consistent(t)
      && forall q | q in s.paths :: Present(t, q) &&
           At(t, q) == if s.paths[q] == s.paths[p] then At(s, p).(data := data) else At(s, q)
  {
    var t := Execute(s, SetData(p, data), id);
    assert t.nodes.Keys == s.nodes.Keys;
    assert forall q | q in s.paths :: s.paths[q] in s.paths.Values;
  }

  lemma AliasEntries<Id>(s: Store<Id>, source: Path, p: Path, id: Id)
    requires Consistent(s) && source in s.paths && p !in s.paths
    ensures var t := Execute(s, Alias(source, p), id);
      && t.paths == s.paths[p := s.paths[source]] && t.nodes == s.nodes && Consistent(t)
      && forall q | q in t.paths :: Present(t, q) && At(t, q) == s.nodes[s.paths[if q == p then source else q]]
  {
    var t := Execute(s, Alias(source, p), id);
    forall v ensures v in t.paths.Values <==> v in s.paths.Values {
      if v in s.paths.Values {
        var q :| q in s.paths && s.paths[q] == v;
        assert t.paths[q] == v;
      }
    }
    assert forall q | q in s.paths :: s.paths[q] in s.paths.Values;
  }

  // ------------------------------------------------------- effects keep trees

  lemma NoChildNoDescendant<Id>(s: Store<Id>, p: Path, q: Path)
    requires Tree(s) && !HasChildren(s, p) && q in s.paths
    ensures !(p < q)
  {
    if |p| < |q| {
      var child := q[..|p| + 1];
      if child != q {
        Ancestors(s, q, |p| + 1);
      }
      assert child in s.paths && Parent(child) == q[..|p|];
    }
  }

  /** What an entry is after another one was created. */
  ghost predicate AfterCreate<Id>(s: Store<Id>, t: Store<Id>, p: Path, inode: Inode, q: Path) {
    && Present(t, q) && (q == p ==> At(t, q) == inode)
    && (q != p ==> Present(s, q) && t.paths[q] == s.paths[q] && At(t, q) == At(s, q))
  }

  lemma CreateKeeps<Id>(s: Store<Id>, p: Path, inode: Inode, id: Id)
    requires Consistent(s) && id !in s.nodes
    ensures var t := Execute(s, Create(p, inode), id);
      t.paths == s.paths[p := id] && Consistent(t) && forall q | q in t.paths :: AfterCreate(s, t, p, inode, q)
  {
    CreateEntries(s, p, inode, id);
    assert forall q | q in s.paths :: s.paths[q] in s.paths.Values;
    hide Execute;
  }

  lemma CreatedParent<Id>(s: Store<Id>, t: Store<Id>, p: Path, inode: Inode, q: Path)
    requires forall r | r in t.paths :: AfterCreate(s, t, p, inode, r)
    requires p in s.paths ==> !IsDirectory(s, p)
    requires q in t.paths && ParentIsDirectory(s, q) && s.paths.Keys <= t.paths.Keys
    ensures ParentIsDirectory(t, q)
  {
    if q != ROOT {
      assert AfterCreate(s, t, p, inode, Parent(q));
    }
  }

  lemma CreateTree<Id>(s: Store<Id>, p: Path, inode: Inode, id: Id)
    requires Tree(s) && Sound(s, Create(p, inode)) && id !in s.nodes
    ensures Tree(Execute(s, Create(p, inode), id))
  {
    var t := Execute(s, Create(p, inode), id);
    CreateKeeps(s, p, inode, id);
    hide Execute, Consistent;
    forall q | q in t.paths ensures ParentIsDirectory(t, q) {
      assert ParentIsDirectory(s, q);
      CreatedParent(s, t, p, inode, q);
    }
    assert AfterCreate(s, t, p, inode, ROOT);
    forall q | q in t.paths ensures Bare(t, q) { assert AfterCreate(s, t, p, inode, q) && (q != p ==> Bare(s, q)); }
    forall q, r | q in t.paths && r in t.paths ensures Unshared(t, q, r) {
      assert AfterCreate(s, t, p, inode, q) && AfterCreate(s, t, p, inode, r);
      if q != p && r != p {
        assert Unshared(s, q, r);
      }
    }
  }

  lemma SetDataTree<Id>(s: Store<Id>, p: Path, data: Bytes, id: Id)
    requires Tree(s) && Sound(s, SetData(p, data))
    ensures Tree(Execute(s, SetData(p, data), id))
  {
    var t := Execute(s, SetData(p, data), id);
    SetDataEntries(s, p, data, id);
    hide Execute, Consistent;
    forall q | q in t.paths ensures ParentIsDirectory(t, q) { assert ParentIsDirectory(s, q); }
    forall q | q in t.paths ensures Bare(t, q) { assert Bare(s, q); }
    forall q, r | q in t.paths && r in t.paths ensures Unshared(t, q, r) { assert Unshared(s, q, r); }
  }

  lemma AliasTree<Id>(s: Store<Id>, source: Path, p: Path, id: Id)
    requires Tree(s) && Sound(s, Alias(source, p))
    ensures Tree(Execute(s, Alias(source, p), id))
  {
    var t := Execute(s, Alias(source, p), id);
    AliasEntries(s, source, p, id);
    hide Execute, Consistent;
    forall q | q in t.paths ensures ParentIsDirectory(t, q) { assert ParentIsDirectory(s, q); }
    forall q | q in t.paths ensures Bare(t, q) { assert Bare(s, q); }
    forall q, r | q in t.paths && r in t.paths ensures Unshared(t, q, r) {
      assert Unshared(s, if q == p then source else q, if r == p then source else r);
    }
  }

  /** Entries dropped or renamed without touching nodes: a tree again, when names stay distinct and
      every parent survives as a directory. */
  lemma RebasedTree<Id>(s: Store<Id>, paths: map<Path, Id>, origin: Path -> Path)
    requires Tree(s)
    requires forall q | q in paths :: origin(q) in s.paths && paths[q] == s.paths[origin(q)]
    requires forall q, r | q in paths && r in paths && origin(q) == origin(r) :: q == r
    requires ROOT in paths && IsDirectory(s, origin(ROOT))
    requires forall q | q in paths :: ValidName(q)
    requires forall q | q in paths && q != ROOT :: Parent(q) in paths && IsDirectory(s, origin(Parent(q)))
    ensures Tree(Gather(paths, s.nodes))
  {
    var t := Gather(paths, s.nodes);
    assert paths.Values <= s.nodes.Keys;
    GatherEntries(paths, s.nodes);
    hide Gather, Consistent;
    forall q | q in paths ensures Bare(t, q) { assert Bare(s, origin(q)); }
    forall q, r | q in paths && r in paths ensures Unshared(t, q, r) { assert Unshared(s, origin(q), origin(r)); }
  }

  lemma UnlinkTree<Id>(s: Store<Id>, p: Path, id: Id)
    requires Tree(s) && Sound(s, Unlink(p))
    ensures Tree(Execute(s, Unlink(p), id))
  {
    assert forall q | q in s.paths - {p} :: ValidName(q) && ParentIsDirectory(s, q);
    RebasedTree(s, s.paths - {p}, q => q);
  }

  lemma PruneTree<Id>(s: Store<Id>, p: Path, id: Id)
    requires Tree(s) && Sound(s, Prune(p))
    ensures Tree(Execute(s, Prune(p), id))
  {
    var paths := Without(s.paths, p);
    forall q | q in paths ensures ValidName(q) && (q != ROOT ==> Parent(q) in paths && IsDirectory(s, Parent(q))) {
      assert ParentIsDirectory(s, q);
      assert q != ROOT && p <= Parent(q) ==> p <= q;
    }
    RebasedTree(s, paths, q => q);
  }

  /** Where the entry found at q after a move was before it. */
  function Origin(from: Path, to: Path, q: Path): Path {
    if to <= q then from + q[|to|..] else q
  }

  /** The entries after a move: the kept ones where they were, the moved ones below the new name. */
  lemma RelocatedEntries<Id>(paths: map<Path, Id>, from: Path, to: Path)
    requires to != ROOT && !Within(from, to) && forall q | q in paths :: !(to < q)
    ensures var r := Relocated(paths, from, to);
      forall q :: q in r <==> Origin(from, to, q) in paths && Within(from, Origin(from, to, q)) == (to <= q)
    ensures var r := Relocated(paths, from, to);
      forall q | q in r :: r[q] == paths[Origin(from, to, q)]
  {
    var r := Relocated(paths, from, to);
    forall q ensures q in r <==> Origin(from, to, q) in paths && Within(from, Origin(from, to, q)) == (to <= q) {
      var back := Origin(from, to, q);
      if to <= q {
        assert back[|from|..] == q[|to|..] && to + q[|to|..] == q;
        assert q in r <==> exists o | o in paths && Within(from, o) :: to + o[|from|..] == q;
        forall o | o in paths && Within(from, o) && to + o[|from|..] == q ensures o == back {
          assert o == from + o[|from|..];
        }
      }
    }
  }

  lemma OriginInjective(from: Path, to: Path, p: Path, q: Path)
    requires Origin(from, to, p) == Origin(from, to, q)
    requires Within(from, Origin(from, to, p)) == (to <= p) && Within(from, Origin(from, to, q)) == (to <= q)
    ensures p == q
  {
    if to <= p {
      assert p == to + p[|to|..] && q == to + q[|to|..];
      assert Origin(from, to, p)[|from|..] == p[|to|..] && Origin(from, to, q)[|from|..] == q[|to|..];
    }
  }

  lemma OriginValid(from: Path, to: Path, q: Path)
    requires ValidName(to) && ValidName(Origin(from, to, q))
    ensures ValidName(q)
  {
    if to <= q {
      assert q == to + q[|to|..];
      assert forall c | c in q[|to|..] :: c in Origin(from, to, q);
    }
  }

  lemma OriginParent(from: Path, to: Path, q: Path)
    requires to != ROOT && q != ROOT && q != to && from != ROOT
    requires Within(from, Origin(from, to, q)) == (to <= q)
    ensures Origin(from, to, Parent(q)) == Parent(Origin(from, to, q))
    ensures to <= q ==> Within(from, Parent(Origin(from, to, q))) && to <= Parent(q)
    ensures !(to <= q) ==> !Within(from, Parent(q)) && !(to <= Parent(q))
    ensures Origin(from, to, q) != ROOT
  {
    var up := Parent(q);
    if to <= q {
      PrefixOfParent(to, q);
      assert Origin(from, to, up) == Parent(Origin(from, to, q));
    } else {
      assert (to <= up ==> to <= q) && (from <= up ==> from <= q);
    }
  }

  lemma MovedParent<Id>(s: Store<Id>, from: Path, to: Path, q: Path)
    requires Tree(s) && Sound(s, Move(from, to)) && q != ROOT
    requires Origin(from, to, q) in s.paths && Within(from, Origin(from, to, q)) == (to <= q)
    ensures var up := Origin(from, to, Parent(q));
      IsDirectory(s, up) && Within(from, up) == (to <= Parent(q))
  {
    var up := Parent(q);
    if q == to {
      assert up != to && !(to <= up);
      assert from <= up ==> from <= to;
    } else {
      OriginParent(from, to, q);
      assert ParentIsDirectory(s, Origin(from, to, q));
    }
  }

  lemma MoveTree<Id>(s: Store<Id>, from: Path, to: Path, id: Id)
    requires Tree(s) && Sound(s, Move(from, to))
    ensures Tree(Execute(s, Move(from, to), id))
  {
    var r := Relocated(s.paths, from, to);
    forall q | q in s.paths ensures !(to < q) { NoChildNoDescendant(s, to, q); }
    RelocatedEntries(s.paths, from, to);
    hide Relocated, Consistent;
    forall q | q in r ensures ValidName(q) { OriginValid(from, to, q); }
    forall q | q in r && q != ROOT ensures Parent(q) in r && IsDirectory(s, Origin(from, to, Parent(q))) {
      MovedParent(s, from, to, q);
    }
    forall p, q | p in r && q in r && Origin(from, to, p) == Origin(from, to, q) ensures p == q {
      OriginInjective(from, to, p, q);
    }
    RebasedTree(s, r, q => Origin(from, to, q));
  }

  lemma ExecuteTree<Id>(s: Store<Id>, e: Effect, id: Id)
    requires Tree(s) && Sound(s, e) && id !in s.nodes
    ensures Tree(Execute(s, e, id))
  {
    match e
    case Keep =>
    case Create(p, inode) => CreateTree(s, p, inode, id);
    case SetData(p, data) => SetDataTree(s, p, data, id);
    case Unlink(p) => UnlinkTree(s, p, id);
    case Prune(p) => PruneTree(s, p, id);
    case Move(from, to) => MoveTree(s, from, to, id);
    case Alias(source, p) => AliasTree(s, source, p, id);
  }

  // ---------------------------------------------------------- plans are sound

  lemma NonRootRegular<Id>(s: Store<Id>, p: Path)
    requires Tree(s) && Present(s, p) && !IsDirectory(s, p)
    ensures p != ROOT && !HasChildren(s, p)
  {
    forall q | q in s.paths ensures Parent(q) != p {
      assert ParentIsDirectory(s, q);
    }
  }

  lemma PlacedParent<Id>(s: Store<Id>, name: Path)
    requires Tree(s) && ValidName(name) && Place(s, name).Ok?
    ensures var p := Place(s, name).value;
      ValidName(p) && ParentIsDirectory(s, p) && (name != ROOT ==> p != ROOT) && (name == ROOT ==> p == ROOT)
  {
    var q := Resolve(s, Parent(name), true, ROUNDS).value;
    ResolveSound(s, Parent(name), true, ROUNDS);
    if name == ROOT {
      ResolveCanonical(s, ROOT, true, ROUNDS);
    } else {
      assert name[|name| - 1] in name;
      ChildParent(q, name);
    }
  }

  lemma CreatePlanSound<Id>(s: Store<Id>, name: Path, inode: Inode, follow: bool, limit: int)
    requires Tree(s) && (inode.kind != Regular ==> inode.data == [])
    ensures Sound(s, CreatePlan(s, name, inode, follow, limit).effect)
  {
    if ValidName(name) && Resolve(s, name, follow, ROUNDS) == Err(NotExist) {
      PlaceOfMissing(s, name, follow);
    }
  }

  lemma WritePlanSound<Id>(b: Backend, s: Store<Id>, name: Path, data: Bytes, limit: int)
    requires Tree(s)
    ensures Sound(s, WritePlan(b, s, name, data, limit).effect)
  {
    if ValidName(name) {
      if Resolve(s, name, true, ROUNDS) == Err(NotExist) {
        PlaceOfMissing(s, name, true);
        if Place(s, name).Ok? && Present(s, Place(s, name).value) {
          NonRootRegular(s, Place(s, name).value);
        }
      } else if Resolve(s, name, true, ROUNDS).Ok? {
        ResolveSound(s, name, true, ROUNDS);
      }
    }
  }

  lemma AppendPlanSound<Id>(b: Backend, s: Store<Id>, name: Path, data: Bytes, limit: int)
    requires Tree(s)
    ensures Sound(s, AppendPlan(b, s, name, data, limit).effect)
  {
    if ValidName(name) && Resolve(s, name, true, ROUNDS) == Err(NotExist) {
      PlaceOfMissing(s, name, true);
    }
  }

  lemma RemovePlansSound<Id>(s: Store<Id>, name: Path)
    requires Tree(s)
    ensures Sound(s, RemovePlan(s, name).effect) && Sound(s, RemoveAllPlan(s, name).effect)
  {
    if name != ROOT && Resolve(s, name, false, ROUNDS).Ok? {
      ResolveSound(s, name, false, ROUNDS);
      var p := Resolve(s, name, false, ROUNDS).value;
      if !IsDirectory(s, p) {
        NonRootRegular(s, p);
      }
    }
  }

  lemma RenamePlanSound<Id>(s: Store<Id>, name: Path, newName: Path)
    requires Tree(s) && name != ROOT
    ensures Sound(s, RenamePlan(s, name, newName).effect)
  {
    var plan := RenamePlan(s, name, newName);
    if plan.effect.Move? {
      ResolveSound(s, name, false, ROUNDS);
      PlacedParent(s, newName);
      var from, to := plan.effect.from, plan.effect.to;
      if Present(s, to) {
        if !IsDirectory(s, to) {
          NonRootRegular(s, to);
        }
      } else {
        forall q | q in s.paths ensures Parent(q) != to { assert ParentIsDirectory(s, q); }
      }
      if newName == ROOT {
        assert HasChildren(s, ROOT) by { assert Parent(ROOT) == ROOT; }
      }
    }
  }

  lemma LinkPlanSound<Id>(b: Backend, s: Store<Id>, name: Path, newName: Path)
    requires Tree(s)
    ensures Sound(s, LinkPlan(b, s, name, newName).effect)
  {
    if b.InTables? && ValidName(newName) && Resolve(s, newName, false, ROUNDS) == Err(NotExist) {
      PlaceOfMissing(s, newName, false);
    }
  }

  lemma RelocatedValues<Id>(paths: map<Path, Id>, from: Path, to: Path)
    requires to != ROOT && !Within(from, to) && forall q | q in paths :: !(to <= q)
    ensures Relocated(paths, from, to).Values == paths.Values
  {
    var r := Relocated(paths, from, to);
    RelocatedEntries(paths, from, to);
    hide Relocated;
    forall id | id in paths.Values ensures id in r.Values {
      var p :| p in paths && paths[p] == id;
      var q := if Within(from, p) then to + p[|from|..] else p;
      assert Origin(from, to, q) == p;
      assert q in r && r[q] == id;
    }
    forall id | id in r.Values ensures id in paths.Values {
      var q :| q in r && r[q] == id;
    }
  }

  /** Releasing the target and then renaming the subtree is the move. */
  lemma MoveInSteps<Id>(s: Store<Id>, from: Path, to: Path, id: Id)
    requires to != ROOT && !Within(from, to) && forall q | q in s.paths :: !(to < q)
    ensures Execute(s, Move(from, to), id)
         == Store(Relocated(s.paths - {to}, from, to), Gather(s.paths - {to}, s.nodes).nodes)
  {
    RelocatedWithoutTarget(s.paths, from, to);
    RelocatedValues(s.paths - {to}, from, to);
    hide Relocated;
  }

  /** A move overwrites its target, so dropping the target first changes nothing. */
  lemma RelocatedWithoutTarget<Id>(paths: map<Path, Id>, from: Path, to: Path)
    requires to != ROOT && !Within(from, to) && forall q | q in paths :: !(to < q)
    ensures Relocated(paths - {to}, from, to) == Relocated(paths, from, to)
    ensures forall q | q in paths - {to} :: !(to <= q)
  {
    RelocatedEntries(paths, from, to);
    RelocatedEntries(paths - {to}, from, to);
    forall q | q in paths - {to} ensures !(to <= q) {
      assert |q| == |to| ==> (to <= q ==> q == to);
    }
  }

  /** A rename that passed its checks: the target has nothing below it and is not the root, and the
      move leads to a tree unless the root itself moves. */
  lemma RenameProceeds<Id>(s: Store<Id>, name: Path, newName: Path, from: Path, to: Path, id: Id)
    requires Tree(s) && ValidName(name) && ValidName(newName)
    requires Resolve(s, name, false, ROUNDS) == Ok(from) && Place(s, newName) == Ok(to)
    requires !Within(from, to) && Obstacle(s, from, to) == None
    ensures RenamePlan(s, name, newName) == Perform(Move(from, to))
    ensures to != ROOT && forall q | q in s.paths :: !(to < q)
    ensures name != ROOT ==> Tree(Execute(s, Move(from, to), id))
    ensures var t := Execute(s, Move(from, to), id); t.nodes.Keys <= s.nodes.Keys && Total(t.nodes) <= Total(s.nodes)
  {
    TotalSubset(Execute(s, Move(from, to), id).nodes, s.nodes);
    PlacedParent(s, newName);
    if Present(s, to) && !IsDirectory(s, to) {
      NonRootRegular(s, to);
    } else if !Present(s, to) {
      forall q | q in s.paths ensures Parent(q) != to { assert ParentIsDirectory(s, q); }
    } else {
      assert to == ROOT ==> Parent(ROOT) == to;
    }
    forall q | q in s.paths ensures !(to < q) { NoChildNoDescendant(s, to, q); }
    if name != ROOT {
      RenamePlanSound(s, name, newName);
      MoveTree(s, from, to, id);
    }
  }

  /** Every operation plans an effect that makes sense in the tree, unless it renames the root. */
  lemma PlanSound<Id>(b: Backend, s: Store<Id>, op: Op, limit: int)
    requires Tree(s) && !(op.Rename? && op.name == ROOT)
    ensures Sound(s, PlanOf(b, s, op, limit).effect)
  {
    match op
    case CreateFile(name, data) => CreatePlanSound(s, name, FileNode(data), false, limit);
    case WriteFile(name, data) => WritePlanSound(b, s, name, data, limit);
    case AppendFile(name, data) => AppendPlanSound(b, s, name, data, limit);
    case Mkdir(name) => CreatePlanSound(s, name, DirNode(), true, limit);
    case Remove(name) => RemovePlansSound(s, name);
    case RemoveAll(name) => RemovePlansSound(s, name);
    case Rename(name, newName) => RenamePlanSound(s, name, newName);
    case Symlink(target, name) => CreatePlanSound(s, name, LinkNode(target), false, limit);
    case Link(name, newName) => LinkPlanSound(b, s, name, newName);
    case Touch(_) =>
  }

  /** One operation on a store, drawing the identity of a new node from id. */
  ghost function Step<Id>(b: Backend, s: Store<Id>, op: Op, limit: int, id: Id): Store<Id> {
    Execute(s, PlanOf(b, s, op, limit).effect, id)
  }

  /** Where the root could be renamed to: a free name, or an empty directory. */
  ghost predicate RootMayMove<Id>(s: Store<Id>, newName: Path) {
    var place := Place(s, newName);
    && ValidName(newName) && newName != ROOT && place.Ok?
    && (place.value in s.paths ==> IsDirectory(s, place.value) && !HasChildren(s, place.value))
  }

  lemma RootRenamePlan<Id>(s: Store<Id>, newName: Path)
    requires Tree(s)
    ensures RenamePlan(s, ROOT, newName).outcome.Done? <==> RootMayMove(s, newName)
    ensures RenamePlan(s, ROOT, newName).outcome.Done? ==>
      RenamePlan(s, ROOT, newName).effect == Move(ROOT, Place(s, newName).value) && Place(s, newName).value != ROOT
    ensures !RenamePlan(s, ROOT, newName).outcome.Done? ==> RenamePlan(s, ROOT, newName).effect == Keep
  {
    ResolveCanonical(s, ROOT, false, ROUNDS);
    ResolveCanonical(s, ROOT, true, ROUNDS);
    var place := Place(s, newName);
    if place.Ok? && place.value in s.paths {
      assert s.paths[place.value] in s.paths.Values;
    }
    hide Resolve, HasChildren;
  }

  /** Exactly when an operation keeps the tree: unless it renames the root to a name that is free or an
      empty directory, which moves the root entry away. */
  lemma StepKeepsTree<Id>(b: Backend, s: Store<Id>, op: Op, limit: int, id: Id)
    requires Tree(s) && id !in s.nodes
    ensures Tree(Step(b, s, op, limit, id)) <==> !(op.Rename? && op.name == ROOT && RootMayMove(s, op.newName))
  {
    if op.Rename? && op.name == ROOT {
      RootRenamePlan(s, op.newName);
      var plan := RenamePlan(s, ROOT, op.newName);
      hide RenamePlan, RootMayMove, Place;
      if plan.outcome.Done? {
        assert ROOT !in Relocated(s.paths, ROOT, plan.effect.to) by {
          var to := plan.effect.to;
          assert forall q | q in s.paths && Within(ROOT, q) :: to + q[|ROOT|..] != ROOT;
        }
      }
    } else {
      PlanSound(b, s, op, limit);
      ExecuteTree(s, PlanOf(b, s, op, limit).effect, id);
    }
  }

  // ------------------------------------------------------------- byte totals

  lemma {:induction false} TotalRemove<Id>(nodes: map<Id, Inode>, id: Id)
    requires id in nodes
    ensures Total(nodes) == |nodes[id].data| + Total(nodes - {id})
    decreases |nodes|
  {
    var pick :| pick in nodes && Total(nodes) == |nodes[pick].data| + Total(nodes - {pick});
    if pick != id {
      TotalRemove(nodes - {pick}, id);
      TotalRemove(nodes - {id}, pick);
      assert nodes - {pick} - {id} == nodes - {id} - {pick};
    }
  }

  lemma TotalUpdate<Id>(nodes: map<Id, Inode>, id: Id, inode: Inode)
    ensures Total(nodes[id := inode]) ==
      Total(nodes) + |inode.data| - (if id in nodes then |nodes[id].data| else 0)
  {
    TotalRemove(nodes[id := inode], id);
    assert nodes[id := inode] - {id} == nodes - {id};
    if id in nodes {
      TotalRemove(nodes, id);
    } else {
      assert nodes - {id} == nodes;
    }
  }

  lemma {:induction false} TotalSubset<Id>(small: map<Id, Inode>, big: map<Id, Inode>)
    requires small.Keys <= big.Keys && forall id | id in small :: small[id] == big[id]
    ensures Total(small) <= Total(big)
    decreases |small|
  {
    if small != map[] {
      var id :| id in small;
      TotalRemove(small, id);
      TotalRemove(big, id);
      TotalSubset(small - {id}, big - {id});
    }
  }

  /** A new node bound at a free name, or over an entry that held no bytes, adds its own bytes only. */
  lemma CreateTotal<Id>(s: Store<Id>, p: Path, inode: Inode, id: Id)
    requires Tree(s) && Sound(s, Create(p, inode)) && id !in s.nodes
    ensures Total(Execute(s, Create(p, inode), id).nodes) == Total(s.nodes) + |inode.data|
  {
    var t, grown := Execute(s, Create(p, inode), id), s.nodes[id := inode];
    TotalUpdate(s.nodes, id, inode);
    var gone := if p in s.paths then {s.paths[p]} else {};
    forall v ensures v in t.nodes <==> v in grown - gone {
      if v in s.nodes && v !in gone {
        var q :| q in s.paths && s.paths[q] == v;
        assert t.paths[q] == v;
      }
      if v in gone {
        forall q | q in s.paths && q != p ensures s.paths[q] != v { assert Unshared(s, p, q); }
      }
      assert t.paths[p] == id;
    }
    assert t.nodes == grown - gone;
    if p in s.paths {
      TotalRemove(grown, s.paths[p]);
      assert Bare(s, p);
    } else {
      assert grown - gone == grown;
    }
  }

  /** How many bytes an effect may add. */
  ghost function Growth<Id>(s: Store<Id>, e: Effect): int {
    match e
    case Create(_, inode) => |inode.data|
    case SetData(p, data) => |data| - |DataAt(s, p)|
    case _ => 0
  }

  lemma EffectTotal<Id>(s: Store<Id>, e: Effect, id: Id)
    requires Tree(s) && Sound(s, e) && id !in s.nodes
    ensures Total(Execute(s, e, id).nodes) <= Total(s.nodes) + Growth(s, e)
    ensures e.Create? || e.SetData? ==> Total(Execute(s, e, id).nodes) == Total(s.nodes) + Growth(s, e)
  {
    var t := Execute(s, e, id);
    match e {
      case Keep =>
      case Alias(_, _) =>
      case Create(p, inode) => CreateTotal(s, p, inode, id);
      case SetData(p, data) => TotalUpdate(s.nodes, s.paths[p], At(s, p).(data := data));
      case Unlink(_) => TotalSubset(t.nodes, s.nodes);
      case Prune(_) => TotalSubset(t.nodes, s.nodes);
      case Move(_, _) => TotalSubset(t.nodes, s.nodes);
    }
  }

  lemma PlanWithinLimit<Id>(b: Backend, s: Store<Id>, op: Op, limit: int)
    requires limit > 0 ==> Total(s.nodes) <= limit
    ensures limit > 0 ==> Total(s.nodes) + Growth(s, PlanOf(b, s, op, limit).effect) <= limit
  {
    hide Resolve;
  }

  /** No operation takes the byte total over a positive limit. */
  lemma StepWithinLimit<Id>(b: Backend, s: Store<Id>, op: Op, limit: int, id: Id)
    requires Tree(s) && id !in s.nodes && !(op.Rename? && op.name == ROOT)
    requires limit > 0 ==> Total(s.nodes) <= limit
    ensures limit > 0 ==> Total(Step(b, s, op, limit, id).nodes) <= limit
  {
    var plan := PlanOf(b, s, op, limit);
    PlanSound(b, s, op, limit);
    PlanWithinLimit(b, s, op, limit);
    EffectTotal(s, plan.effect, id);
  }

  // ---------------------------------------------------------------- listings

  lemma IsChild(p: Path, q: Path)
    ensures q != p && Parent(q) == p ==> q == p + [q[|q| - 1]]
    ensures forall c :: q == p + [c] ==> q != p && Parent(q) == p && q[|q| - 1] == c
  {
  }

  lemma ListingKeys<Id>(s: Store<Id>, p: Path)
    ensures forall c :: c in Listing(s, p) <==> p + [c] in s.paths
    ensures forall c | c in Listing(s, p) :: Listing(s, p)[c] == InodeAt(s, p + [c])
  {
    forall c ensures c in Listing(s, p) <==> p + [c] in s.paths {
      assert Parent(p + [c]) == p && (p + [c])[|p + [c]| - 1] == c;
      forall q | q in s.paths && q != ROOT && Parent(q) == p && q[|q| - 1] == c ensures q == p + [c] {}
    }
  }

  lemma ListingIs<Id>(s: Store<Id>, p: Path, out: map<string, Inode>)
    requires forall c :: c in out <==> p + [c] in s.paths
    requires forall c | c in out :: out[c] == InodeAt(s, p + [c])
    ensures out == Listing(s, p)
  {
    ListingKeys(s, p);
    hide Listing;
  }
}

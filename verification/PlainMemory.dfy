/** What a plain tree has to do with Memory: on stores without symbolic links and without hard links, the
    operations Memory is proved to perform are those of PlainTree. */
module PlainMemory {
  import opened Results
  import opened Paths
  import Files
  import Laws = FileLaws
  import opened PlainTree

  type Store<Id> = Files.Store<Id>

  ghost predicate OwnNode<Id>(s: Store<Id>, p: Path, q: Path) {
    p in s.paths && q in s.paths && s.paths[p] == s.paths[q] ==> p == q
  }

  /** No links of either kind. */
  ghost predicate Plain<Id>(s: Store<Id>) {
    && Files.Tree(s)
    && (forall p {:trigger Files.IsLink(s, p)} | p in s.paths :: !Files.IsLink(s, p))
    && forall p, q {:trigger OwnNode(s, p, q)} :: OwnNode(s, p, q)
  }

  ghost function EntryOf(inode: Files.Inode): Entry {
    if inode.kind == Files.Directory then Dir else File(inode.data)
  }

  ghost function Shape<Id>(s: Store<Id>): Layer {
    map p | p in s.paths && Files.Present(s, p) :: EntryOf(Files.At(s, p))
  }

  lemma ShapeIs<Id>(s: Store<Id>)
    requires Files.Consistent(s)
    ensures Shape(s).Keys == s.paths.Keys
    ensures forall p | p in s.paths :: Files.Present(s, p) && Shape(s)[p] == EntryOf(Files.At(s, p))
  {
    forall p | p in s.paths ensures Files.Present(s, p) { assert s.paths[p] in s.paths.Values; }
  }

  lemma ShapeWellFormed<Id>(s: Store<Id>)
    requires Files.Tree(s)
    ensures WellFormed(Shape(s))
    ensures forall p :: (DirAt(Shape(s), p) <==> Files.IsDirectory(s, p)) && (p in Shape(s) <==> Files.Present(s, p))
  {
    ShapeIs(s);
    forall p | p in Shape(s) ensures BelowDir(Shape(s), p) { assert Files.ParentIsDirectory(s, p); }
  }

  /** Without links a name means itself, and resolution is the plain lookup. */
  lemma {:induction false} ResolveIsLookup<Id>(s: Store<Id>, p: Path, follow: bool)
    requires Plain(s) && ValidName(p)
    ensures Files.Resolve(s, p, follow, Files.ROUNDS) ==
      if Lookup(Shape(s), p).Ok? then Ok(p) else Err(Lookup(Shape(s), p).error)
    decreases |p|
  {
    ShapeWellFormed(s);
    LookupIs(Shape(s), p);
    if p in s.paths {
      Files.ResolveCanonical(s, p, follow, Files.ROUNDS);
    } else {
      assert ValidName(Parent(p)) by { assert forall c | c in Parent(p) :: c in p; }
      ResolveIsLookup(s, Parent(p), true);
      Files.ResolveByParent(s, p, follow, Files.ROUNDS);
      LookupIs(Shape(s), Parent(p));
      if Files.IsDirectory(s, Parent(p)) {
        AbsentInDirectory(s, p, follow);
      }
    }
  }

  lemma AbsentInDirectory<Id>(s: Store<Id>, p: Path, follow: bool)
    requires Files.Tree(s) && ValidName(p) && p != ROOT && p !in s.paths && Files.IsDirectory(s, Parent(p))
    ensures Files.Resolve(s, p, follow, Files.ROUNDS) == Err(NotExist)
  {
    forall k | 0 < k < |p| ensures Files.IsDirectory(s, p[..k]) {
      if k < |p| - 1 {
        Files.Ancestors(s, Parent(p), k);
        assert Parent(p)[..k] == p[..k];
      }
    }
    Files.ScanThroughDirectories(s, p, follow, 0);
    assert p[..|p|] == p;
  }

  /** The place of a new entry is the name itself. */
  lemma PlaceIsLookup<Id>(s: Store<Id>, p: Path)
    requires Plain(s) && ValidName(p)
    ensures var up := Lookup(Shape(s), Parent(p));
      Files.Place(s, p) == if up.Err? then Err(up.error) else if up.value.File? then Err(NotDir) else Ok(p)
  {
    assert ValidName(Parent(p)) by { assert forall c | c in Parent(p) :: c in p; }
    ResolveIsLookup(s, Parent(p), true);
    ShapeWellFormed(s);
    LookupIs(Shape(s), Parent(p));
    assert Child(Parent(p), p) == p;
  }

  // ---------------------------------------------------------------- effects

  /** What an entry is after another one was created. */
  ghost predicate Kept<Id>(s: Store<Id>, t: Store<Id>, p: Path, inode: Files.Inode, q: Path) {
    && Files.Present(t, q) && (q != p ==> Files.Present(s, q) && t.paths[q] == s.paths[q])
    && Files.At(t, q) == if q == p then inode else Files.At(s, q)
  }

  lemma CreatedShape<Id>(s: Store<Id>, t: Store<Id>, p: Path, inode: Files.Inode)
    requires Shape(s).Keys == s.paths.Keys && Shape(t).Keys == t.paths.Keys == s.paths.Keys + {p} && p !in s.paths
    requires forall q | q in t.paths :: Kept(s, t, p, inode, q)
    ensures Shape(t) == Shape(s)[p := EntryOf(inode)]
  {
  }

  lemma CreatedKept<Id>(s: Store<Id>, p: Path, inode: Files.Inode, id: Id)
    requires Files.Consistent(s) && p !in s.paths && id !in s.nodes
    ensures var t := Files.Execute(s, Files.Create(p, inode), id);
      && t.paths == s.paths[p := id] && Files.Consistent(t) && forall q | q in t.paths :: Kept(s, t, p, inode, q)
  {
    Laws.CreateEntries(s, p, inode, id);
    assert forall q | q in s.paths :: s.paths[q] in s.paths.Values;
    hide Files.Execute;
  }

  lemma CreatedPlain<Id>(s: Store<Id>, t: Store<Id>, p: Path, inode: Files.Inode, id: Id)
    requires Plain(s) && Files.Tree(t) && id !in s.nodes && p !in s.paths && inode.kind != Files.Kind.Symlink
    requires t.paths == s.paths[p := id] && forall q | q in t.paths :: Kept(s, t, p, inode, q)
    ensures Plain(t)
  {
    hide Files.Tree;
    forall q, r ensures OwnNode(t, q, r) {
      assert OwnNode(s, q, r);
      assert q in t.paths ==> Kept(s, t, p, inode, q);
      assert r in t.paths ==> Kept(s, t, p, inode, r);
    }
    forall q | q in t.paths ensures !Files.IsLink(t, q) {
      assert Kept(s, t, p, inode, q);
      assert q != p ==> !Files.IsLink(s, q);
    }
  }

  lemma ShapeCreate<Id>(s: Store<Id>, p: Path, inode: Files.Inode, id: Id)
    requires Plain(s) && p !in s.paths && id !in s.nodes && inode.kind != Files.Kind.Symlink
    requires Files.Sound(s, Files.Create(p, inode))
    ensures var t := Files.Execute(s, Files.Create(p, inode), id);
      Plain(t) && Shape(t) == Shape(s)[p := EntryOf(inode)]
  {
    var t := Files.Execute(s, Files.Create(p, inode), id);
    assert Files.Consistent(s);
    hide Files.Execute, Files.Consistent, EntryOf, Files.Sound, Files.Tree, Kept;
    Laws.CreateTree(s, p, inode, id);
    CreatedKept(s, p, inode, id);
    ShapeIs(s);
    ShapeIs(t);
    CreatedShape(s, t, p, inode);
    CreatedPlain(s, t, p, inode, id);
  }

  lemma ShapeSetData<Id>(s: Store<Id>, p: Path, data: Bytes, id: Id)
    requires Plain(s) && Files.IsKind(s, p, Files.Regular)
    ensures var t := Files.Execute(s, Files.SetData(p, data), id);
      Plain(t) && Shape(t) == Shape(s)[p := File(data)]
  {
    var t := Files.Execute(s, Files.SetData(p, data), id);
    Laws.SetDataTree(s, p, data, id);
    Laws.SetDataEntries(s, p, data, id);
    ShapeIs(s);
    ShapeIs(t);
    hide Files.Tree, Files.Execute, Files.Consistent;
    forall q, r ensures OwnNode(t, q, r) { assert OwnNode(s, q, r); }
    forall q | q in t.paths ensures !Files.IsLink(t, q) { assert !Files.IsLink(s, q); }
    forall q | q in t.paths ensures Shape(t)[q] == Shape(s)[p := File(data)][q] { assert OwnNode(s, p, q); }
    assert Shape(t) == Shape(s)[p := File(data)];
  }

  /** Entries dropped or renamed keep their nodes. */
  lemma ShapeGather<Id>(s: Store<Id>, paths: map<Path, Id>, origin: Path -> Path)
    requires Plain(s) && Files.Tree(Files.Gather(paths, s.nodes))
    requires forall q | q in paths :: origin(q) in s.paths && paths[q] == s.paths[origin(q)]
    requires forall q, r | q in paths && r in paths && origin(q) == origin(r) :: q == r
    ensures var t := Files.Gather(paths, s.nodes);
      && Plain(t) && Shape(t).Keys == paths.Keys && forall q | q in paths :: Shape(t)[q] == Shape(s)[origin(q)]
  {
    var t := Files.Gather(paths, s.nodes);
    assert paths.Values <= s.nodes.Keys;
    Laws.GatherEntries(paths, s.nodes);
    ShapeIs(s);
    ShapeIs(t);
    hide Files.Tree, Files.Gather, Files.Consistent;
    forall q, r ensures OwnNode(t, q, r) {
      if q in paths && r in paths {
        assert OwnNode(s, origin(q), origin(r));
      }
    }
    forall q | q in t.paths ensures !Files.IsLink(t, q) { assert !Files.IsLink(s, origin(q)); }
  }

  lemma ShapePrune<Id>(s: Store<Id>, p: Path, id: Id)
    requires Plain(s) && p != ROOT && p in s.paths
    ensures var t := Files.Execute(s, Files.Prune(p), id); Plain(t) && Shape(t) == Files.Without(Shape(s), p)
  {
    Laws.PruneTree(s, p, id);
    ShapeIs(s);
    hide Files.Tree, Files.Consistent, Files.Gather, Shape;
    ShapeGather(s, Files.Without(s.paths, p), q => q);
  }

  lemma ShapeUnlink<Id>(s: Store<Id>, p: Path, id: Id)
    requires Plain(s) && p != ROOT && p in s.paths && !Files.HasChildren(s, p)
    ensures var t := Files.Execute(s, Files.Unlink(p), id); Plain(t) && Shape(t) == Shape(s) - {p}
  {
    Laws.UnlinkTree(s, p, id);
    ShapeIs(s);
    hide Files.Tree, Files.Consistent, Files.Gather, Shape, Files.HasChildren;
    ShapeGather(s, s.paths - {p}, q => q);
  }

  /** A relocation is known by the origins of its entries. */
  lemma RelocatedIs<Id>(t: Layer, from: Path, to: Path, paths: map<Path, Id>, moved: Layer)
    requires to != ROOT && !Within(from, to) && forall q | q in paths :: !(to < q)
    requires t.Keys == paths.Keys && moved.Keys == Files.Relocated(paths, from, to).Keys
    requires forall q | q in moved :: Laws.Origin(from, to, q) in t && moved[q] == t[Laws.Origin(from, to, q)]
    ensures moved == Files.Relocated(t, from, to)
  {
    Laws.RelocatedEntries(paths, from, to);
    Laws.RelocatedEntries(t, from, to);
    hide Files.Relocated;
  }

  lemma ShapeMove<Id>(s: Store<Id>, from: Path, to: Path, id: Id)
    requires Plain(s) && Files.Sound(s, Files.Move(from, to))
    ensures var t := Files.Execute(s, Files.Move(from, to), id);
      Plain(t) && Shape(t) == Files.Relocated(Shape(s), from, to)
  {
    var paths := Files.Relocated(s.paths, from, to);
    Laws.MoveTree(s, from, to, id);
    forall q | q in s.paths ensures !(to < q) { Laws.NoChildNoDescendant(s, to, q); }
    assert to != ROOT && !Within(from, to);
    Laws.RelocatedEntries(s.paths, from, to);
    ShapeIs(s);
    hide Files.Relocated, Files.Tree, Files.Consistent, Files.Gather, Shape, Files.Sound;
    forall q, r | q in paths && r in paths && Laws.Origin(from, to, q) == Laws.Origin(from, to, r) ensures q == r {
      Laws.OriginInjective(from, to, q, r);
    }
    ShapeGather(s, paths, q => Laws.Origin(from, to, q));
    hide Plain, Laws.Origin;
    RelocatedIs(Shape(s), from, to, s.paths, Shape(Files.Gather(paths, s.nodes)));
  }

  // -------------------------------------------------------------- operations

  /** One step of Memory on a plain store without quota is the plain operation on its shape. */
  ghost predicate Does<Id>(s: Store<Id>, plan: Files.Plan, id: Id, plain: Applied) {
    var t := Files.Execute(s, plan.effect, id);
    plan.outcome == plain.outcome && Plain(t) && Shape(t) == plain.layer
  }

  lemma CreateDoes<Id>(s: Store<Id>, p: Path, inode: Files.Inode, follow: bool, id: Id)
    requires Plain(s) && ValidName(p) && id !in s.nodes && inode.kind != Files.Kind.Symlink
    requires inode.kind != Files.Regular ==> inode.data == []
    ensures Does(s, Files.CreatePlan(s, p, inode, follow, 0), id, PlainTree.Create(Shape(s), p, EntryOf(inode)))
  {
    ResolveIsLookup(s, p, follow);
    PlaceIsLookup(s, p);
    ShapeWellFormed(s);
    LookupIs(Shape(s), p);
    LookupIs(Shape(s), Parent(p));
    hide Files.Resolve, Files.Place, Shape, EntryOf, Files.Execute, Files.Tree, WellFormed, FileAbove;
    if p !in Shape(s) && Files.CreatePlan(s, p, inode, follow, 0).effect.Create? {
      ShapeCreate(s, p, inode, id);
    }
    KeepDoes(s, id);
  }

  lemma KeepDoes<Id>(s: Store<Id>, id: Id)
    ensures Files.Execute(s, Files.Keep, id) == s
  {
  }

  /** What writing does at a name that is there. */
  lemma OverwriteDoes<Id>(s: Store<Id>, p: Path, data: Bytes, id: Id)
    requires Plain(s) && FileAt(Shape(s), p)
    ensures Does(s, Files.Perform(Files.SetData(p, data)), id, Applied(Shape(s)[p := File(data)], Done))
    ensures Files.IsKind(s, p, Files.Regular) && Files.DataAt(s, p) == Shape(s)[p].data && !Files.IsDirectory(s, p)
  {
    ShapeIs(s);
    assert !Files.IsLink(s, p);
    ShapeSetData(s, p, data, id);
  }

  lemma WriteDoes<Id>(s: Store<Id>, p: Path, data: Bytes, id: Id)
    requires Plain(s) && ValidName(p) && id !in s.nodes
    ensures Does(s, Files.WritePlan(Files.InMemory, s, p, data, 0), id, PlainTree.WriteFile(Shape(s), p, data))
    ensures Does(s, Files.AppendPlan(Files.InMemory, s, p, data, 0), id, PlainTree.AppendFile(Shape(s), p, data))
  {
    ResolveIsLookup(s, p, true);
    ShapeWellFormed(s);
    LookupIs(Shape(s), p);
    KeepDoes(s, id);
    if FileAt(Shape(s), p) {
      OverwriteDoes(s, p, data, id);
      OverwriteDoes(s, p, Shape(s)[p].data + data, id);
      hide Files.Resolve, Files.Place, Shape, Files.Execute, Files.Tree, WellFormed, FileAbove, Plain;
    } else if DirAt(Shape(s), p) {
      hide Files.Resolve, Files.Place, Shape, Files.Tree, WellFormed, FileAbove, Plain;
    } else {
      CreateDoes(s, p, Files.FileNode(data), true, id);
      WriteIsCreate(s, p, data);
      hide Files.CreatePlan, Files.WritePlan, Files.AppendPlan, Shape, Files.Tree, WellFormed, FileAbove, Plain;
    }
  }

  lemma WriteIsCreate<Id>(s: Store<Id>, p: Path, data: Bytes)
    requires Plain(s) && ValidName(p) && Lookup(Shape(s), p).Err?
    ensures Files.WritePlan(Files.InMemory, s, p, data, 0) == Files.CreatePlan(s, p, Files.FileNode(data), true, 0)
    ensures Files.AppendPlan(Files.InMemory, s, p, data, 0) == Files.CreatePlan(s, p, Files.FileNode(data), true, 0)
  {
    ResolveIsLookup(s, p, true);
    PlaceIsLookup(s, p);
    ShapeWellFormed(s);
    LookupIs(Shape(s), p);
    hide Files.Resolve, Files.Place, Shape, Files.Tree, WellFormed, FileAbove;
  }

  lemma ChildrenAgree<Id>(s: Store<Id>, p: Path)
    requires Files.Tree(s)
    ensures p != ROOT ==> (Files.HasChildren(s, p) <==> HasChildren(Shape(s), p))
    ensures Files.HasChildren(s, ROOT)
  {
    ShapeIs(s);
    assert Parent(ROOT) == ROOT;
  }

  lemma RemoveDoes<Id>(s: Store<Id>, p: Path, id: Id)
    requires Plain(s) && ValidName(p) && p != ROOT
    ensures Does(s, Files.RemovePlan(s, p), id, PlainTree.Remove(Shape(s), p))
    ensures Does(s, Files.RemoveAllPlan(s, p), id, PlainTree.RemoveAll(Shape(s), p))
  {
    ResolveIsLookup(s, p, false);
    ShapeWellFormed(s);
    LookupIs(Shape(s), p);
    ChildrenAgree(s, p);
    KeepDoes(s, id);
    if p in Shape(s) {
      ShapePrune(s, p, id);
      if !(DirAt(Shape(s), p) && HasChildren(Shape(s), p)) {
        if !Files.IsDirectory(s, p) {
          Laws.NonRootRegular(s, p);
        }
        ShapeUnlink(s, p, id);
      }
    }
    hide Files.Resolve, Shape, Files.Tree, WellFormed, FileAbove, Files.Execute, Plain, HasChildren, Files.HasChildren;
  }

  lemma ObstacleAgrees<Id>(s: Store<Id>, from: Path, to: Path)
    requires Plain(s) && from in Shape(s)
    ensures Files.Obstacle(s, from, to) == PlainTree.Obstacle(Shape(s), from, to)
  {
    ShapeWellFormed(s);
    ChildrenAgree(s, to);
    hide Files.Tree, Shape, HasChildren, Files.HasChildren;
  }

  lemma RenameDoes<Id>(s: Store<Id>, from: Path, to: Path, id: Id)
    requires Plain(s) && ValidName(from) && ValidName(to) && from != ROOT
    ensures Does(s, Files.RenamePlan(s, from, to), id, PlainTree.Rename(Shape(s), from, to))
  {
    ResolveIsLookup(s, from, false);
    PlaceIsLookup(s, to);
    ShapeWellFormed(s);
    LookupIs(Shape(s), from);
    KeepDoes(s, id);
    Laws.RenamePlanSound(s, from, to);
    if from in Shape(s) {
      ObstacleAgrees(s, from, to);
    }
    if Files.RenamePlan(s, from, to).effect.Move? {
      ShapeMove(s, from, to, id);
    }
    hide Files.Resolve, Files.Place, Shape, Files.Tree, WellFormed, FileAbove, Files.Execute, Plain, Files.Sound;
  }

  /** Every operation of a plain tree is Memory's, where Memory has no quota and nothing is linked. */
  lemma MemoryIsPlain<Id>(s: Store<Id>, op: Files.Op, id: Id)
    requires Plain(s) && ValidName(op.name) && id !in s.nodes && (op.Rename? ==> ValidName(op.newName))
    requires op.Remove? || op.RemoveAll? || op.Rename? ==> op.name != ROOT
    ensures var plan := Files.PlanOf(Files.InMemory, s, op, 0);
      match op
      case CreateFile(p, data) => Does(s, plan, id, PlainTree.Create(Shape(s), p, File(data)))
      case WriteFile(p, data) => Does(s, plan, id, PlainTree.WriteFile(Shape(s), p, data))
      case AppendFile(p, data) => Does(s, plan, id, PlainTree.AppendFile(Shape(s), p, data))
      case Mkdir(p) => Does(s, plan, id, PlainTree.Create(Shape(s), p, Dir))
      case Remove(p) => Does(s, plan, id, PlainTree.Remove(Shape(s), p))
      case RemoveAll(p) => Does(s, plan, id, PlainTree.RemoveAll(Shape(s), p))
      case Rename(p, q) => Does(s, plan, id, PlainTree.Rename(Shape(s), p, q))
      case _ => true
  {
    hide Does, Plain, Shape, Files.CreatePlan, Files.WritePlan, Files.AppendPlan, Files.RenamePlan;
    match op
    case CreateFile(p, data) => CreateDoes(s, p, Files.FileNode(data), false, id);
    case WriteFile(p, data) => WriteDoes(s, p, data, id);
    case AppendFile(p, data) => WriteDoes(s, p, data, id);
    case Mkdir(p) => CreateDoes(s, p, Files.DirNode(), true, id);
    case Remove(p) => RemoveDoes(s, p, id);
    case RemoveAll(p) => RemoveDoes(s, p, id);
    case Rename(p, q) => RenameDoes(s, p, q, id);
    case _ =>
  }
}

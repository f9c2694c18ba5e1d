/** What is read right after an operation is what the operation wrote, through any name that resolves. */
module ReadBack {
  import opened Results
  import opened Paths
  import opened Files
  import opened FileLaws
  import Equivalence

  // ------------------------------------------------- resolution in a grown store

  /** Every entry of s is in t, of the same kind and with the same target. */
  ghost predicate Extends<Id>(s: Store<Id>, t: Store<Id>) {
    forall q | Present(s, q) :: Present(t, q) && At(t, q).kind == At(s, q).kind && At(t, q).target == At(s, q).target
  }

  lemma {:induction false} ScanKept<Id>(s: Store<Id>, t: Store<Id>, name: Path, follow: bool, i: nat)
    requires Extends(s, t) && i <= |name| && !Scan(s, name, follow, i).Missing?
    ensures Scan(t, name, follow, i) == Scan(s, name, follow, i)
    decreases |name| - i
  {
    if i < |name| && !IsLink(s, name[..i + 1]) && (i + 1 == |name| || IsDirectory(s, name[..i + 1])) {
      ScanKept(s, t, name, follow, i + 1);
    } else if i < |name| && IsLink(s, name[..i + 1]) && !follow && i + 1 == |name| {
      ScanKept(s, t, name, follow, i + 1);
    }
  }

  /** What resolves keeps resolving to the same entry when entries are added. */
  lemma {:induction false} ResolveKept<Id>(s: Store<Id>, t: Store<Id>, name: Path, follow: bool, rounds: nat)
    requires Extends(s, t) && Resolve(s, name, follow, rounds).Ok?
    ensures Resolve(t, name, follow, rounds) == Resolve(s, name, follow, rounds)
    decreases rounds
  {
    ScanKept(s, t, name, follow, 0);
    match Scan(s, name, follow, 0)
    case Redirected(next) => ResolveKept(s, t, next, follow, rounds - 1);
    case _ =>
  }

  /** A name whose parent resolves means the entry at its place, if that is no link to follow. */
  lemma EntryAtPlace<Id>(t: Store<Id>, name: Path, q: Path, follow: bool)
    requires Tree(t) && ValidName(name) && name != ROOT && Resolve(t, Parent(name), true, ROUNDS) == Ok(q)
    requires Present(t, Child(q, name)) && (follow ==> !IsLink(t, Child(q, name)))
    ensures Resolve(t, name, follow, ROUNDS) == Ok(Child(q, name))
  {
    var p := Child(q, name);
    ChildParent(q, name);
    assert ParentIsDirectory(t, p);
    ResolveByParent(t, name, follow, ROUNDS);
    ResolveCanonical(t, p, follow, Remaining(t, Parent(name), true, ROUNDS));
  }

  /** A new entry at the place of a name is what the name means. */
  lemma NewEntry<Id>(s: Store<Id>, t: Store<Id>, name: Path, follow: bool)
    requires Tree(s) && Tree(t) && Extends(s, t) && ValidName(name) && name != ROOT && Place(s, name).Ok?
    requires var p := Place(s, name).value; Present(t, p) && (follow ==> !IsLink(t, p))
    ensures Resolve(t, name, follow, ROUNDS) == Place(s, name)
  {
    ResolveKept(s, t, Parent(name), true, ROUNDS);
    EntryAtPlace(t, name, Resolve(s, Parent(name), true, ROUNDS).value, follow);
  }

  lemma Created<Id>(s: Store<Id>, p: Path, inode: Inode, id: Id)
    requires Tree(s) && Sound(s, Create(p, inode)) && p !in s.paths && id !in s.nodes
    ensures var t := Execute(s, Create(p, inode), id);
      Tree(t) && Extends(s, t) && Present(t, p) && At(t, p) == inode
  {
    CreateEntries(s, p, inode, id);
    CreateTree(s, p, inode, id);
    hide Execute, Tree;
  }

  lemma PresentIs<Id>(s: Store<Id>, p: Path)
    requires Consistent(s)
    ensures Present(s, p) <==> p in s.paths
  {
    assert p in s.paths ==> s.paths[p] in s.paths.Values;
  }

  /** A creation that succeeds makes an entry of the given kind, data and target at the name. */
  lemma CreationReads<Id>(s: Store<Id>, name: Path, inode: Inode, follow: bool, limit: int, id: Id, again: bool)
    requires Tree(s) && id !in s.nodes && (inode.kind != Regular ==> inode.data == [])
    requires CreatePlan(s, name, inode, follow, limit).outcome == Done
    requires again ==> inode.kind != Kind.Symlink
    ensures Tree(Execute(s, CreatePlan(s, name, inode, follow, limit).effect, id))
    ensures StatOf(Execute(s, CreatePlan(s, name, inode, follow, limit).effect, id), name, again) == Ok(inode)
    ensures Resolve(Execute(s, CreatePlan(s, name, inode, follow, limit).effect, id), name, again, ROUNDS)
      == Place(s, name)
  {
    CreatePlanSound(s, name, inode, follow, limit);
    PlaceOfMissing(s, name, follow);
    var p := Place(s, name).value;
    PresentIs(s, p);
    Created(s, p, inode, id);
    NewEntry(s, Execute(s, Create(p, inode), id), name, again);
    hide Execute, Tree, Resolve;
  }

  // ------------------------------------------------------------------ the laws

  /** The target given to Symlink is the target Readlink answers. */
  lemma SymlinkReads<Id>(b: Backend, s: Store<Id>, target: Target, name: Path, limit: int, id: Id)
    requires Tree(s) && id !in s.nodes
    requires PlanOf(b, s, Op.Symlink(target, name), limit).outcome == Done
    ensures ReadlinkOf(Step(b, s, Op.Symlink(target, name), limit, id), name) == Ok(target)
  {
    CreationReads(s, name, LinkNode(target), false, limit, id, false);
    hide CreatePlan, Execute, Tree, Resolve;
  }

  lemma CreateFileReads<Id>(b: Backend, s: Store<Id>, name: Path, data: Bytes, limit: int, id: Id)
    requires Tree(s) && id !in s.nodes && PlanOf(b, s, CreateFile(name, data), limit).outcome == Done
    ensures ReadFileOf(Step(b, s, CreateFile(name, data), limit, id), name) == Ok(data)
  {
    CreationReads(s, name, FileNode(data), false, limit, id, true);
    hide CreatePlan, Execute, Tree, Resolve;
  }

  lemma NewDirectoryEmpty<Id>(s: Store<Id>, p: Path, inode: Inode, id: Id)
    requires Tree(s) && id !in s.nodes && p !in s.paths && p != ROOT
    ensures Listing(Execute(s, Create(p, inode), id), p) == map[]
  {
    var t := Execute(s, Create(p, inode), id);
    CreateEntries(s, p, inode, id);
    ListingKeys(t, p);
    forall c ensures p + [c] !in t.paths {
      assert Parent(p + [c]) == p && |p + [c]| == |p| + 1;
      assert p + [c] in s.paths ==> ParentIsDirectory(s, p + [c]);
    }
    hide Execute, Tree, Listing;
    assert Listing(t, p).Keys == {};
  }

  /** A new directory is empty. */
  lemma MkdirReads<Id>(b: Backend, s: Store<Id>, name: Path, limit: int, id: Id)
    requires Tree(s) && id !in s.nodes && PlanOf(b, s, Mkdir(name), limit).outcome == Done
    ensures ReadDirOf(Step(b, s, Mkdir(name), limit, id), name) == Ok(map[])
  {
    hide Execute, Tree, Resolve, Listing, CreatePlan, StatOf, ReadDirOf, Place;
    CreationReads(s, name, DirNode(), true, limit, id, true);
    CreationGoes(s, name, DirNode(), true, limit);
    NewDirectoryEmpty(s, Place(s, name).value, DirNode(), id);
    ReadsDirectory(Step(b, s, Mkdir(name), limit, id), name);
  }

  lemma CreationGoes<Id>(s: Store<Id>, name: Path, inode: Inode, follow: bool, limit: int)
    requires Tree(s) && (inode.kind != Regular ==> inode.data == [])
    requires CreatePlan(s, name, inode, follow, limit).outcome == Done
    ensures Place(s, name).Ok?
    ensures CreatePlan(s, name, inode, follow, limit).effect == Create(Place(s, name).value, inode)
    ensures var p := Place(s, name).value; p !in s.paths && p != ROOT && name != ROOT
  {
    PlaceOfMissing(s, name, follow);
    PresentIs(s, Place(s, name).value);
  }

  lemma ReadsDirectory<Id>(s: Store<Id>, name: Path)
    requires StatOf(s, name, true).Ok? && StatOf(s, name, true).value.kind == Directory && Tree(s)
    ensures ReadDirOf(s, name) == Ok(Listing(s, Resolve(s, name, true, ROUNDS).value))
  {
    ResolveSound(s, name, true, ROUNDS);
    hide Resolve, Listing;
  }

  // -------------------------------------------------- writing through names

  lemma SetDataExtends<Id>(s: Store<Id>, p: Path, data: Bytes, id: Id)
    requires Tree(s) && IsKind(s, p, Regular)
    ensures var t := Execute(s, SetData(p, data), id);
      Extends(s, t) && Present(t, p) && At(t, p) == At(s, p).(data := data)
  {
    SetDataEntries(s, p, data, id);
  }

  /** Rewriting a file is read through the name it was rewritten through. */
  lemma RewriteReads<Id>(s: Store<Id>, name: Path, p: Path, data: Bytes, id: Id)
    requires Tree(s) && IsKind(s, p, Regular) && Resolve(s, name, true, ROUNDS) == Ok(p)
    ensures ReadFileOf(Execute(s, SetData(p, data), id), name) == Ok(data)
  {
    SetDataExtends(s, p, data, id);
    ResolveKept(s, Execute(s, SetData(p, data), id), name, true, ROUNDS);
    hide Execute, Tree, Resolve;
  }

  /** More walks change nothing but a name that ran out of them. */
  lemma {:induction false} MoreRounds<Id>(s: Store<Id>, name: Path, follow: bool, few: nat, many: nat)
    requires few <= many && Resolve(s, name, follow, few) != Err(Loop)
    ensures Resolve(s, name, follow, many) == Resolve(s, name, follow, few)
    decreases few
  {
    if few > 0 && ValidName(name) {
      match Scan(s, name, follow, 0)
      case Redirected(next) => MoreRounds(s, next, follow, few - 1, many - 1);
      case _ =>
    }
  }

  /** What is above a name that resolves does, too. */
  lemma {:induction false} AboveResolves<Id>(s: Store<Id>, p: Path, rest: Path, rounds: nat)
    requires IsDirectory(s, ROOT) && Resolve(s, p + rest, true, rounds).Ok? && ValidName(p + rest)
    ensures Resolve(s, p, true, rounds).Ok?
    decreases |rest|
  {
    if rest == [] {
      assert p + rest == p;
    } else {
      var name := p + rest;
      ResolveByParent(s, name, true, rounds);
      assert Parent(name) == p + Parent(rest);
      assert forall c | c in p + Parent(rest) :: c in name;
      AboveResolves(s, p, Parent(rest), rounds);
    }
  }

  /** The same store but for what stands at p. */
  ghost predicate SameBut<Id>(s: Store<Id>, t: Store<Id>, p: Path) {
    forall q | Present(s, q) && q != p ::
      Present(t, q) && At(t, q).kind == At(s, q).kind && At(t, q).target == At(s, q).target
  }

  /** A walk that does not stop at the link p is the same when something else stands there. */
  lemma {:induction false} ScanBeside<Id>(s: Store<Id>, t: Store<Id>, p: Path, name: Path, i: nat)
    requires SameBut(s, t, p) && IsLink(s, p) && i <= |name| && !Scan(s, name, true, i).Missing?
    ensures Scan(t, name, true, i) == Scan(s, name, true, i) ||
      (p <= name && Scan(s, name, true, i) == Redirected(Redirect(p, At(s, p).target, name[|p|..])))
    decreases |name| - i
  {
    if i < |name| && name[..i + 1] != p && !IsLink(s, name[..i + 1])
      && (i + 1 == |name| || IsDirectory(s, name[..i + 1]))
    {
      ScanBeside(s, t, p, name, i + 1);
    }
  }

  /** A name that resolves does not pass a link that leads nowhere. */
  lemma {:induction false} ResolveBeside<Id>(s: Store<Id>, t: Store<Id>, p: Path, left: nat, name: Path, rounds: nat)
    requires SameBut(s, t, p) && IsLink(s, p) && IsDirectory(s, ROOT)
    requires Resolve(s, p, true, left) == Err(NotExist) && Resolve(s, name, true, rounds).Ok?
    ensures Resolve(t, name, true, rounds) == Resolve(s, name, true, rounds)
    decreases rounds
  {
    ScanBeside(s, t, p, name, 0);
    if p <= name {
      var rest := name[|p|..];
      assert name == p + rest;
      AboveResolves(s, p, rest, rounds);
      MoreRounds(s, p, true, rounds, rounds + left);
      MoreRounds(s, p, true, left, rounds + left);
    } else if Scan(s, name, true, 0).Redirected? {
      ResolveBeside(s, t, p, left, Scan(s, name, true, 0).name, rounds - 1);
    }
  }

  /** A file written over a link that leads nowhere is read through the name. */
  lemma ReplacedReads<Id>(s: Store<Id>, name: Path, data: Bytes, id: Id)
    requires Tree(s) && id !in s.nodes && ValidName(name) && Resolve(s, name, true, ROUNDS) == Err(NotExist)
    requires Place(s, name).Ok?
    ensures ReadFileOf(Execute(s, Create(Place(s, name).value, FileNode(data)), id), name) == Ok(data)
  {
    var p, q := Place(s, name).value, Resolve(s, Parent(name), true, ROUNDS).value;
    var t := Execute(s, Create(p, FileNode(data)), id);
    PlaceOfMissing(s, name, true);
    PresentIs(s, p);
    CreateEntries(s, p, FileNode(data), id);
    CreateTree(s, p, FileNode(data), id);
    if p in s.paths {
      ResolveByParent(s, name, true, ROUNDS);
      var left := Remaining(s, Parent(name), true, ROUNDS);
      ResolveBeside(s, t, p, left, Parent(name), ROUNDS);
      EntryAtPlace(t, name, q, true);
    } else {
      Created(s, p, FileNode(data), id);
      NewEntry(s, t, name, true);
    }
    hide Execute, Tree, Resolve;
  }

  lemma WriteFileReads<Id>(b: Backend, s: Store<Id>, name: Path, data: Bytes, limit: int, id: Id)
    requires Tree(s) && id !in s.nodes && PlanOf(b, s, Op.WriteFile(name, data), limit).outcome == Done
    ensures ReadFileOf(Step(b, s, Op.WriteFile(name, data), limit, id), name) == Ok(data)
  {
    var r := Resolve(s, name, true, ROUNDS);
    if r.Ok? {
      ResolveSound(s, name, true, ROUNDS);
      hide Resolve, Tree, Execute;
      RewriteReads(s, name, r.value, data, id);
    } else {
      hide Resolve, Tree, Execute, ReadFileOf, Place;
      ReplacedReads(s, name, data, id);
    }
  }

  /** Appended data follows what was read before, or is all there is in a new file. */
  lemma AppendFileReads<Id>(b: Backend, s: Store<Id>, name: Path, data: Bytes, limit: int, id: Id)
    requires Tree(s) && id !in s.nodes && PlanOf(b, s, Op.AppendFile(name, data), limit).outcome == Done
    ensures ReadFileOf(Step(b, s, Op.AppendFile(name, data), limit, id), name)
      == Ok((if ReadFileOf(s, name).Ok? then ReadFileOf(s, name).value else []) + data)
  {
    var r := Resolve(s, name, true, ROUNDS);
    if r.Ok? {
      hide Resolve, Tree, Execute;
      RewriteReads(s, name, r.value, DataAt(s, r.value) + data, id);
    } else {
      assert ReadFileOf(s, name).Err? && [] + data == data;
      hide Resolve, Tree, Execute, ReadFileOf, Place;
      ReplacedReads(s, name, data, id);
    }
  }

  /** A hard link names the node the first name means, so that both names read and write one file. */
  lemma LinkShares<Id>(b: Backend, s: Store<Id>, name: Path, newName: Path, limit: int, id: Id)
    requires Tree(s) && id !in s.nodes && PlanOf(b, s, Op.Link(name, newName), limit).outcome == Done
    ensures var t, source := Step(b, s, Op.Link(name, newName), limit, id), Resolve(s, name, true, ROUNDS);
      var linked := Resolve(t, newName, true, ROUNDS);
      && source.Ok? && linked.Ok? && Resolve(t, name, true, ROUNDS) == source
      && source.value != linked.value && Present(t, source.value) && Present(t, linked.value)
      && t.paths[linked.value] == t.paths[source.value] == s.paths[source.value]
  {
    var source := Resolve(s, name, true, ROUNDS).value;
    LinkPlanSound(b, s, name, newName);
    LinkPlace(b, s, name, newName);
    var p := Place(s, newName).value;
    ResolveSound(s, name, true, ROUNDS);
    AliasEntries(s, source, p, id);
    AliasTree(s, source, p, id);
    var t := Execute(s, Alias(source, p), id);
    hide Tree, Execute, Sound, LinkPlan;
    ResolveKept(s, t, name, true, ROUNDS);
    NewEntry(s, t, newName, true);
    hide Resolve, Place;
  }

  lemma LinkPlace<Id>(b: Backend, s: Store<Id>, name: Path, newName: Path)
    requires Tree(s) && LinkPlan(b, s, name, newName).outcome == Done
    ensures Place(s, newName).Ok? && ValidName(newName) && newName != ROOT && Resolve(s, name, true, ROUNDS).Ok?
    ensures LinkPlan(b, s, name, newName).effect == Alias(Resolve(s, name, true, ROUNDS).value, Place(s, newName).value)
    ensures Place(s, newName).value !in s.paths
  {
    if b.InMemory? {
      ResolveCanonical(s, Parent(newName), true, ROUNDS);
      assert newName != ROOT ==> Child(Parent(newName), newName) == newName;
      PresentIs(s, newName);
      assert Present(s, ROOT);
    } else {
      PlaceOfMissing(s, newName, false);
      PresentIs(s, Place(s, newName).value);
    }
    hide Resolve, Tree;
  }

  // ------------------------------------------------------------------ removal

  /** Nothing at or below p is left, and all else is as it was. */
  ghost predicate Pruned<Id>(s: Store<Id>, t: Store<Id>, p: Path) {
    forall q :: (Present(t, q) <==> Present(s, q) && !Within(p, q)) && (Present(t, q) ==> At(t, q) == At(s, q))
  }

  lemma {:induction false} ScanPruned<Id>(s: Store<Id>, t: Store<Id>, p: Path, name: Path, follow: bool, i: nat)
    requires Pruned(s, t, p) && p != ROOT && i <= |name|
    ensures Scan(t, name, follow, i) == Missing || Scan(t, name, follow, i) == Scan(s, name, follow, i)
    ensures Scan(s, name, follow, i) == Found && p <= name && i < |p| ==> Scan(t, name, follow, i) == Missing
    decreases |name| - i
  {
    if i < |name| {
      var cur := name[..i + 1];
      assert i + 1 == |p| && p <= name ==> cur == p;
      ScanPruned(s, t, p, name, follow, i + 1);
    }
  }

  /** A name that meant an entry at or below p means nothing any more. */
  lemma {:induction false} PrunedMissing<Id>(s: Store<Id>, t: Store<Id>, p: Path, name: Path, follow: bool, rounds: nat)
    requires Pruned(s, t, p) && p != ROOT
    requires Resolve(s, name, follow, rounds).Ok? && p <= Resolve(s, name, follow, rounds).value
    ensures Resolve(t, name, follow, rounds) == Err(NotExist)
    decreases rounds
  {
    ScanPruned(s, t, p, name, follow, 0);
    match Scan(s, name, follow, 0)
    case Redirected(next) => PrunedMissing(s, t, p, next, follow, rounds - 1);
    case _ =>
  }

  lemma GoneOf<Id>(s: Store<Id>, e: Effect, id: Id)
    requires Tree(s) && (e.Unlink? || e.Prune?) && Sound(s, e)
    ensures Pruned(s, Execute(s, e, id), e.path) && e.path != ROOT
  {
    var t, p := Execute(s, e, id), e.path;
    if e.Unlink? {
      forall q | q in s.paths && Within(p, q) ensures q == p { NoChildNoDescendant(s, p, q); }
    }
    forall q ensures (Present(t, q) <==> Present(s, q) && !Within(p, q)) && (Present(t, q) ==> At(t, q) == At(s, q)) {
      assert q in t.paths ==> t.paths[q] in t.paths.Values;
    }
  }

  /** A removed name means nothing, and neither does a name removed with all below it. */
  lemma RemovalReads<Id>(b: Backend, s: Store<Id>, op: Op, limit: int, id: Id)
    requires Tree(s) && (op.Remove? || op.RemoveAll?) && PlanOf(b, s, op, limit).outcome == Done
    ensures StatOf(Step(b, s, op, limit, id), op.name, false) == Err(NotExist)
  {
    RemovePlansSound(s, op.name);
    var r := Resolve(s, op.name, false, ROUNDS);
    if r.Ok? {
      var e := PlanOf(b, s, op, limit).effect;
      GoneOf(s, e, id);
      PrunedMissing(s, Execute(s, e, id), r.value, op.name, false, ROUNDS);
    }
    hide Resolve, Tree, Execute;
  }

  lemma RenameMoves<Id>(s: Store<Id>, name: Path, newName: Path, id: Id)
    requires Tree(s) && name != ROOT && newName != ROOT && Present(s, name)
    requires IsDirectory(s, Parent(newName)) && RenamePlan(s, name, newName).outcome == Done
    ensures RenamePlan(s, name, newName) == Perform(Move(name, newName)) && Sound(s, Move(name, newName))
    ensures Tree(Execute(s, Move(name, newName), id)) && forall q | q in s.paths :: !(newName < q)
  {
    ResolveCanonical(s, name, false, ROUNDS);
    ResolveCanonical(s, Parent(newName), true, ROUNDS);
    assert Child(Parent(newName), newName) == newName;
    RenamePlanSound(s, name, newName);
    hide Resolve, Tree;
    MoveTree(s, name, newName, id);
    forall q | q in s.paths ensures !(newName < q) { NoChildNoDescendant(s, newName, q); }
    hide Execute;
  }

  lemma MovedNames<Id>(paths: map<Path, Id>, from: Path, to: Path, rest: Path)
    requires from != ROOT && to != ROOT && !Within(from, to) && from in paths && from + rest in paths
    requires forall q | q in paths :: !(to < q)
    ensures var r := Relocated(paths, from, to);
      && to + rest in r && r[to + rest] == paths[from + rest] && from !in r
      && (forall q | q in paths && !(from <= q) && q != to :: q in r && r[q] == paths[q])
      && forall q | q in r :: Origin(from, to, q) in paths && r[q] == paths[Origin(from, to, q)]
  {
    RelocatedEntries(paths, from, to);
    hide Relocated;
    assert from <= from + rest && to <= to + rest && Origin(from, to, to + rest) == from + rest;
    assert to <= from ==> to == from || to < from;
    assert forall q | q in paths && to <= q :: q == to;
  }

  lemma MovedEntries<Id>(s: Store<Id>, from: Path, to: Path, rest: Path, id: Id)
    requires Tree(s) && Sound(s, Move(from, to)) && Present(s, from) && Present(s, from + rest)
    requires forall q | q in s.paths :: !(to < q)
    ensures var t := Execute(s, Move(from, to), id);
      && Present(t, to + rest) && At(t, to + rest) == At(s, from + rest) && from !in t.paths
      && (forall q | q in s.paths && !(from <= q) && q != to :: Present(t, q) && At(t, q) == At(s, q))
  {
    var r := Relocated(s.paths, from, to);
    MovedNames(s.paths, from, to, rest);
    forall q | q in r ensures r[q] in s.nodes { assert s.paths[Origin(from, to, q)] in s.paths.Values; }
    hide Relocated, Origin;
    GatherEntries(r, s.nodes);
  }

  /** After a rename between names below real directories, the new name and all below it mean what the old
      ones did, and the old name means nothing. */
  lemma RenameReads<Id>(b: Backend, s: Store<Id>, name: Path, newName: Path, rest: Path, limit: int, id: Id)
    requires Tree(s) && id !in s.nodes && name != ROOT && newName != ROOT
    requires IsDirectory(s, Parent(name)) && IsDirectory(s, Parent(newName)) && Present(s, name + rest)
    requires PlanOf(b, s, Op.Rename(name, newName), limit).outcome == Done
    ensures var t := Step(b, s, Op.Rename(name, newName), limit, id);
      StatOf(t, newName + rest, false) == StatOf(s, name + rest, false) && StatOf(t, name, false) == Err(NotExist)
  {
    var t := Execute(s, Move(name, newName), id);
    assert Present(s, name) by {
      if rest == [] {
        assert name + rest == name;
      } else {
        Ancestors(s, name + rest, |name|);
        assert (name + rest)[..|name|] == name;
      }
    }
    RenameMoves(s, name, newName, id);
    MovedEntries(s, name, newName, rest, id);
    ResolveCanonical(s, name + rest, false, ROUNDS);
    ResolveCanonical(t, newName + rest, false, ROUNDS);
    OldNameMissing(s, t, name, newName);
    hide Resolve, Execute, Tree, RenamePlan;
  }

  lemma OldNameMissing<Id>(s: Store<Id>, t: Store<Id>, name: Path, newName: Path)
    requires Tree(s) && Tree(t) && Present(s, name) && name != ROOT && name !in t.paths && !(newName < name)
    requires forall q | q in s.paths && !(name <= q) && q != newName :: Present(t, q) && At(t, q) == At(s, q)
    ensures Resolve(t, name, false, ROUNDS) == Err(NotExist)
  {
    assert ParentIsDirectory(s, name);
    assert Parent(name) != newName && !(name <= Parent(name));
    Equivalence.ResolveAbsent(t, name, ROUNDS);
  }
}

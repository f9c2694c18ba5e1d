/** pkg/fs/copy.go: copying a source tree to a mount point of a database filesystem. */
module CopyTree {
  import opened Results
  import opened Paths
  import opened Files
  import opened FileLaws
  import opened Rebasing
  import opened Merging
  import opened Database

  // ------------------------------------------------------------ one directory

  /** Where the copying of a directory's entries stands when those in rest are left. */
  ghost predicate Copying(m: Merging, t: Store<int>, name: Path, done: set<Path>, now: set<Path>, rest: set<string>) {
    && Mergeable(m) && Standing(m, t, now)
    && name in now && forall q :: q in now <==> q in done || (q in m.source && name < q && q[|name|] !in rest)
  }

  lemma CopyStarts(m: Merging, t: Store<int>, name: Path, done: set<Path>)
    requires Mergeable(m) && Standing(m, t, done) && name in done
    ensures Copying(m, t, name, done, done, Names(m.source, name))
  {
    forall q | q in m.source && name < q ensures q[|name|] in Names(m.source, name) {
      assert q[..|name| + 1] == name + [q[|name|]];
      if |name| + 1 < |q| {
        SourceAbove(m.source, q, |name| + 1);
      }
    }
  }

  lemma CopyStep(m: Merging, t: Store<int>, name: Path, done: set<Path>, now: set<Path>, rest: set<string>, e: string)
    requires Copying(m, t, name, done, now, rest) && e in rest && name + [e] in m.source
    requires forall q | q in done :: !(name < q)
    ensures AtEntry(m, t, now, name + [e])
    ensures forall u | Standing(m, u, now + Below(m.source, name + [e])) ::
      Copying(m, u, name, done, now + Below(m.source, name + [e]), rest - {e})
    ensures Below(m.source, name + [e]) < Below(m.source, name)
  {
    var child := name + [e];
    assert Parent(child) == name;
    forall q ensures child <= q <==> name < q && q[|name|] == e {
      if name < q && q[|name|] == e {
        assert q[..|name| + 1] == child;
      }
    }
    assert name in Below(m.source, name) && name !in Below(m.source, child);
    hide Mergeable, Standing;
  }

  lemma CopyEnds(m: Merging, t: Store<int>, name: Path, done: set<Path>, now: set<Path>)
    requires Copying(m, t, name, done, now, {}) && name in m.source && name in done
    ensures now == done + Below(m.source, name)
  {
    forall q ensures q in now <==> q in done || q in Below(m.source, name) {
      assert name <= q <==> name < q || name == q;
    }
    hide Mergeable, Standing;
  }

  /** A mounted empty source and a directory already there: nothing is left to do. */
  ghost predicate AlreadyThere(s: Store<int>, target: Path, source: Source) {
    IsDirectory(s, target) && Names(source, ROOT) == {}
  }

  /** A copied directory is found again. */
  lemma DirectoryThere(m: Merging, t: Store<int>, done: set<Path>, name: Path)
    requires Standing(m, t, done) && name in done && m.source[name].kind == Directory
    ensures TouchPlan(t, m.root + name).outcome == Done
  {
    assert (m.root + name)[|m.root|..] == name && EntryStands(m, t, done, m.root + name);
    FollowedThere(t, m.root + name);
  }

  class TreeCopier {
    const destination: Database
    const source: Source
    const root: Path

    constructor (destination: Database, source: Source, root: Path)
      ensures this.destination == destination && this.source == source && this.root == root
    {
      this.destination, this.source, this.root := destination, source, root;
    }

    ghost predicate Ready()
      reads destination
    {
      SourceTree(source) && destination.Valid()
    }

    /** This copier merges as m says. */
    ghost predicate Merges(m: Merging) {
      m.root == root && m.source == source && Mergeable(m)
    }

    /** What RemoveAll and Symlink are going to do. */
    lemma LinkPlans(name: Path, m: Merging, done: set<Path>)
      requires Ready() && Merges(m) && AtEntry(m, destination.Abs(), done, name)
      requires source[name].kind == Kind.Symlink
      ensures var t, p, link := destination.Abs(), root + name, LinkNode(Rebase(root, source[name].target));
        var u := Execute(t, RemoveAllPlan(t, p).effect, 0);
        && RemoveAllPlan(t, p).outcome == Done
        && CreatePlan(u, p, link, false, destination.limit) == Perform(Create(p, link))
        && Standing(m, Execute(u, Create(p, link), destination.nextId), done + {name})
    {
      var t, p := destination.Abs(), root + name;
      var u := Execute(t, RemoveAllPlan(t, p).effect, 0);
      EntryPlace(m, t, done, name);
      NameCleared(t, p);
      assert !(p <= Parent(p));
      LinkMade(m, t, u, done, name, destination.nextId);
      FreshPlans(u, p, LinkNode(Rebase(root, source[name].target)), [], false, destination.limit);
      hide Standing, Mergeable, Tree, RemoveAllPlan, CreatePlan;
    }

    /** What WriteFile is going to do. */
    lemma FilePlan(name: Path, m: Merging, done: set<Path>)
      requires Ready() && Merges(m) && AtEntry(m, destination.Abs(), done, name) && source[name].kind == Regular
      ensures var t, p, data := destination.Abs(), root + name, source[name].data;
        var plan := WritePlan(InTables, t, p, data, destination.limit);
        && (destination.limit <= 0 ==> plan.outcome == Done)
        && (plan.outcome == Done ==> Standing(m, Execute(t, plan.effect, destination.nextId), done + {name}))
    {
      var t, p, data := destination.Abs(), root + name, source[name].data;
      EntryPlace(m, t, done, name);
      if p in t.paths {
        ResolveCanonical(t, p, true, ROUNDS);
        FileWritten(m, t, done, name, destination.nextId);
      } else {
        FreshPlans(t, p, FileNode(data), data, false, destination.limit);
        EntryCreated(m, t, done, name, destination.nextId);
      }
      hide Standing, Mergeable, Tree, Resolve;
    }

    /** What MkdirAll is going to do. */
    lemma DirectoryPlan(name: Path, m: Merging, done: set<Path>)
      requires Ready() && Merges(m) && AtEntry(m, destination.Abs(), done, name) && source[name].kind == Kind.Directory
      ensures var w := MkdirEach(destination.Abs(), destination.nextId, root + name, |root + name|, destination.limit);
        w.outcome == Done && Standing(m, w.store, done + {name}) && ValidName(root + name)
    {
      var t, p := destination.Abs(), root + name;
      EntryPlace(m, t, done, name);
      LastDirectory(t, destination.nextId, p, destination.limit);
      if p in t.paths {
        DirectoryMet(m, t, done, name);
      } else {
        EntryCreated(m, t, done, name, destination.nextId);
      }
      hide Standing, Mergeable, Tree;
    }

    method Symlink(name: Path, target: Path, ghost m: Merging, ghost done: set<Path>, ghost clear: bool)
      returns (outcome: Outcome)
      requires Ready() && name in source && source[name].kind == Kind.Symlink && target == root + name
      requires clear ==> Merges(m) && AtEntry(m, destination.Abs(), done, name)
      modifies destination`paths, destination`nodes, destination`nextId
      ensures Ready()
      ensures clear ==> outcome == Done && Standing(m, destination.Abs(), done + {name})
    {
      var link := Rebase(root, source[name].target);
      if clear {
        LinkPlans(name, m, done);
      }
      hide Tree, Standing, AtEntry, Mergeable, Sound, CreatePlan, RemoveAllPlan;
      outcome := destination.RemoveAll(target);
      if outcome != Done {
        return;
      }
      outcome := destination.Symlink(link, target);
    }

    method File(name: Path, target: Path, ghost m: Merging, ghost done: set<Path>, ghost clear: bool)
      returns (outcome: Outcome)
      requires Ready() && name in source && source[name].kind == Regular && target == root + name
      requires clear ==> Merges(m) && AtEntry(m, destination.Abs(), done, name)
      modifies destination`paths, destination`nodes, destination`nextId
      ensures Ready()
      ensures clear && outcome == Done ==> Standing(m, destination.Abs(), done + {name})
      ensures clear && destination.limit <= 0 ==> outcome == Done
    {
      var data := source[name].data;
      if clear {
        FilePlan(name, m, done);
      }
      hide Tree, AtEntry, Mergeable, Sound, WritePlan, TouchPlan;
      outcome := destination.WriteFile(target, data);
      if outcome == Done {
        if clear {
          FileThere(m, destination.Abs(), done + {name}, name);
        }
        hide Standing;
        outcome := destination.Touch(target);
      }
    }

    method Entry(name: Path, ghost m: Merging, ghost done: set<Path>, ghost clear: bool)
      returns (outcome: Outcome)
      requires Ready() && name in source
      requires clear ==> Merges(m) && AtEntry(m, destination.Abs(), done, name)
      modifies destination`paths, destination`nodes, destination`nextId
      ensures Ready()
      ensures clear && outcome == Done ==> Standing(m, destination.Abs(), done + Below(source, name))
      ensures clear && destination.limit <= 0 ==> outcome == Done
      decreases Below(source, name), 2
    {
      var target, info := root + name, source[name];
      if info.kind != Kind.Directory {
        LeafBelow(source, name);
      }
      hide Standing, AtEntry, Mergeable;
      match info.kind {
        case Symlink => outcome := Symlink(name, target, m, done, clear);
        case Directory => outcome := SubDirectory(name, target, m, done, clear);
        case Regular => outcome := File(name, target, m, done, clear);
      }
    }

    method SubDirectory(name: Path, target: Path, ghost m: Merging, ghost done: set<Path>, ghost clear: bool)
      returns (outcome: Outcome)
      requires Ready() && name in source && source[name].kind == Kind.Directory && target == root + name
      requires clear ==> Merges(m) && AtEntry(m, destination.Abs(), done, name)
      modifies destination`paths, destination`nodes, destination`nextId
      ensures Ready()
      ensures clear && outcome == Done ==> Standing(m, destination.Abs(), done + Below(source, name))
      ensures clear && destination.limit <= 0 ==> outcome == Done
      decreases Below(source, name), 1
    {
      if clear {
        DirectoryPlan(name, m, done);
        assert done + {name} + Below(source, name) == done + Below(source, name);
        assert forall q | q in done + {name} :: !(name < q);
      }
      hide Tree, Standing, AtEntry, Mergeable, MkdirEach, TouchPlan, SourceTree;
      outcome := destination.MkdirAll(target);
      if outcome != Done {
        return;
      }
      outcome := Directory(name, m, done + {name}, clear);
      if outcome != Done {
        return;
      }
      if clear {
        DirectoryThere(m, destination.Abs(), done + Below(source, name), name);
      }
      outcome := destination.Touch(target);
    }

    method Directory(name: Path, ghost m: Merging, ghost done: set<Path>, ghost clear: bool)
      returns (outcome: Outcome)
      requires Ready() && name in source
      requires clear ==> Merges(m) && Standing(m, destination.Abs(), done)
      requires clear ==> name in done && forall q | q in done :: !(name < q)
      modifies destination`paths, destination`nodes, destination`nextId
      ensures Ready()
      ensures clear && outcome == Done ==> Standing(m, destination.Abs(), done + Below(source, name))
      ensures clear && destination.limit <= 0 ==> outcome == Done
      ensures Names(source, name) == {} ==> outcome == Done && destination.Abs() == old(destination.Abs())
      decreases Below(source, name), 0
    {
      var rest := Names(source, name);
      ghost var now := done;
      outcome := Done;
      if clear {
        CopyStarts(m, destination.Abs(), name, done);
      }
      hide Tree, Standing, AtEntry, Mergeable, SourceTree;
      while rest != {} && outcome == Done
        invariant Ready() && rest <= Names(source, name)
        invariant Names(source, name) == {} ==> outcome == Done && destination.Abs() == old(destination.Abs())
        invariant clear && outcome == Done ==> Copying(m, destination.Abs(), name, done, now, rest)
        invariant clear && destination.limit <= 0 ==> outcome == Done
        decreases rest
      {
        var c :| c in rest;
        Deeper(name, c);
        if clear {
          CopyStep(m, destination.Abs(), name, done, now, rest, c);
        }
        rest := rest - {c};
        outcome := Entry(name + [c], m, now, clear);
        now := now + Below(source, name + [c]);
      }
      if clear && outcome == Done {
        CopyEnds(m, destination.Abs(), name, done, now);
      }
    }

    /** What MkdirAll of the mount point is going to do. */
    lemma Start(m: Merging)
      requires Ready() && m == Merging(destination.Abs(), root, source)
      ensures var w := MkdirEach(destination.Abs(), destination.nextId, root, |root|, destination.limit);
        && (Mergeable(m) ==> ValidName(root) && w.outcome == Done && Standing(m, w.store, {ROOT}))
        && (AlreadyThere(destination.Abs(), root, source) ==>
              ValidName(root) && w == Made(destination.Abs(), destination.nextId, Done))
    {
      var s := destination.Abs();
      if Mergeable(m) {
        MergeStarts(m, destination.nextId, destination.limit);
      }
      if AlreadyThere(s, root, source) {
        WayThere(s, destination.nextId, root, destination.limit);
      }
      hide Tree, Standing, MkdirEach, Harmless;
    }

    /** CopyTree, with the copier at hand. */
    method Copy(ghost m: Merging) returns (outcome: Outcome)
      requires Ready() && m == Merging(destination.Abs(), root, source)
      modifies destination`paths, destination`nodes, destination`nextId
      ensures Ready()
      ensures Mergeable(m) && outcome == Done ==> Standing(m, destination.Abs(), source.Keys)
      ensures Mergeable(m) && destination.limit <= 0 ==> outcome == Done
      ensures old(AlreadyThere(destination.Abs(), root, source)) ==>
        outcome == Done && destination.Abs() == old(destination.Abs())
    {
      Start(m);
      assert {ROOT} + Below(source, ROOT) == source.Keys;
      hide Tree, MkdirEach, Mergeable, Standing, Database.Valid, Below;
      outcome := destination.MkdirAll(root);
      if outcome != Done {
        return;
      }
      outcome := Directory(ROOT, m, {ROOT}, Mergeable(m));
    }

    lemma Deeper(name: Path, c: string)
      requires name in source
      ensures Below(source, name + [c]) < Below(source, name)
    {
      assert name in Below(source, name) && name !in Below(source, name + [c]);
    }
  }

  // ---------------------------------------------------------------- CopyTree

  lemma WayThere(s: Store<int>, id: int, target: Path, limit: int)
    requires Tree(s) && IsDirectory(s, target)
    ensures ValidName(target) && MkdirEach(s, id, target, |target|, limit) == Made(s, id, Done)
  {
    forall j | 0 < j <= |target| ensures IsDirectory(s, target[..j]) {
      if j < |target| {
        Ancestors(s, target, j);
      } else {
        assert target[..j] == target;
      }
    }
    MkdirEachNothing(s, id, target, |target|, limit);
  }

  lemma FileThere(m: Merging, t: Store<int>, done: set<Path>, name: Path)
    requires Standing(m, t, done) && name in done && m.source[name].kind == Regular
    ensures TouchPlan(t, m.root + name).outcome == Done
  {
    assert (m.root + name)[|m.root|..] == name && EntryStands(m, t, done, m.root + name);
    FollowedThere(t, m.root + name);
  }

  method CopyTree(destination: Database, target: Path, source: Source) returns (outcome: Outcome)
    requires SourceTree(source) && destination.Valid()
    modifies destination`paths, destination`nodes, destination`nextId
    ensures destination.Valid()
    ensures var m := Merging(old(destination.Abs()), target, source);
      Mergeable(m) ==>
        && (outcome == Done ==>
              PlacesMerged(m, destination.Abs()) && (DataMerged(m, destination.Abs()) <==> Harmless(m)))
        && (destination.limit <= 0 ==> outcome == Done)
    ensures old(Free(destination.Abs(), target)) && outcome == Done ==>
      && Holds(Content(destination.Abs()), target, source) && Mirrors(Content(destination.Abs()), target, source)
      && KeptOutside(old(Content(destination.Abs())), Content(destination.Abs()), target)
    ensures old(Free(destination.Abs(), target)) && destination.limit <= 0 ==> outcome == Done
    ensures old(AlreadyThere(destination.Abs(), target, source)) ==>
      outcome == Done && destination.Abs() == old(destination.Abs())
  {
    var copier := new TreeCopier(destination, source, target);
    ghost var m := Merging(destination.Abs(), target, source);
    if Free(destination.Abs(), target) {
      FreeMerges(destination.Abs(), target, source);
    }
    outcome := copier.Copy(m);
    if Mergeable(m) && outcome == Done {
      CopyDone(m, destination.Abs());
    }
    hide Content, Standing, Mergeable, Harmless, PlacesMerged, DataMerged, Mirrors, Holds, KeptOutside, Tree;
  }

  /** What a finished copy amounts to. */
  lemma CopyDone(m: Merging, t: Store<int>)
    requires Mergeable(m) && Standing(m, t, m.source.Keys)
    ensures PlacesMerged(m, t) && (DataMerged(m, t) <==> Harmless(m))
    ensures Free(m.start, m.root) ==> Holds(Content(t), m.root, m.source) && Mirrors(Content(t), m.root, m.source)
    ensures Free(m.start, m.root) ==> KeptOutside(Content(m.start), Content(t), m.root)
  {
    StandingPlaces(m, t);
    StandingData(m, t);
    if Free(m.start, m.root) {
      StandingHolds(m, t);
      HoldsMirrors(Content(t), m.root, m.source);
    }
    hide Content, Standing, Harmless, PlacesMerged, DataMerged, Mirrors, Holds, KeptOutside, Tree;
  }

  // -------------------------------------------------------------- ApplyMount

  datatype MountPolicy = IfAbsent | Merge | Replace | Unknown

  /** On the way to a mount point there is nothing but directories and missing entries. */
  ghost predicate Approachable(s: Store<int>, target: Path) {
    ValidName(target) && ClearTo(s, target, |target|)
  }

  /** When a mount is going to copy, onto a free mount point or one that is cleared first. */
  ghost predicate Mounts(s: Store<int>, target: Path, policy: MountPolicy) {
    && Approachable(s, target)
    && Populated(s, target).Ok? && (policy.Replace? || (policy.IfAbsent? && !Populated(s, target).value))
  }

  /** Whether a mount point already holds data; an empty directory counts as free. */
  ghost function Populated(s: Store<int>, target: Path): Result<bool> {
    match StatOf(s, target, false)
    case Err(e) => if e == NotExist then Ok(false) else Err(e)
    case Ok(inode) =>
      if inode.kind != Directory then Ok(true)
      else match ReadDirOf(s, target)
        case Err(e) => Err(e)
        case Ok(entries) => Ok(entries != map[])
  }

  lemma {:induction false} ScanApproach(s: Store<int>, target: Path, i: nat)
    requires i <= |target| && ClearTo(s, target, |target|) && target !in s.paths && Consistent(s)
    ensures i < |target| ==> Scan(s, target, false, i) == Missing
    decreases |target| - i
  {
    if i < |target| {
      assert target[..|target|] == target;
      if i + 1 < |target| && target[..i + 1] in s.paths {
        assert IsDirectory(s, target[..i + 1]);
      }
      ScanApproach(s, target, i + 1);
    }
  }

  /** An approachable name means itself. */
  lemma ApproachIs(s: Store<int>, target: Path)
    requires Tree(s) && Approachable(s, target)
    ensures Resolve(s, target, false, ROUNDS) == if target in s.paths then Ok(target) else Err(NotExist)
  {
    if target in s.paths {
      ResolveCanonical(s, target, false, ROUNDS);
    } else {
      ScanApproach(s, target, 0);
    }
  }

  lemma ChildOnWay(s: Store<int>, p: Path, q: Path)
    requires Tree(s) && q in s.paths && p < q
    ensures p + [q[|p|]] in s.paths
  {
    assert q[..|p| + 1] == p + [q[|p|]];
    if |p| + 1 < |q| {
      Ancestors(s, q, |p| + 1);
    } else {
      assert q[..|p| + 1] == q;
    }
  }

  /** An approachable mount point without content is free. */
  lemma UnpopulatedIsFree(s: Store<int>, target: Path)
    requires Tree(s) && Approachable(s, target) && Populated(s, target) == Ok(false)
    ensures Free(s, target)
  {
    ApproachIs(s, target);
    if target in s.paths {
      assert target in s.paths && s.paths[target] in s.paths.Values;
      ResolveCanonical(s, target, true, ROUNDS);
      ListingKeys(s, target);
      hide Listing, Resolve;
      forall q | q in s.paths ensures !(target < q) {
        if target < q {
          ChildOnWay(s, target, q);
        }
      }
    } else {
      forall q | q in s.paths ensures !(target < q) {
        if target < q {
          assert q[..|target|] == target;
          Ancestors(s, q, |target|);
        }
      }
    }
  }

  /** The same entries outside the mount point. */
  ghost predicate SameOutside(before: map<Path, Inode>, after: map<Path, Inode>, target: Path) {
    forall p | !(target <= p) :: (p in after <==> p in before) && (p in after ==> after[p] == before[p])
  }

  lemma KeptThrough(before: map<Path, Inode>, middle: map<Path, Inode>, after: map<Path, Inode>, target: Path)
    requires SameOutside(before, middle, target) && KeptOutside(middle, after, target)
    ensures KeptOutside(before, after, target)
  {
  }

  /** Taking a subtree away frees its name. */
  lemma PrunedIsFree(s: Store<int>, target: Path)
    requires Tree(s) && Approachable(s, target) && target in s.paths && target != ROOT
    ensures var t := Execute(s, Prune(target), 0);
      RemoveAllPlan(s, target) == Perform(Prune(target)) && Free(t, target)
        && SameOutside(Content(s), Content(t), target)
  {
    var t := Execute(s, Prune(target), 0);
    ApproachIs(s, target);
    PruneContent(s, target);
    assert Without(s.paths, target).Values <= s.nodes.Keys;
    GatherEntries(Without(s.paths, target), s.nodes);
    hide Content, Tree, Resolve, Consistent, Gather;
    assert t.paths == Without(s.paths, target);
    assert forall p | p in t.paths :: !(target < p) && p != target;
  }

  method HasContent(destination: Database, target: Path) returns (r: Result<bool>)
    requires destination.Valid()
    ensures r == Populated(destination.Abs(), target)
  {
    var info := destination.Stat(target, false);
    if info.Err? {
      return if info.error == NotExist then Ok(false) else Err(info.error);
    }
    if info.value.kind != Directory {
      return Ok(true);
    }
    var entries := destination.ReadDir(target);
    if entries.Err? {
      return Err(entries.error);
    }
    return Ok(entries.value != map[]);
  }

  /** Removing one entry of the root directory. */
  lemma TopRemoved(s: Store<int>, c: string, rest: set<string>)
    requires Tree(s) && [c] in s.paths && forall p | p in s.paths && p != ROOT :: p[0] in rest
    ensures RemoveAllPlan(s, [c]) == Perform(Prune([c]))
    ensures var t := Execute(s, Prune([c]), 0);
      && (forall p | p in t.paths && p != ROOT :: p[0] in rest - {c})
      && (forall p | p in t.paths :: p in s.paths) && forall d | d != c && [d] in s.paths :: [d] in t.paths
  {
    ResolveCanonical(s, [c], false, ROUNDS);
    forall p | p in s.paths && p != ROOT && p[0] == c ensures [c] <= p {}
  }

  lemma RootListed(s: Store<int>)
    requires Tree(s)
    ensures ReadDirOf(s, ROOT) == Ok(Listing(s, ROOT))
    ensures forall p | p in s.paths && p != ROOT :: p[0] in Listing(s, ROOT)
    ensures forall c | c in Listing(s, ROOT) :: [c] in s.paths
  {
    ResolveCanonical(s, ROOT, true, ROUNDS);
    ListingKeys(s, ROOT);
    assert forall c: string :: ROOT + [c] == [c];
    forall p | p in s.paths && p != ROOT ensures [p[0]] in s.paths {
      assert ROOT < p;
      ChildOnWay(s, ROOT, p);
    }
    hide Listing, Tree, Resolve;
  }

  /** The root directory is emptied entry by entry. */
  method ClearRoot(destination: Database) returns (outcome: Outcome)
    requires destination.Valid()
    modifies destination`paths, destination`nodes
    ensures destination.Valid() && outcome == Done && forall p | p in destination.Abs().paths :: p == ROOT
  {
    hide Tree, Resolve, Listing;
    RootListed(destination.Abs());
    var entries := destination.ReadDir(ROOT);
    var rest := entries.value.Keys;
    outcome := Done;
    while rest != {}
      invariant destination.Valid() && outcome == Done
      invariant forall p | p in destination.Abs().paths && p != ROOT :: p[0] in rest
      invariant forall c | c in rest :: [c] in destination.Abs().paths
      decreases rest
    {
      var c :| c in rest;
      TopRemoved(destination.Abs(), c, rest);
      hide RemoveAllPlan, Execute;
      rest := rest - {c};
      outcome := destination.RemoveAll([c]);
    }
  }

  method ClearTarget(destination: Database, target: Path) returns (outcome: Outcome)
    requires destination.Valid() && Populated(destination.Abs(), target) == Ok(true)
    modifies destination`paths, destination`nodes
    ensures destination.Valid()
    ensures old(Approachable(destination.Abs(), target)) ==>
      && outcome == Done && Free(destination.Abs(), target)
      && SameOutside(old(Content(destination.Abs())), Content(destination.Abs()), target)
  {
    ghost var s := destination.Abs();
    if target == ROOT {
      outcome := ClearRoot(destination);
    } else {
      if Approachable(s, target) {
        ApproachIs(s, target);
        PrunedIsFree(s, target);
      }
      hide Tree, Content, Free, SameOutside, RemoveAllPlan;
      outcome := destination.RemoveAll(target);
    }
  }

  /** A mount point that holds the source is populated, or the source is empty. */
  lemma Remount(s: Store<int>, target: Path, source: Source)
    requires Tree(s) && SourceTree(source) && Holds(Content(s), target, source)
    ensures Populated(s, target).Ok? && (!Populated(s, target).value ==> AlreadyThere(s, target, source))
  {
    assert target <= target && target[|target|..] == ROOT;
    ResolveCanonical(s, target, false, ROUNDS);
    ResolveCanonical(s, target, true, ROUNDS);
    ContentIs(s);
    SourceListed(s, target, source);
    hide Listing, Resolve, Tree, Consistent, Content, Names;
  }

  lemma SourceListed(s: Store<int>, target: Path, source: Source)
    requires Consistent(s) && Holds(Content(s), target, source)
    ensures Names(source, ROOT) <= Listing(s, target).Keys
  {
    ListingKeys(s, target);
    ContentIs(s);
    hide Listing, Consistent, Content;
    forall c | c in Names(source, ROOT) ensures c in Listing(s, target) {
      assert ROOT + [c] == [c] && (target + [c])[|target|..] == [c];
      assert target <= target + [c];
    }
  }

  /** Copies one source tree into the destination according to the policy. */
  method ApplyMount(destination: Database, target: Path, policy: MountPolicy, source: Source) returns (outcome: Outcome)
    requires SourceTree(source) && destination.Valid()
    modifies destination`paths, destination`nodes, destination`nextId
    ensures destination.Valid()
    ensures var populated := old(Populated(destination.Abs(), target));
      && (populated.Err? ==> outcome == Failed(populated.error))
      && (populated.Ok? && policy.Unknown? ==> outcome == Failed(UnknownPolicy))
      && (populated.Err? || policy.Unknown? ==> destination.Abs() == old(destination.Abs()))
      && (populated == Ok(true) && policy.IfAbsent? ==> outcome == Done && destination.Abs() == old(destination.Abs()))
    ensures old(Mounts(destination.Abs(), target, policy)) ==>
      && (outcome == Done ==>
            && Holds(Content(destination.Abs()), target, source) && Mirrors(Content(destination.Abs()), target, source)
            && KeptOutside(old(Content(destination.Abs())), Content(destination.Abs()), target))
      && (destination.limit <= 0 ==> outcome == Done)
    ensures var m := Merging(old(destination.Abs()), target, source);
      policy.Merge? && Mergeable(m) ==>
        && (outcome == Done ==>
              PlacesMerged(m, destination.Abs()) && (DataMerged(m, destination.Abs()) <==> Harmless(m)))
        && (destination.limit <= 0 ==> outcome == Done)
    ensures policy.IfAbsent? && old(Holds(Content(destination.Abs()), target, source)) ==>
      outcome == Done && destination.Abs() == old(destination.Abs())
  {
    ghost var s := destination.Abs();
    if Mergeable(Merging(s, target, source)) {
      ApproachPopulated(s, target);
    }
    if Holds(Content(s), target, source) {
      Remount(s, target, source);
    }
    var populated := HasContent(destination, target);
    if populated.Err? {
      return Failed(populated.error);
    }
    if Mounts(s, target, policy) && !populated.value {
      UnpopulatedIsFree(s, target);
    }
    hide Tree, Populated, Content, Holds, Mirrors, Free, AlreadyThere, SourceTree;
    hide Mergeable, Harmless, PlacesMerged, DataMerged, KeptOutside;
    match policy {
      case Unknown => return Failed(UnknownPolicy);
      case Merge =>
      case IfAbsent =>
        if populated.value {
          return Done;
        }
      case Replace =>
        if populated.value {
          outcome := ClearTarget(destination, target);
          if outcome != Done {
            return;
          }
        }
    }
    ghost var middle := Content(destination.Abs());
    outcome := CopyTree(destination, target, source);
    if outcome == Done && Mounts(s, target, policy) {
      KeptThrough(Content(s), middle, Content(destination.Abs()), target);
    }
  }

  /** Mounting twice: where the first mount succeeded, the second leaves everything as it is. */
  method MountTwice(destination: Database, target: Path, source: Source)
    returns (first: Outcome, second: Outcome, ghost between: Store<int>)
    requires SourceTree(source) && destination.Valid()
    requires Approachable(destination.Abs(), target) || Populated(destination.Abs(), target) != Ok(false)
    modifies destination`paths, destination`nodes, destination`nextId
    ensures destination.Valid()
    ensures old(destination.limit <= 0 && Approachable(destination.Abs(), target)) ==> first == Done
    ensures first == Done ==>
      second == Done && destination.Abs() == between && old(Populated(destination.Abs(), target)).Ok? &&
      if old(Populated(destination.Abs(), target)).value then between == old(destination.Abs())
      else
        && Holds(Content(destination.Abs()), target, source) && Mirrors(Content(destination.Abs()), target, source)
        && KeptOutside(old(Content(destination.Abs())), Content(destination.Abs()), target)
  {
    ghost var s := destination.Abs();
    if Approachable(s, target) {
      ApproachPopulated(s, target);
    }
    hide Tree, Populated, Content, Holds, Mirrors, KeptOutside, Approachable, SourceTree;
    hide Mergeable, Harmless, PlacesMerged, DataMerged, Database.Valid, Mounts;
    first := ApplyMount(destination, target, IfAbsent, source);
    between := destination.Abs();
    second := ApplyMount(destination, target, IfAbsent, source);
  }

  lemma ApproachPopulated(s: Store<int>, target: Path)
    requires Tree(s) && Approachable(s, target)
    ensures Populated(s, target).Ok?
  {
    ApproachIs(s, target);
    if IsDirectory(s, target) {
      ResolveCanonical(s, target, true, ROUNDS);
    }
    hide Resolve;
  }
}

/** Database is held to the behaviour of Memory: one run of operations on both gives the same outcomes,
    entries, contents and sharing at every step, as long as no step is one of those where the code differs. */
module Equivalence {
  import opened Results
  import opened Paths
  import opened Files
  import opened FileLaws

  ghost predicate SameSharing<A, B>(m: map<Path, A>, n: map<Path, B>, p: Path, q: Path) {
    p in m && q in m && p in n && q in n ==> (m[p] == m[q] <==> n[p] == n[q])
  }

  ghost predicate SameValue<A, B>(s: Store<A>, t: Store<B>, p: Path) {
    Present(s, p) && Present(t, p) && InodeAt(s, p) == InodeAt(t, p)
  }

  /** Two stores nobody can tell apart: the same entries and values, and the same entries share nodes. */
  ghost predicate Related<A, B>(s: Store<A>, t: Store<B>) {
    && Consistent(s) && Consistent(t)
    && s.paths.Keys == t.paths.Keys
    && (forall p {:trigger SameValue(s, t, p)} | p in s.paths :: SameValue(s, t, p))
    && (forall p, q {:trigger SameSharing(s.paths, t.paths, p, q)} :: SameSharing(s.paths, t.paths, p, q))
  }

  lemma RelatedIntro<A, B>(s: Store<A>, t: Store<B>)
    requires Consistent(s) && Consistent(t)
    requires forall p :: p in s.paths <==> p in t.paths
    requires forall p {:trigger SameValue(s, t, p)} | p in s.paths :: SameValue(s, t, p)
    requires forall p, q {:trigger SameSharing(s.paths, t.paths, p, q)} :: SameSharing(s.paths, t.paths, p, q)
    ensures Related(s, t)
  {
    assert s.paths.Keys == t.paths.Keys;
  }

  // ------------------------------------------------------------- observations

  lemma RelatedEntry<A, B>(s: Store<A>, t: Store<B>, p: Path)
    requires Related(s, t)
    ensures Present(s, p) == Present(t, p) == (p in s.paths) && InodeAt(s, p) == InodeAt(t, p)
    ensures Present(s, p) ==> At(s, p) == At(t, p)
    ensures IsDirectory(s, p) == IsDirectory(t, p) && IsLink(s, p) == IsLink(t, p)
    ensures IsKind(s, p, Regular) == IsKind(t, p, Regular) && DataAt(s, p) == DataAt(t, p)
    ensures HasChildren(s, p) == HasChildren(t, p)
  {
    assert p in s.paths ==> SameValue(s, t, p);
  }

  lemma {:induction false} RelatedScan<A, B>(s: Store<A>, t: Store<B>, name: Path, follow: bool, i: nat)
    requires Related(s, t) && i <= |name|
    ensures Scan(s, name, follow, i) == Scan(t, name, follow, i)
    decreases |name| - i
  {
    if i < |name| {
      RelatedEntry(s, t, name[..i + 1]);
      hide Related;
      RelatedScan(s, t, name, follow, i + 1);
    }
  }

  lemma {:induction false} RelatedResolve<A, B>(s: Store<A>, t: Store<B>, name: Path, follow: bool, rounds: nat)
    requires Related(s, t)
    ensures Resolve(s, name, follow, rounds) == Resolve(t, name, follow, rounds)
    decreases rounds
  {
    if rounds > 0 && ValidName(name) {
      RelatedScan(s, t, name, follow, 0);
      match Scan(s, name, follow, 0)
      case Redirected(next) => RelatedResolve(s, t, next, follow, rounds - 1);
      case _ =>
    }
  }

  lemma RelatedPlace<A, B>(s: Store<A>, t: Store<B>, name: Path)
    requires Related(s, t)
    ensures Place(s, name) == Place(t, name)
  {
    RelatedResolve(s, t, Parent(name), true, ROUNDS);
    var r := Resolve(s, Parent(name), true, ROUNDS);
    if r.Ok? {
      RelatedEntry(s, t, r.value);
    }
  }

  /** Everything a caller can read is the same. */
  lemma RelatedObservations<A, B>(s: Store<A>, t: Store<B>, name: Path, follow: bool)
    requires Related(s, t)
    ensures StatOf(s, name, follow) == StatOf(t, name, follow)
    ensures ReadFileOf(s, name) == ReadFileOf(t, name)
    ensures ReadlinkOf(s, name) == ReadlinkOf(t, name)
    ensures ReadDirOf(s, name) == ReadDirOf(t, name)
  {
    RelatedStat(s, t, name, true);
    RelatedStat(s, t, name, false);
    RelatedResolve(s, t, name, true, ROUNDS);
    var r := Resolve(s, name, true, ROUNDS);
    if r.Ok? {
      RelatedEntry(s, t, r.value);
      RelatedListing(s, t, r.value);
    }
  }

  lemma RelatedStat<A, B>(s: Store<A>, t: Store<B>, name: Path, follow: bool)
    requires Related(s, t)
    ensures StatOf(s, name, follow) == StatOf(t, name, follow)
  {
    RelatedResolve(s, t, name, follow, ROUNDS);
    var r := Resolve(s, name, follow, ROUNDS);
    if r.Ok? {
      RelatedEntry(s, t, r.value);
    }
  }

  lemma RelatedListing<A, B>(s: Store<A>, t: Store<B>, p: Path)
    requires Related(s, t)
    ensures Listing(s, p) == Listing(t, p)
  {
    var out := Listing(s, p);
    forall q | q in s.paths ensures InodeAt(s, q) == InodeAt(t, q) { RelatedEntry(s, t, q); }
    hide Related;
    ListingKeys(s, p);
    ListingIs(t, p, out);
  }

  // ------------------------------------------------------------------ totals

  ghost function Forget<Id>(s: Store<Id>, id: Id): Store<Id> {
    Store(map p | p in s.paths && s.paths[p] != id :: s.paths[p], s.nodes - {id})
  }

  lemma ForgetConsistent<Id>(s: Store<Id>, id: Id)
    requires Consistent(s)
    ensures Consistent(Forget(s, id))
    ensures forall p :: p in Forget(s, id).paths <==> p in s.paths && s.paths[p] != id
    ensures forall p | p in Forget(s, id).paths ::
      var u := Forget(s, id); Present(u, p) && u.paths[p] == s.paths[p] && InodeAt(u, p) == InodeAt(s, p)
  {
    var t := Forget(s, id);
    forall v ensures v in t.paths.Values <==> v in s.paths.Values && v != id {
      if v in s.paths.Values && v != id {
        var q :| q in s.paths && s.paths[q] == v;
        assert t.paths[q] == v;
      }
    }
    forall p | p in t.paths ensures Present(t, p) && InodeAt(t, p) == InodeAt(s, p) {
      assert t.paths[p] in t.paths.Values && s.paths[p] in s.paths.Values;
    }
  }

  /** Indistinguishable stores hold equally many bytes: each node is counted once on both sides. */
  lemma {:induction false} RelatedTotal<A, B>(s: Store<A>, t: Store<B>)
    requires Related(s, t)
    ensures Total(s.nodes) == Total(t.nodes)
    decreases |s.nodes|
  {
    if s.paths.Keys == {} {
      assert s.nodes.Keys == {} && t.nodes.Keys == {};
    } else {
      var p :| p in s.paths.Keys;
      RelatedEntry(s, t, p);
      var a, b := s.paths[p], t.paths[p];
      TotalRemove(s.nodes, a);
      TotalRemove(t.nodes, b);
      RelatedForget(s, t, p);
      RelatedTotal(Forget(s, a), Forget(t, b));
    }
  }

  lemma RelatedForget<A, B>(s: Store<A>, t: Store<B>, p: Path)
    requires Related(s, t) && p in s.paths
    ensures Related(Forget(s, s.paths[p]), Forget(t, t.paths[p]))
  {
    var u, v := Forget(s, s.paths[p]), Forget(t, t.paths[p]);
    ForgetConsistent(s, s.paths[p]);
    ForgetConsistent(t, t.paths[p]);
    hide Forget, Consistent, InodeAt;
    forall q ensures q in u.paths <==> q in v.paths { assert SameSharing(s.paths, t.paths, p, q); }
    forall q | q in u.paths ensures SameValue(u, v, q) { assert SameValue(s, t, q); }
    forall q, r ensures SameSharing(u.paths, v.paths, q, r) { assert SameSharing(s.paths, t.paths, q, r); }
    hide Related, SameValue, SameSharing;
    RelatedIntro(u, v);
  }

  // ------------------------------------------------------- plans and effects

  lemma RelatedExceeds<A, B>(s: Store<A>, t: Store<B>, limit: int, delta: int)
    requires Related(s, t)
    ensures Exceeds(s, limit, delta) == Exceeds(t, limit, delta)
  {
    RelatedTotal(s, t);
  }

  lemma RelatedCreatePlan<A, B>(s: Store<A>, t: Store<B>, name: Path, inode: Inode, follow: bool, limit: int)
    requires Related(s, t)
    ensures CreatePlan(s, name, inode, follow, limit) == CreatePlan(t, name, inode, follow, limit)
  {
    RelatedResolve(s, t, name, follow, ROUNDS);
    RelatedPlace(s, t, name);
    RelatedExceeds(s, t, limit, |inode.data|);
    if Place(s, name).Ok? {
      RelatedEntry(s, t, Place(s, name).value);
    }
  }

  lemma RelatedWritePlan<A, B>(b: Backend, s: Store<A>, t: Store<B>, name: Path, data: Bytes, limit: int)
    requires Related(s, t)
    ensures WritePlan(b, s, name, data, limit) == WritePlan(b, t, name, data, limit)
  {
    RelatedResolve(s, t, name, true, ROUNDS);
    RelatedPlace(s, t, name);
    RelatedExceeds(s, t, limit, |data|);
    if Place(s, name).Ok? {
      RelatedEntry(s, t, Place(s, name).value);
    }
    if Resolve(s, name, true, ROUNDS).Ok? {
      var p := Resolve(s, name, true, ROUNDS).value;
      RelatedEntry(s, t, p);
      RelatedExceeds(s, t, limit, |data| - |DataAt(s, p)|);
    }
  }

  lemma RelatedAppendPlan<A, B>(b: Backend, s: Store<A>, t: Store<B>, name: Path, data: Bytes, limit: int)
    requires Related(s, t)
    ensures AppendPlan(b, s, name, data, limit) == AppendPlan(b, t, name, data, limit)
  {
    RelatedResolve(s, t, name, true, ROUNDS);
    RelatedPlace(s, t, name);
    RelatedExceeds(s, t, limit, |data|);
    if Resolve(s, name, true, ROUNDS).Ok? {
      RelatedEntry(s, t, Resolve(s, name, true, ROUNDS).value);
    }
  }

  lemma RelatedRemovePlans<A, B>(s: Store<A>, t: Store<B>, name: Path)
    requires Related(s, t)
    ensures RemovePlan(s, name) == RemovePlan(t, name) && RemoveAllPlan(s, name) == RemoveAllPlan(t, name)
    ensures TouchPlan(s, name) == TouchPlan(t, name)
  {
    RelatedResolve(s, t, name, false, ROUNDS);
    RelatedResolve(s, t, name, true, ROUNDS);
    if Resolve(s, name, false, ROUNDS).Ok? {
      RelatedEntry(s, t, Resolve(s, name, false, ROUNDS).value);
    }
  }

  lemma RelatedRenamePlan<A, B>(s: Store<A>, t: Store<B>, name: Path, newName: Path)
    requires Related(s, t)
    ensures RenamePlan(s, name, newName) == RenamePlan(t, name, newName)
  {
    RelatedResolve(s, t, name, false, ROUNDS);
    RelatedPlace(s, t, newName);
    if Resolve(s, name, false, ROUNDS).Ok? && Place(s, newName).Ok? {
      RelatedEntry(s, t, Resolve(s, name, false, ROUNDS).value);
      RelatedEntry(s, t, Place(s, newName).value);
    }
  }

  lemma RelatedLinkPlan<A, B>(b: Backend, s: Store<A>, t: Store<B>, name: Path, newName: Path)
    requires Related(s, t)
    ensures LinkPlan(b, s, name, newName) == LinkPlan(b, t, name, newName)
  {
    RelatedResolve(s, t, name, true, ROUNDS);
    RelatedResolve(s, t, newName, false, ROUNDS);
    RelatedPlace(s, t, newName);
    if Resolve(s, name, true, ROUNDS).Ok? {
      RelatedEntry(s, t, Resolve(s, name, true, ROUNDS).value);
    }
    RelatedEntry(s, t, newName);
    RelatedEntry(s, t, Parent(newName));
    if Place(s, newName).Ok? {
      RelatedEntry(s, t, Place(s, newName).value);
    }
  }

  /** Indistinguishable stores lead to the same plan. */
  lemma RelatedPlan<A, B>(b: Backend, s: Store<A>, t: Store<B>, op: Op, limit: int)
    requires Related(s, t)
    ensures PlanOf(b, s, op, limit) == PlanOf(b, t, op, limit)
  {
    match op
    case CreateFile(name, data) => RelatedCreatePlan(s, t, name, FileNode(data), false, limit);
    case WriteFile(name, data) => RelatedWritePlan(b, s, t, name, data, limit);
    case AppendFile(name, data) => RelatedAppendPlan(b, s, t, name, data, limit);
    case Mkdir(name) => RelatedCreatePlan(s, t, name, DirNode(), true, limit);
    case Remove(name) => RelatedRemovePlans(s, t, name);
    case RemoveAll(name) => RelatedRemovePlans(s, t, name);
    case Rename(name, newName) => RelatedRenamePlan(s, t, name, newName);
    case Symlink(target, name) => RelatedCreatePlan(s, t, name, LinkNode(target), false, limit);
    case Link(name, newName) => RelatedLinkPlan(b, s, t, name, newName);
    case Touch(name) => RelatedRemovePlans(s, t, name);
  }

  lemma SharingRebound<A, B>(s: Store<A>, t: Store<B>, m: map<Path, A>, n: map<Path, B>, origin: Path -> Path)
    requires Related(s, t) && m.Keys == n.Keys
    requires forall q | q in m :: origin(q) in s.paths && m[q] == s.paths[origin(q)] && n[q] == t.paths[origin(q)]
    ensures forall q, r :: SameSharing(m, n, q, r)
  {
    forall q, r ensures SameSharing(m, n, q, r) { assert SameSharing(s.paths, t.paths, origin(q), origin(r)); }
  }

  /** Rebinding entries to nodes of the same stores keeps two stores indistinguishable. */
  lemma RelatedGather<A, B>(s: Store<A>, t: Store<B>, m: map<Path, A>, n: map<Path, B>, origin: Path -> Path)
    requires Related(s, t) && m.Keys == n.Keys
    requires forall q | q in m :: origin(q) in s.paths && m[q] == s.paths[origin(q)] && n[q] == t.paths[origin(q)]
    ensures Related(Gather(m, s.nodes), Gather(n, t.nodes))
  {
    var u, v := Gather(m, s.nodes), Gather(n, t.nodes);
    assert m.Values <= s.nodes.Keys && n.Values <= t.nodes.Keys;
    GatherEntries(m, s.nodes);
    GatherEntries(n, t.nodes);
    SharingRebound(s, t, m, n, origin);
    hide Gather, Consistent, SameSharing;
    forall q | q in m ensures SameValue(u, v, q) { assert SameValue(s, t, origin(q)); }
    hide Related, SameValue;
    RelatedIntro(u, v);
  }

  lemma SharingBound<A, B>(s: Store<A>, t: Store<B>, p: Path, a: A, b: B)
    requires Related(s, t) && a !in s.nodes && b !in t.nodes
    ensures var m, n := s.paths[p := a], t.paths[p := b]; forall q, r :: SameSharing(m, n, q, r)
  {
    var m, n := s.paths[p := a], t.paths[p := b];
    forall q | q in s.paths ensures s.paths[q] != a && t.paths[q] != b { assert SameValue(s, t, q); }
    forall q, r ensures SameSharing(m, n, q, r) { assert SameSharing(s.paths, t.paths, q, r); }
  }

  lemma RelatedCreate<A, B>(s: Store<A>, t: Store<B>, p: Path, inode: Inode, a: A, b: B)
    requires Related(s, t) && a !in s.nodes && b !in t.nodes
    ensures Related(Execute(s, Create(p, inode), a), Execute(t, Create(p, inode), b))
  {
    var u, v := Execute(s, Create(p, inode), a), Execute(t, Create(p, inode), b);
    CreateEntries(s, p, inode, a);
    CreateEntries(t, p, inode, b);
    SharingBound(s, t, p, a, b);
    hide Execute, Consistent, SameSharing;
    forall q | q in u.paths ensures SameValue(u, v, q) { assert q != p ==> SameValue(s, t, q); }
    hide Related, SameValue;
    RelatedIntro(u, v);
  }

  lemma RelatedSharing<A, B>(s: Store<A>, t: Store<B>, p: Path, q: Path)
    requires Related(s, t) && p in s.paths && q in s.paths
    ensures Consistent(s) && Consistent(t) && p in t.paths && q in t.paths
    ensures s.paths[p] == s.paths[q] <==> t.paths[p] == t.paths[q]
  {
    assert SameSharing(s.paths, t.paths, p, q);
  }

  lemma SetDataValue<A, B>(s: Store<A>, t: Store<B>, p: Path, data: Bytes, a: A, b: B, q: Path)
    requires Related(s, t) && Present(s, p) && q in s.paths
    ensures SameValue(Execute(s, SetData(p, data), a), Execute(t, SetData(p, data), b), q)
  {
    hide Related, Execute, Consistent;
    RelatedEntry(s, t, p);
    RelatedEntry(s, t, q);
    RelatedSharing(s, t, q, p);
    SetDataEntries(s, p, data, a);
    SetDataEntries(t, p, data, b);
  }

  lemma RelatedSetData<A, B>(s: Store<A>, t: Store<B>, p: Path, data: Bytes, a: A, b: B)
    requires Related(s, t) && Present(s, p)
    ensures Related(Execute(s, SetData(p, data), a), Execute(t, SetData(p, data), b))
  {
    var u, v := Execute(s, SetData(p, data), a), Execute(t, SetData(p, data), b);
    RelatedEntry(s, t, p);
    SetDataEntries(s, p, data, a);
    SetDataEntries(t, p, data, b);
    hide Execute, Consistent, SameValue;
    forall q | q in u.paths ensures SameValue(u, v, q) { SetDataValue(s, t, p, data, a, b, q); }
    assert forall q, r {:trigger SameSharing(u.paths, v.paths, q, r)} :: SameSharing(u.paths, v.paths, q, r);
    hide Related, SameValue, SameSharing;
    RelatedIntro(u, v);
  }

  lemma AliasGathers<Id>(s: Store<Id>, source: Path, p: Path, id: Id)
    requires Consistent(s) && source in s.paths && p !in s.paths
    ensures var t := Execute(s, Alias(source, p), id); t == Gather(t.paths, s.nodes)
  {
    AliasEntries(s, source, p, id);
  }

  lemma RelatedAlias<A, B>(s: Store<A>, t: Store<B>, source: Path, p: Path, a: A, b: B)
    requires Related(s, t) && source in s.paths && p !in s.paths
    ensures Related(Execute(s, Alias(source, p), a), Execute(t, Alias(source, p), b))
  {
    AliasGathers(s, source, p, a);
    AliasGathers(t, source, p, b);
    var u, v := Execute(s, Alias(source, p), a), Execute(t, Alias(source, p), b);
    hide Gather;
    RelatedGather(s, t, u.paths, v.paths, q => if q == p then source else q);
  }

  lemma RelatedMove<A, B>(s: Store<A>, t: Store<B>, from: Path, to: Path, a: A, b: B)
    requires Related(s, t) && to != ROOT && !Within(from, to) && forall q | q in s.paths :: !(to < q)
    ensures Related(Execute(s, Move(from, to), a), Execute(t, Move(from, to), b))
  {
    RelocatedEntries(s.paths, from, to);
    RelocatedEntries(t.paths, from, to);
    hide Relocated;
    RelatedGather(s, t, Relocated(s.paths, from, to), Relocated(t.paths, from, to), q => Origin(from, to, q));
  }

  /** The same effect on indistinguishable stores leaves them indistinguishable, whatever the ids drawn. */
  lemma RelatedExecute<A, B>(s: Store<A>, t: Store<B>, e: Effect, a: A, b: B)
    requires Tree(s) && Related(s, t) && Sound(s, e) && a !in s.nodes && b !in t.nodes
    ensures Related(Execute(s, e, a), Execute(t, e, b))
  {
    match e
    case Keep =>
    case Create(p, inode) => RelatedCreate(s, t, p, inode, a, b);
    case SetData(p, data) => RelatedSetData(s, t, p, data, a, b);
    case Unlink(p) => RelatedGather(s, t, s.paths - {p}, t.paths - {p}, q => q);
    case Prune(p) => RelatedGather(s, t, Without(s.paths, p), Without(t.paths, p), q => q);
    case Move(from, to) =>
      forall q | q in s.paths ensures !(to < q) { NoChildNoDescendant(s, to, q); }
      RelatedMove(s, t, from, to, a, b);
    case Alias(source, p) => RelatedAlias(s, t, source, p, a, b);
  }

  // ---------------------------------------------------- where the code agrees

  /** The place of a new hard link when its name is taken literally. */
  ghost function LiteralPlace<Id>(s: Store<Id>, name: Path): Result<Path> {
    if !Present(s, Parent(name)) then Err(NotExist)
    else if !IsDirectory(s, Parent(name)) then Err(NotDir)
    else Ok(name)
  }

  /** What a caller can check beforehand: an append that would exceed the quota goes to an existing
      regular file, a write that would exceed it does not replace a dangling link, and the parent of a
      new hard link is the same entry taken literally and resolved. */
  ghost predicate Agreeable<Id>(s: Store<Id>, op: Op, limit: int) {
    match op
    case WriteFile(name, data) =>
      !(ValidName(name) && Exceeds(s, limit, |data|) && Resolve(s, name, true, ROUNDS) == Err(NotExist)
        && Place(s, name).Ok? && Present(s, Place(s, name).value))
    case AppendFile(name, data) =>
      ValidName(name) && Exceeds(s, limit, |data|) ==>
        (match Resolve(s, name, true, ROUNDS)
         case Ok(p) => IsKind(s, p, Regular)
         case Err(e) => e != NotExist)
    case Link(name, newName) =>
      var source := Resolve(s, name, true, ROUNDS);
      ValidName(newName) && source.Ok? && IsKind(s, source.value, Regular) ==>
        Place(s, newName) == LiteralPlace(s, newName)
    case _ => true
  }

  lemma LiteralParents<Id>(s: Store<Id>, newName: Path)
    requires Tree(s) && IsDirectory(s, Parent(newName))
    ensures Place(s, newName) == Ok(newName) == LiteralPlace(s, newName)
  {
    ResolveCanonical(s, Parent(newName), true, ROUNDS);
    hide Resolve, Tree;
    assert Child(Parent(newName), newName) == newName;
  }

  lemma LiteralNames<Id>(s: Store<Id>, newName: Path)
    requires Tree(s) && Present(s, newName)
    ensures IsDirectory(s, Parent(newName)) && Resolve(s, newName, false, ROUNDS) == Ok(newName)
  {
    assert ParentIsDirectory(s, newName);
    ResolveCanonical(s, newName, false, ROUNDS);
    hide Resolve;
  }

  /** Resolving a name without following its last component is resolving its place and looking there. */
  lemma ResolveAtPlace<Id>(s: Store<Id>, newName: Path)
    requires Tree(s) && ValidName(newName) && newName != ROOT
    ensures var place := Place(s, newName);
      Resolve(s, newName, false, ROUNDS) == if place.Err? || Present(s, place.value) then place else Err(NotExist)
  {
    ResolveByParent(s, newName, false, ROUNDS);
    if Place(s, newName).Ok? {
      PlacedParent(s, newName);
      var p, left := Place(s, newName).value, Remaining(s, Parent(newName), true, ROUNDS);
      if Present(s, p) {
        ResolveCanonical(s, p, false, left);
      } else {
        ResolveAbsent(s, p, left);
      }
    }
  }

  lemma ResolveAbsent<Id>(s: Store<Id>, p: Path, rounds: nat)
    requires Tree(s) && ValidName(p) && p != ROOT && ParentIsDirectory(s, p) && !Present(s, p) && rounds > 0
    ensures Resolve(s, p, false, rounds) == Err(NotExist)
  {
    forall k | 0 < k < |p| ensures IsDirectory(s, p[..k]) {
      if k < |p| - 1 {
        Ancestors(s, Parent(p), k);
        assert Parent(p)[..k] == p[..k];
      }
    }
    ScanThroughDirectories(s, p, false, 0);
    assert p[..|p|] == p;
  }

  lemma LinkPlansAgree<Id>(s: Store<Id>, name: Path, newName: Path)
    requires Tree(s)
    ensures Agreeable(s, Link(name, newName), 0) ==>
      LinkPlan(InMemory, s, name, newName) == LinkPlan(InTables, s, name, newName)
    ensures !Agreeable(s, Link(name, newName), 0) ==>
      LinkPlan(InMemory, s, name, newName).outcome != LinkPlan(InTables, s, name, newName).outcome
  {
    if ValidName(newName) {
      if IsDirectory(s, Parent(newName)) {
        LiteralParents(s, newName);
      }
      if Present(s, newName) {
        LiteralNames(s, newName);
      }
      if newName != ROOT {
        ResolveAtPlace(s, newName);
      }
    }
    hide Resolve, Tree;
  }

  lemma {:induction false} ResolveErrors<Id>(s: Store<Id>, name: Path, follow: bool, rounds: nat)
    ensures Resolve(s, name, follow, rounds).Err? ==>
      Resolve(s, name, follow, rounds).error in {Loop, Invalid, NotExist, NotDir}
    decreases rounds
  {
    if rounds > 0 && ValidName(name) && Scan(s, name, follow, 0).Redirected? {
      ResolveErrors(s, Scan(s, name, follow, 0).name, follow, rounds - 1);
    }
  }

  /** The plans of the two implementations agree, or what they do can be told apart. */
  lemma PlansAgree<Id>(s: Store<Id>, op: Op, limit: int)
    requires Tree(s)
    ensures Agreeable(s, op, limit) ==> PlanOf(InMemory, s, op, limit) == PlanOf(InTables, s, op, limit)
    ensures !Agreeable(s, op, limit) && PlanOf(InMemory, s, op, limit).outcome == PlanOf(InTables, s, op, limit).outcome
      ==> var m, d := PlanOf(InMemory, s, op, limit).effect, PlanOf(InTables, s, op, limit).effect;
        (op.WriteFile? && m.Keep? && d.Unlink? && d.path in s.paths)
        || (op.AppendFile? && d.Keep? && m.Create? && m.inode == FileNode([]) && !IsKind(s, m.path, Regular))
  {
    match op
    case Link(name, newName) => LinkPlansAgree(s, name, newName);
    case AppendFile(name, data) =>
      if ValidName(name) && Resolve(s, name, true, ROUNDS) == Err(NotExist) {
        PlaceOfMissing(s, name, true);
        ResolveErrors(s, Parent(name), true, ROUNDS);
      }
    case _ =>
  }

  /** One step on indistinguishable stores: same outcome and indistinguishable again, exactly when the
      step is agreeable. */
  lemma StepsAgree<A, B>(s: Store<A>, t: Store<B>, op: Op, limit: int, a: A, b: B)
    requires Tree(s) && Related(s, t) && a !in s.nodes && b !in t.nodes && !(op.Rename? && op.name == ROOT)
    ensures Agreeable(s, op, limit) <==>
      && PlanOf(InMemory, s, op, limit).outcome == PlanOf(InTables, t, op, limit).outcome
      && Related(Step(InMemory, s, op, limit, a), Step(InTables, t, op, limit, b))
  {
    RelatedPlan(InTables, s, t, op, limit);
    PlansAgree(s, op, limit);
    PlanSound(InMemory, s, op, limit);
    hide PlanOf, Tree, Sound, Agreeable;
    var m, d := PlanOf(InMemory, s, op, limit).effect, PlanOf(InTables, s, op, limit).effect;
    if Agreeable(s, op, limit) {
      RelatedExecute(s, t, m, a, b);
    } else if PlanOf(InMemory, s, op, limit).outcome == PlanOf(InTables, s, op, limit).outcome {
      if d.Unlink? {
        assert d.path !in Execute(t, d, b).paths;
      } else {
        CreateEntries(s, m.path, FileNode([]), a);
        RelatedEntry(s, t, m.path);
        var u := Execute(s, m, a);
        assert IsKind(u, m.path, Regular) && !IsKind(t, m.path, Regular);
        if Related(u, t) {
          RelatedEntry(u, t, m.path);
        }
      }
    }
  }

  // -------------------------------------------------------------------- runs

  ghost function RunOf<Id>(b: Backend, s: Store<Id>, ops: seq<Op>, limit: int, ids: seq<Id>): Store<Id>
    requires |ids| == |ops|
    decreases |ops|
  {
    if ops == [] then s
    else RunOf(b, Step(b, s, ops[0], limit, ids[0]), ops[1..], limit, ids[1..])
  }

  ghost function OutcomesOf<Id>(b: Backend, s: Store<Id>, ops: seq<Op>, limit: int, ids: seq<Id>): seq<Outcome>
    requires |ids| == |ops|
    decreases |ops|
  {
    if ops == [] then []
    else [PlanOf(b, s, ops[0], limit).outcome] + OutcomesOf(b, Step(b, s, ops[0], limit, ids[0]), ops[1..], limit,
      ids[1..])
  }

  /** Every step draws an id not in use. */
  ghost predicate FreshIds<Id>(b: Backend, s: Store<Id>, ops: seq<Op>, limit: int, ids: seq<Id>)
    requires |ids| == |ops|
    decreases |ops|
  {
    ops != [] ==>
      ids[0] !in s.nodes && FreshIds(b, Step(b, s, ops[0], limit, ids[0]), ops[1..], limit, ids[1..])
  }

  ghost predicate AgreeableRun<Id>(s: Store<Id>, ops: seq<Op>, limit: int, ids: seq<Id>)
    requires |ids| == |ops|
    decreases |ops|
  {
    ops != [] ==>
      && Agreeable(s, ops[0], limit) && !(ops[0].Rename? && ops[0].name == ROOT)
      && AgreeableRun(Step(InMemory, s, ops[0], limit, ids[0]), ops[1..], limit, ids[1..])
  }

  /** Runs on both implementations report the same outcomes and end indistinguishable; the end of every
      prefix is the end of a run. */
  lemma {:induction false} RunsAgree<A, B>(s: Store<A>, t: Store<B>, ops: seq<Op>, limit: int, a: seq<A>, b: seq<B>)
    requires Tree(s) && Related(s, t) && |a| == |b| == |ops|
    requires FreshIds(InMemory, s, ops, limit, a) && FreshIds(InTables, t, ops, limit, b)
    requires AgreeableRun(s, ops, limit, a)
    ensures OutcomesOf(InMemory, s, ops, limit, a) == OutcomesOf(InTables, t, ops, limit, b)
    ensures Related(RunOf(InMemory, s, ops, limit, a), RunOf(InTables, t, ops, limit, b))
    ensures Tree(RunOf(InMemory, s, ops, limit, a))
    decreases |ops|
  {
    if ops != [] {
      StepsAgree(s, t, ops[0], limit, a[0], b[0]);
      StepKeepsTree(InMemory, s, ops[0], limit, a[0]);
      hide Tree, Related, Step, PlanOf, Agreeable;
      RunsAgree(Step(InMemory, s, ops[0], limit, a[0]), Step(InTables, t, ops[0], limit, b[0]), ops[1..], limit,
        a[1..], b[1..]);
    }
  }

  /** Both implementations start with a root directory only. */
  lemma FreshStoresRelated<A, B>(s: Store<A>, t: Store<B>)
    requires Consistent(s) && Consistent(t)
    requires s.paths.Keys == {ROOT} && s.nodes.Values == {DirNode()}
    requires t.paths.Keys == {ROOT} && t.nodes.Values == {DirNode()}
    ensures Related(s, t) && Tree(s)
  {
    assert ROOT in s.paths && ROOT in t.paths;
    assert s.paths[ROOT] in s.paths.Values && t.paths[ROOT] in t.paths.Values;
    assert At(s, ROOT) in s.nodes.Values && At(t, ROOT) in t.nodes.Values;
    forall p, q ensures SameSharing(s.paths, t.paths, p, q) {}
    RelatedIntro(s, t);
  }
}

/** What pkg/fs/copy.go leaves in a destination: a source tree merged over what is at its mount point, entry by
    entry. */
module Merging {
  import opened Results
  import opened Paths
  import opened Files
  import opened FileLaws
  import opened Rebasing
  import opened Database

  /** A source filesystem, as the copier reads it: its entries by path. */
  type Source = map<Path, Inode>

  ghost predicate SourceEntry(source: Source, p: Path) {
    ValidName(p) && (p != ROOT ==> Parent(p) in source && source[Parent(p)].kind == Directory)
  }

  ghost predicate SourceTree(source: Source) {
    && ROOT in source && source[ROOT].kind == Directory
    && forall p {:trigger SourceEntry(source, p)} | p in source :: SourceEntry(source, p)
  }

  // ------------------------------------------------------------ what arrives

  /** An entry of the source as it is made in the destination. */
  function Carried(root: Path, inode: Inode): Inode {
    match inode.kind
    case Regular => FileNode(inode.data)
    case Directory => DirNode()
    case Symlink => LinkNode(Rebase(root, inode.target))
  }

  /** What can be read of a node: data of files, targets of links. */
  function Seen(inode: Inode): Inode {
    match inode.kind
    case Regular => FileNode(inode.data)
    case Directory => DirNode()
    case Symlink => LinkNode(inode.target)
  }

  /** The readable content of a store, by path. */
  ghost function Content<Id>(s: Store<Id>): map<Path, Inode> {
    map p | p in s.paths && Present(s, p) :: Seen(At(s, p))
  }

  /** The subtree at the mount point is the source. */
  ghost predicate Holds(c: map<Path, Inode>, root: Path, source: Source) {
    forall p | root <= p ::
      && (p in c <==> p[|root|..] in source)
      && (p in c ==> c[p] == Carried(root, source[p[|root|..]]))
  }

  /** The copy of an entry but for its data: the kind is kept, and the target of a link too, unless it is absolute
      and the mount point is not the root; and links lead where they led if they never climb above the root. */
  ghost predicate CopiesPlace(root: Path, name: Path, original: Inode, copy: Inode) {
    && copy.kind == original.kind
    && (original.kind == Kind.Symlink ==>
          && copy.target.absolute == original.target.absolute
          && (root == ROOT || !original.target.absolute ==> copy.target == original.target)
          && forall rest :: Redirect(root + name, copy.target, rest) == root + Redirect(name, original.target, rest)
                <==> root == ROOT || !Climbs(original.target.parts, Depth(name, original.target)))
  }

  ghost predicate Copies(root: Path, name: Path, original: Inode, copy: Inode) {
    CopiesPlace(root, name, original, copy) && (original.kind == Regular ==> copy.data == original.data)
  }

  /** At and below the mount point there is a copy of each entry of the source, and nothing else. */
  ghost predicate Mirrors(c: map<Path, Inode>, root: Path, source: Source) {
    && (forall name | name in source :: root + name in c && Copies(root, name, source[name], c[root + name]))
    && forall p | p in c && root <= p :: p[|root|..] in source
  }

  lemma CarriedCopies(root: Path, name: Path, original: Inode)
    requires ValidName(root) && ValidName(name) && (original.kind == Kind.Symlink ==> name != ROOT)
    ensures Copies(root, name, original, Carried(root, original))
  {
    if original.kind == Kind.Symlink {
      var t := original.target;
      forall rest
        ensures Redirect(root + name, Rebase(root, t), rest) == root + Redirect(name, t, rest)
          <==> root == ROOT || !Climbs(t.parts, Depth(name, t))
      {
        RebaseMeaning(root, name, t, rest);
      }
    }
    hide Redirect, Climbs;
  }

  lemma HoldsMirrors(c: map<Path, Inode>, root: Path, source: Source)
    requires ValidName(root) && SourceTree(source) && Holds(c, root, source)
    ensures Mirrors(c, root, source)
  {
    hide Carried, Copies;
    forall name | name in source ensures root + name in c && Copies(root, name, source[name], c[root + name]) {
      assert SourceEntry(source, name);
      assert root <= root + name && (root + name)[|root|..] == name;
      CarriedCopies(root, name, source[name]);
    }
  }

  /** Outside the mount point nothing changed, but for missing directories on the way to it. */
  ghost predicate KeptOutside(before: map<Path, Inode>, after: map<Path, Inode>, root: Path) {
    forall p | !(root <= p) ::
      && (p in after <==> p in before || p < root)
      && (p in after ==> after[p] == if p in before then before[p] else DirNode())
  }

  /** On the way to a name there is nothing but directories and missing entries. */
  ghost predicate ClearTo(s: Store<int>, name: Path, k: nat)
    requires k <= |name|
  {
    forall j | 0 <= j < k && name[..j] in s.paths :: IsDirectory(s, name[..j])
  }

  /** A free mount point: missing, or an empty directory. */
  ghost predicate Free(s: Store<int>, root: Path) {
    && ValidName(root) && ClearTo(s, root, |root|)
    && (root in s.paths ==> IsDirectory(s, root)) && forall p | p in s.paths :: !(root < p)
  }

  // ------------------------------------------------------- effects on content

  lemma ContentIs(s: Store<int>)
    requires Consistent(s)
    ensures Content(s).Keys == s.paths.Keys && forall p | p in s.paths ::
      Present(s, p) && Content(s)[p] == Seen(At(s, p))
  {
    forall p | p in s.paths ensures Present(s, p) { assert s.paths[p] in s.paths.Values; }
  }

  lemma PruneContent(s: Store<int>, p: Path)
    requires Tree(s)
    ensures Content(Execute(s, Prune(p), 0)) == map q | q in Content(s) && !Within(p, q) :: Content(s)[q]
  {
    var paths := Without(s.paths, p);
    assert paths.Values <= s.nodes.Keys;
    GatherEntries(paths, s.nodes);
    ContentIs(s);
    ContentIs(Execute(s, Prune(p), 0));
    hide Gather, Tree, Consistent;
  }

  /** At a free name in a directory every creating operation creates exactly there, and removal finds
      nothing. */
  lemma FreshPlans(s: Store<int>, p: Path, inode: Inode, data: Bytes, follow: bool, limit: int)
    requires Tree(s) && ValidName(p) && p != ROOT && p !in s.paths && IsDirectory(s, Parent(p))
    ensures CreatePlan(s, p, inode, follow, limit) ==
      if Exceeds(s, limit, |inode.data|) then Refuse(Quota) else Perform(Create(p, inode))
    ensures WritePlan(InTables, s, p, data, limit) ==
      if Exceeds(s, limit, |data|) then Refuse(Quota) else Perform(Create(p, FileNode(data)))
    ensures RemoveAllPlan(s, p) == Perform(Keep)
  {
    MissingName(s, p, follow);
    MissingName(s, p, true);
    MissingName(s, p, false);
    hide Resolve, Tree;
  }

  lemma MissingName(s: Store<int>, p: Path, follow: bool)
    requires Tree(s) && ValidName(p) && p != ROOT && p !in s.paths && IsDirectory(s, Parent(p))
    ensures Resolve(s, p, follow, ROUNDS) == Err(NotExist) && Place(s, p) == Ok(p)
  {
    ResolveCanonical(s, Parent(p), true, ROUNDS);
    assert Child(Parent(p), p) == p;
    forall k | 0 < k < |p| ensures IsDirectory(s, p[..k]) {
      if k < |p| - 1 {
        Ancestors(s, Parent(p), k);
        assert Parent(p)[..k] == p[..k];
      }
    }
    ScanThroughDirectories(s, p, follow, 0);
    assert p[..|p|] == p;
  }

  /** A directory that is there stays as it is when it is to be made. */
  lemma ExistingPlan(s: Store<int>, p: Path, limit: int)
    requires Tree(s) && IsDirectory(s, p)
    ensures CreatePlan(s, p, DirNode(), true, limit) == Refuse(Exist)
  {
    assert ValidName(p);
    ResolveCanonical(s, p, true, ROUNDS);
  }

  /** A way that is there already is left alone. */
  lemma {:induction false} MkdirEachNothing(s: Store<int>, id: int, name: Path, k: nat, limit: int)
    requires Tree(s) && k <= |name| && forall j | 0 < j <= k :: IsDirectory(s, name[..j])
    ensures MkdirEach(s, id, name, k, limit) == Made(s, id, Done)
    decreases k
  {
    if k > 0 {
      MkdirEachNothing(s, id, name, k - 1, limit);
      ExistingPlan(s, name[..k], limit);
    }
  }

  // ---------------------------------------------------------- source names

  function Below(source: Source, p: Path): set<Path> {
    set q | q in source && p <= q
  }

  lemma LeafBelow(source: Source, name: Path)
    requires SourceTree(source) && name in source && source[name].kind != Directory
    ensures Below(source, name) == {name}
  {
    forall q | q in source && name <= q ensures q == name {
      assert q[..|name|] == name;
      if |name| < |q| {
        SourceAbove(source, q, |name|);
      }
    }
  }

  lemma {:induction false} SourceAbove(source: Source, p: Path, k: nat)
    requires SourceTree(source) && p in source && k < |p|
    ensures p[..k] in source && source[p[..k]].kind == Directory
    decreases |p|
  {
    assert SourceEntry(source, p);
    if k < |p| - 1 {
      assert Parent(p)[..k] == p[..k];
      SourceAbove(source, Parent(p), k);
    }
  }

  lemma FollowedThere(s: Store<int>, p: Path)
    requires Tree(s) && Present(s, p) && !IsLink(s, p)
    ensures TouchPlan(s, p).outcome == Done
  {
    ResolveCanonical(s, p, true, ROUNDS);
  }

  /** The names ReadDir lists in a directory of the source. */
  function Names(source: Source, p: Path): (names: set<string>)
    ensures forall c :: c in names <==> p + [c] in source
  {
    var names := set q | q in source && q != ROOT && Parent(q) == p :: q[|q| - 1];
    assert forall c :: c in names <==> p + [c] in source by {
      forall c ensures c in names <==> p + [c] in source {
        assert Parent(p + [c]) == p && (p + [c])[|p + [c]| - 1] == c;
        forall q | q in source && q != ROOT && Parent(q) == p && q[|q| - 1] == c ensures q == p + [c] {}
      }
    }
    names
  }

  // ------------------------------------------------------------------ merging

  /** A copy under way: the destination as it was, the mount point, and the source. */
  datatype Merging = Merging(start: Store<int>, root: Path, source: Source)

  predicate CopiedAt(m: Merging, done: set<Path>, p: Path) {
    m.root <= p && p[|m.root|..] in done
  }

  predicate LinkOver(m: Merging, done: set<Path>, p: Path, q: Path) {
    q in done && q in m.source && m.source[q].kind == Kind.Symlink && m.root + q <= p
  }

  /** At or below a copied link: what was there before made way. */
  ghost predicate GivesWay(m: Merging, done: set<Path>, p: Path) {
    exists q :: LinkOver(m, done, p, q)
  }

  ghost predicate Fits(m: Merging, name: Path) {
    name in m.source && m.source[name].kind != Kind.Symlink && m.root + name in m.start.paths ==>
      IsKind(m.start, m.root + name, m.source[name].kind)
  }

  /** What a merge asks of the destination: nothing but directories and missing entries on the way to the mount
      point, and files and directories of the source meet nothing but their like.  Links may meet anything. */
  ghost predicate Mergeable(m: Merging) {
    && Tree(m.start) && SourceTree(m.source) && ValidName(m.root) && ClearTo(m.start, m.root, |m.root|)
    && forall name {:trigger Fits(m, name)} :: Fits(m, name)
  }

  /** The data an entry has in the end if all goes well: that of the source, or its own. */
  ghost function Wanted(m: Merging, p: Path): Bytes {
    if CopiedAt(m, m.source.Keys, p) && m.source[p[|m.root|..]].kind == Regular then m.source[p[|m.root|..]].data
    else DataAt(m.start, p)
  }

  ghost predicate HarmlessAt(m: Merging, name: Path, q: Path) {
    name in m.source && m.source[name].kind == Regular && m.root + name in m.start.paths && q in m.start.paths
    && m.start.paths[q] == m.start.paths[m.root + name] && !GivesWay(m, m.source.Keys, q)
    ==> Wanted(m, q) == m.source[name].data
  }

  /** No file that is overwritten has another name, unless the same data is wanted there. */
  ghost predicate Harmless(m: Merging) {
    forall name, q {:trigger HarmlessAt(m, name, q)} :: HarmlessAt(m, name, q)
  }

  // ----------------------------------------------------- states of a merge

  /** The only name of its node. */
  ghost predicate Alone(t: Store<int>, p: Path) {
    p in t.paths && forall q | q in t.paths && t.paths[q] == t.paths[p] :: q == p
  }

  /** The entry at p once the names in done have been copied, but for its data. */
  ghost predicate EntryStands(m: Merging, t: Store<int>, done: set<Path>, p: Path)
    requires done <= m.source.Keys
  {
    if CopiedAt(m, done, p) then
      var e := m.source[p[|m.root|..]];
      && Present(t, p) && At(t, p).kind == e.kind
      && (e.kind == Kind.Symlink ==> At(t, p).target == Rebase(m.root, e.target))
      && (if p in m.start.paths && e.kind != Kind.Symlink then t.paths[p] == m.start.paths[p] else Alone(t, p))
    else if p in m.start.paths && !GivesWay(m, done, p) then
      && Present(t, p) && Present(m.start, p) && t.paths[p] == m.start.paths[p]
      && At(t, p).kind == At(m.start, p).kind && At(t, p).target == At(m.start, p).target
    else if p < m.root then IsDirectory(t, p) && Alone(t, p)
    else p !in t.paths
  }

  /** Its data. */
  ghost predicate DataStands(m: Merging, t: Store<int>, done: set<Path>, p: Path) {
    IsKind(t, p, Regular) && !GivesWay(m, m.source.Keys, p) ==>
      DataAt(t, p) == Wanted(m, p) || (!CopiedAt(m, done, p) && DataAt(t, p) == DataAt(m.start, p))
  }

  ghost predicate Standing(m: Merging, t: Store<int>, done: set<Path>) {
    && Tree(t) && done <= m.source.Keys
    && (forall p {:trigger EntryStands(m, t, done, p)} :: EntryStands(m, t, done, p))
    && (Harmless(m) ==> forall p {:trigger DataStands(m, t, done, p)} :: DataStands(m, t, done, p))
  }

  /** Where the copying of an entry starts: its parent has been copied, and nothing at or below it. */
  ghost predicate AtEntry(m: Merging, t: Store<int>, done: set<Path>, name: Path) {
    && Mergeable(m) && Standing(m, t, done)
    && name in m.source && name != ROOT && Parent(name) in done && forall q | q in done :: !(name <= q)
  }

  /** A name of the source is not below a link of the source. */
  lemma NotUnderLink(m: Merging, done: set<Path>, name: Path)
    requires SourceTree(m.source) && done <= m.source.Keys && name in m.source
    requires m.source[name].kind != Kind.Symlink || name !in done
    ensures !GivesWay(m, done, m.root + name)
  {
    forall q ensures !LinkOver(m, done, m.root + name, q) {
      if LinkOver(m, done, m.root + name, q) {
        assert (m.root + name)[|m.root|..] == name && (m.root + name)[..|m.root + q|] == m.root + q;
        assert name[..|q|] == (m.root + name)[|m.root|..|m.root + q|] == q;
        assert |q| == |name| ==> q == name by { assert name[..|name|] == name; }
        if |q| < |name| {
          SourceAbove(m.source, name, |q|);
        }
      }
    }
  }

  /** Where an entry goes, and what it finds there. */
  lemma EntryPlace(m: Merging, t: Store<int>, done: set<Path>, name: Path)
    requires AtEntry(m, t, done, name)
    ensures var p := m.root + name;
      && p != ROOT && ValidName(p) && !CopiedAt(m, done, p) && !(p <= m.root) && IsDirectory(t, Parent(p))
      && !GivesWay(m, done, p) && (p in t.paths <==> p in m.start.paths)
      && (p in t.paths ==> t.paths[p] == m.start.paths[p])
      && (p in t.paths && m.source[name].kind != Kind.Symlink ==> IsKind(t, p, m.source[name].kind))
  {
    var p := m.root + name;
    assert p[|m.root|..] == name && SourceEntry(m.source, name) && Fits(m, name);
    assert Parent(p) == m.root + Parent(name) && Parent(p)[|m.root|..] == Parent(name);
    assert m.root <= Parent(p) && m.root <= p;
    NotUnderLink(m, done, name);
    assert EntryStands(m, t, done, p) && EntryStands(m, t, done, Parent(p));
    hide Tree, GivesWay, SourceTree, Harmless;
  }

  // ---------------------------------------------------------- making the way

  /** An entry after the leading k names on a way were made. */
  ghost predicate OnWay(s: Store<int>, t: Store<int>, name: Path, k: nat, p: Path) {
    if p in s.paths then Present(s, p) && Present(t, p) && t.paths[p] == s.paths[p] && At(t, p) == At(s, p)
    else if p <= name && |p| <= k then IsDirectory(t, p) && Alone(t, p)
    else p !in t.paths
  }

  /** A new entry at a free name, and what it leaves as it was. */
  lemma CreatedEntry(t: Store<int>, p: Path, inode: Inode, id: int)
    requires Tree(t) && ValidName(p) && p != ROOT && p !in t.paths && IsDirectory(t, Parent(p)) && id !in t.nodes
    requires inode.kind != Regular ==> inode.data == []
    ensures var u := Execute(t, Create(p, inode), id);
      && Tree(u) && u.paths == t.paths[p := id] && Alone(u, p)
      && (forall q | q in u.paths :: AfterCreate(t, u, p, inode, q))
      && forall q | q in t.paths && Alone(t, q) :: Alone(u, q)
  {
    CreateTree(t, p, inode, id);
    CreateKeeps(t, p, inode, id);
    assert forall q | q in t.paths :: t.paths[q] in t.paths.Values;
    hide Execute;
  }

  lemma WayStep(s: Store<int>, t: Store<int>, id: int, name: Path, k: nat, limit: int)
    requires Tree(s) && Tree(t) && ValidName(name) && 0 < k <= |name| && forall i | i in t.nodes :: i < id
    requires forall p {:trigger OnWay(s, t, name, k - 1, p)} :: OnWay(s, t, name, k - 1, p)
    requires forall j | 0 <= j <= k && name[..j] in s.paths :: IsDirectory(s, name[..j])
    ensures var p := name[..k];
      var plan := CreatePlan(t, p, DirNode(), true, limit);
      var u := Execute(t, plan.effect, id);
      && (plan.outcome == Done || plan.outcome == Failed(Exist)) && (plan.effect.Create? || plan.effect.Keep?)
      && Tree(u) && (forall i | i in u.nodes :: i < id + if plan.effect.Create? then 1 else 0)
      && forall q {:trigger OnWay(s, u, name, k, q)} :: OnWay(s, u, name, k, q)
  {
    var p := name[..k];
    assert Parent(p) == name[..k - 1];
    assert ValidName(p) by { assert forall e | e in p :: e in name; }
    assert OnWay(s, t, name, k - 1, p) && OnWay(s, t, name, k - 1, Parent(p));
    assert IsDirectory(t, Parent(p));
    forall q | q <= name && |q| == k ensures q == p {}
    hide CreatePlan, Tree, Execute;
    if p in t.paths {
      ExistingPlan(t, p, limit);
      forall q ensures OnWay(s, t, name, k, q) { assert OnWay(s, t, name, k - 1, q); }
      KeepIs(t, id);
    } else {
      FreshPlans(t, p, DirNode(), [], true, limit);
      assert id !in t.nodes;
      CreatedEntry(t, p, DirNode(), id);
      var u := Execute(t, Create(p, DirNode()), id);
      TreeIds(t, u, p, id);
      forall q ensures OnWay(s, u, name, k, q) {
        assert OnWay(s, t, name, k - 1, q);
        assert q in u.paths ==> AfterCreate(t, u, p, DirNode(), q);
      }
    }
  }

  lemma KeepIs(t: Store<int>, id: int)
    ensures Execute(t, Keep, id) == t
  {
  }

  lemma TreeIds(t: Store<int>, u: Store<int>, p: Path, id: int)
    requires Tree(t) && Tree(u) && u.paths == t.paths[p := id] && forall i | i in t.nodes :: i < id
    ensures forall i | i in u.nodes :: i < id + 1
  {
    forall i | i in u.nodes ensures i < id + 1 {
      var q :| q in u.paths && u.paths[q] == i;
      assert q != p ==> t.paths[q] in t.paths.Values;
    }
  }

  lemma WayBegins(s: Store<int>, name: Path)
    requires Tree(s)
    ensures forall p {:trigger OnWay(s, s, name, 0, p)} :: OnWay(s, s, name, 0, p)
  {
    forall p ensures OnWay(s, s, name, 0, p) {
      assert p in s.paths ==> s.paths[p] in s.paths.Values;
      assert |p| == 0 ==> p == ROOT;
    }
  }

  /** Making a clear way gives the missing directories on it and nothing else. */
  lemma {:induction false} MkdirEachContent(s: Store<int>, id: int, name: Path, k: nat, limit: int)
    requires Tree(s) && ValidName(name) && k <= |name| && forall i | i in s.nodes :: i < id
    requires forall j | 0 <= j <= k && name[..j] in s.paths :: IsDirectory(s, name[..j])
    ensures var m := MkdirEach(s, id, name, k, limit);
      && m.outcome == Done && Tree(m.store) && (forall i | i in m.store.nodes :: i < m.nextId)
      && forall p {:trigger OnWay(s, m.store, name, k, p)} :: OnWay(s, m.store, name, k, p)
    decreases k
  {
    if k == 0 {
      WayBegins(s, name);
    } else {
      var up := MkdirEach(s, id, name, k - 1, limit);
      hide Tree, CreatePlan, Execute, OnWay;
      MkdirEachContent(s, id, name, k - 1, limit);
      WayStep(s, up.store, up.nextId, name, k, limit);
    }
  }

  /** MkdirAll of a name whose parent is a directory. */
  lemma LastDirectory(t: Store<int>, id: int, p: Path, limit: int)
    requires Tree(t) && ValidName(p) && p != ROOT && IsDirectory(t, Parent(p)) && (p in t.paths ==> IsDirectory(t, p))
    ensures MkdirEach(t, id, p, |p|, limit) ==
      if p in t.paths then Made(t, id, Done) else Made(Execute(t, Create(p, DirNode()), id), id + 1, Done)
  {
    forall j | 0 < j <= |p| - 1 ensures IsDirectory(t, p[..j]) {
      assert p[..j] == Parent(p)[..j];
      if j < |p| - 1 {
        Ancestors(t, Parent(p), j);
      }
    }
    MkdirEachNothing(t, id, p, |p| - 1, limit);
    assert p[..|p|] == p;
    if p in t.paths {
      ExistingPlan(t, p, limit);
    } else {
      FreshPlans(t, p, DirNode(), [], true, limit);
    }
    hide Tree, CreatePlan;
  }

  // --------------------------------------------------------- one more entry

  lemma CopiedMore(m: Merging, done: set<Path>, name: Path, q: Path)
    ensures CopiedAt(m, done + {name}, q) <==> CopiedAt(m, done, q) || q == m.root + name
    ensures CopiedAt(m, {name}, m.root + name) && (m.root + name)[|m.root|..] == name
  {
    assert (m.root + name)[|m.root|..] == name;
    assert m.root <= q ==> q == m.root + q[|m.root|..];
  }

  lemma GivesMore(m: Merging, done: set<Path>, name: Path, q: Path)
    requires name in m.source
    ensures GivesWay(m, done + {name}, q) <==>
      GivesWay(m, done, q) || (m.source[name].kind == Kind.Symlink && m.root + name <= q)
  {
    if GivesWay(m, done, q) {
      var r :| LinkOver(m, done, q, r);
      assert LinkOver(m, done + {name}, q, r);
    }
    if m.source[name].kind == Kind.Symlink && m.root + name <= q {
      assert LinkOver(m, done + {name}, q, name);
    }
    if GivesWay(m, done + {name}, q) {
      var r :| LinkOver(m, done + {name}, q, r);
      assert r != name ==> LinkOver(m, done, q, r);
    }
  }

  /** What is left to show of a step: of every entry, that it stands, and its data too. */
  lemma StandsOn(m: Merging, u: Store<int>, done: set<Path>, name: Path)
    requires Tree(u) && done <= m.source.Keys && name in m.source
    requires forall q {:trigger EntryStands(m, u, done + {name}, q)} :: EntryStands(m, u, done + {name}, q)
    requires Harmless(m) ==>
      forall q {:trigger DataStands(m, u, done + {name}, q)} :: DataStands(m, u, done + {name}, q)
    ensures Standing(m, u, done + {name})
  {
    hide EntryStands, DataStands, Harmless, Tree;
  }

  /** A file or directory made where nothing is. */
  lemma EntryCreated(m: Merging, t: Store<int>, done: set<Path>, name: Path, id: int)
    requires AtEntry(m, t, done, name) && m.source[name].kind != Kind.Symlink && m.root + name !in t.paths
    requires id !in t.nodes
    ensures Standing(m, Execute(t, Create(m.root + name, Carried(m.root, m.source[name])), id), done + {name})
  {
    var p, e := m.root + name, m.source[name];
    var inode := Carried(m.root, e);
    var u := Execute(t, Create(p, inode), id);
    EntryPlace(m, t, done, name);
    CreatedEntry(t, p, inode, id);
    hide Execute, Tree, Rebase, Mergeable;
    forall q
      ensures EntryStands(m, u, done + {name}, q)
      ensures Harmless(m) ==> DataStands(m, u, done + {name}, q)
    {
      CopiedMore(m, done, name, q);
      GivesMore(m, done, name, q);
      assert EntryStands(m, t, done, q) && (Harmless(m) ==> DataStands(m, t, done, q));
      assert q in u.paths ==> AfterCreate(t, u, p, inode, q);
      hide Harmless, GivesWay, CopiedAt;
    }
    StandsOn(m, u, done, name);
  }

  /** A directory met by a directory. */
  lemma DirectoryMet(m: Merging, t: Store<int>, done: set<Path>, name: Path)
    requires AtEntry(m, t, done, name) && m.source[name].kind == Directory && m.root + name in t.paths
    ensures Standing(m, t, done + {name})
  {
    EntryPlace(m, t, done, name);
    hide Tree, Rebase, Mergeable;
    forall q
      ensures EntryStands(m, t, done + {name}, q)
      ensures Harmless(m) ==> DataStands(m, t, done + {name}, q)
    {
      CopiedMore(m, done, name, q);
      GivesMore(m, done, name, q);
      assert EntryStands(m, t, done, q) && (Harmless(m) ==> DataStands(m, t, done, q));
      hide Harmless, GivesWay, CopiedAt;
    }
    StandsOn(m, t, done, name);
  }

  /** A file written over a file, and under all other names of that file. */
  lemma FileWritten(m: Merging, t: Store<int>, done: set<Path>, name: Path, id: int)
    requires AtEntry(m, t, done, name) && m.source[name].kind == Regular && m.root + name in t.paths
    ensures Standing(m, Execute(t, SetData(m.root + name, m.source[name].data), id), done + {name})
  {
    var p, data := m.root + name, m.source[name].data;
    var u := Execute(t, SetData(p, data), id);
    EntryPlace(m, t, done, name);
    SetDataTree(t, p, data, id);
    SetDataEntries(t, p, data, id);
    hide Execute, Tree, Rebase, Mergeable;
    forall q
      ensures EntryStands(m, u, done + {name}, q)
      ensures Harmless(m) ==> DataStands(m, u, done + {name}, q)
    {
      CopiedMore(m, done, name, q);
      GivesMore(m, done, name, q);
      assert EntryStands(m, t, done, q) && (Harmless(m) ==> DataStands(m, t, done, q));
      assert Harmless(m) ==> HarmlessAt(m, name, q);
      assert EntryStands(m, t, done, p);
      hide Harmless, GivesWay, CopiedAt;
    }
    StandsOn(m, u, done, name);
  }

  /** A destination from which a name has been cleared. */
  ghost predicate Cleared(t: Store<int>, u: Store<int>, p: Path) {
    && Tree(u) && u.nodes.Keys <= t.nodes.Keys && (forall q :: q in u.paths <==> q in t.paths && !(p <= q))
    && (forall q | q in u.paths ::
          Present(u, q) && Present(t, q) && u.paths[q] == t.paths[q] && At(u, q) == At(t, q))
    && forall q | q in u.paths && Alone(t, q) :: Alone(u, q)
  }

  lemma PrunedEntries(t: Store<int>, p: Path)
    requires Tree(t) && p in t.paths && p != ROOT
    ensures Cleared(t, Execute(t, Prune(p), 0), p)
  {
    PruneTree(t, p, 0);
    var paths := Without(t.paths, p);
    assert paths.Values <= t.nodes.Keys;
    assert forall q | q in t.paths :: t.paths[q] in t.paths.Values;
    GatherEntries(paths, t.nodes);
    hide Tree, Consistent;
  }

  lemma NothingBelow(t: Store<int>, p: Path, q: Path)
    requires Tree(t) && p !in t.paths && q in t.paths
    ensures Present(t, q) && !(p <= q)
  {
    assert t.paths[q] in t.paths.Values;
    assert p <= q ==> q[..|p|] == p && (|p| == |q| ==> p == q);
    if p < q {
      Ancestors(t, q, |p|);
    }
  }

  /** RemoveAll of a name whose parent is a directory. */
  lemma NameCleared(t: Store<int>, p: Path)
    requires Tree(t) && ValidName(p) && p != ROOT && IsDirectory(t, Parent(p))
    ensures RemoveAllPlan(t, p).outcome == Done && Cleared(t, Execute(t, RemoveAllPlan(t, p).effect, 0), p)
  {
    if p in t.paths {
      ResolveCanonical(t, p, false, ROUNDS);
      PrunedEntries(t, p);
      hide Cleared;
    } else {
      FreshPlans(t, p, DirNode(), [], true, 0);
      KeepIs(t, 0);
      hide Tree, RemoveAllPlan;
      forall q | q in t.paths ensures Present(t, q) && !(p <= q) { NothingBelow(t, p, q); }
    }
  }

  lemma LinkStands(m: Merging, t: Store<int>, u: Store<int>, v: Store<int>, done: set<Path>, name: Path, q: Path)
    requires AtEntry(m, t, done, name) && m.source[name].kind == Kind.Symlink && Cleared(t, u, m.root + name)
    requires var p := m.root + name;
      && (forall r | r in v.paths :: AfterCreate(u, v, p, Carried(m.root, m.source[name]), r))
      && v.paths.Keys == u.paths.Keys + {p} && Alone(v, p) && forall r | r in u.paths && Alone(u, r) :: Alone(v, r)
    ensures EntryStands(m, v, done + {name}, q)
  {
    var p, inode := m.root + name, Carried(m.root, m.source[name]);
    CopiedMore(m, done, name, q);
    GivesMore(m, done, name, q);
    assert EntryStands(m, t, done, q);
    assert q in v.paths ==> AfterCreate(u, v, p, inode, q);
    hide Harmless, GivesWay, Tree, Rebase, Mergeable;
    if p <= q {
      CopiedBelow(m, done, name, q);
    }
    hide CopiedAt, Alone;
  }

  lemma LinkData(m: Merging, t: Store<int>, u: Store<int>, v: Store<int>, done: set<Path>, name: Path, q: Path)
    requires AtEntry(m, t, done, name) && m.source[name].kind == Kind.Symlink && Cleared(t, u, m.root + name)
    requires forall r | r in v.paths :: AfterCreate(u, v, m.root + name, Carried(m.root, m.source[name]), r)
    ensures Harmless(m) ==> DataStands(m, v, done + {name}, q)
  {
    CopiedMore(m, done, name, q);
    assert Harmless(m) ==> DataStands(m, t, done, q);
    assert q in v.paths ==> AfterCreate(u, v, m.root + name, Carried(m.root, m.source[name]), q);
    hide Harmless, GivesWay, CopiedAt, Tree, Mergeable, Rebase;
  }

  /** A link made where whatever was there has been cleared. */
  lemma LinkMade(m: Merging, t: Store<int>, u: Store<int>, done: set<Path>, name: Path, id: int)
    requires AtEntry(m, t, done, name) && m.source[name].kind == Kind.Symlink && Cleared(t, u, m.root + name)
    requires id !in t.nodes
    ensures Standing(m, Execute(u, Create(m.root + name, Carried(m.root, m.source[name])), id), done + {name})
  {
    var p, e := m.root + name, m.source[name];
    var inode := Carried(m.root, e);
    var v := Execute(u, Create(p, inode), id);
    EntryPlace(m, t, done, name);
    assert !(p <= Parent(p));
    CreatedEntry(u, p, inode, id);
    hide Execute, Tree, Rebase, Mergeable;
    forall q ensures EntryStands(m, v, done + {name}, q) {
      LinkStands(m, t, u, v, done, name, q);
    }
    forall q ensures Harmless(m) ==> DataStands(m, v, done + {name}, q) {
      LinkData(m, t, u, v, done, name, q);
    }
    hide AtEntry, Cleared, Alone, EntryStands, DataStands, Harmless;
    StandsOn(m, v, done, name);
  }

  lemma CopiedBelow(m: Merging, done: set<Path>, name: Path, q: Path)
    requires forall r | r in done :: !(name <= r)
    requires m.root + name <= q
    ensures !CopiedAt(m, done, q) && !(q < m.root)
  {
    assert q == m.root + name + q[|m.root + name|..];
    assert q[|m.root|..] == name + q[|m.root + name|..];
  }

  // ------------------------------------------------- where a merge starts and ends

  lemma MergeStarts(m: Merging, id: int, limit: int)
    requires Mergeable(m) && forall i | i in m.start.nodes :: i < id
    ensures var w := MkdirEach(m.start, id, m.root, |m.root|, limit);
      w.outcome == Done && Standing(m, w.store, {ROOT})
  {
    assert m.root[..|m.root|] == m.root && m.root + ROOT == m.root && Fits(m, ROOT);
    MkdirEachContent(m.start, id, m.root, |m.root|, limit);
    var t := MkdirEach(m.start, id, m.root, |m.root|, limit).store;
    hide MkdirEach, Tree, Alone;
    forall q
      ensures EntryStands(m, t, {ROOT}, q)
      ensures Harmless(m) ==> DataStands(m, t, {ROOT}, q)
    {
      assert OnWay(m.start, t, m.root, |m.root|, q);
      CopiedMore(m, {}, ROOT, q);
      GivesMore(m, {}, ROOT, q);
      assert {} + {ROOT} == {ROOT} && !CopiedAt(m, {}, q) && !GivesWay(m, {}, q);
      assert q == m.root ==> q[|m.root|..] == ROOT;
      assert q <= m.root ==> |q| < |m.root| || q == m.root;
      hide Harmless, GivesWay, CopiedAt;
    }
  }

  /** Which entries there are in the end, of which kinds and with which targets: those of the source at the mount
      point, and apart from them those that were there before, less what made way for a link, and the
      directories made on the way to the mount point. */
  ghost predicate PlaceMerged(m: Merging, t: Store<int>, p: Path) {
    if CopiedAt(m, m.source.Keys, p) then
      Present(t, p) && CopiesPlace(m.root, p[|m.root|..], m.source[p[|m.root|..]], At(t, p))
    else if p in m.start.paths && !GivesWay(m, m.source.Keys, p) then
      && Present(t, p) && Present(m.start, p)
      && At(t, p).kind == At(m.start, p).kind && At(t, p).target == At(m.start, p).target
    else if p < m.root then IsDirectory(t, p)
    else p !in t.paths
  }

  ghost predicate PlacesMerged(m: Merging, t: Store<int>) {
    forall p {:trigger PlaceMerged(m, t, p)} :: PlaceMerged(m, t, p)
  }

  /** Files of the source have their data, and all other files that are left the data they had. */
  ghost predicate DataMerged(m: Merging, t: Store<int>) {
    && (forall name | name in m.source && m.source[name].kind == Regular ::
          DataAt(t, m.root + name) == m.source[name].data)
    && forall p | p in m.start.paths && !CopiedAt(m, m.source.Keys, p) && !GivesWay(m, m.source.Keys, p) ::
         DataAt(t, p) == DataAt(m.start, p)
  }

  lemma StandingPlaces(m: Merging, t: Store<int>)
    requires Mergeable(m) && Standing(m, t, m.source.Keys)
    ensures PlacesMerged(m, t)
  {
    forall p ensures PlaceMerged(m, t, p) {
      assert EntryStands(m, t, m.source.Keys, p);
      if CopiedAt(m, m.source.Keys, p) {
        var name := p[|m.root|..];
        assert SourceEntry(m.source, name) && p == m.root + name;
        CarriedCopies(m.root, name, m.source[name]);
      }
      hide Tree, GivesWay, Harmless, Rebase, CopiesPlace, Alone;
    }
  }

  /** Two names of a file that are both left at the end still have the same data. */
  lemma SharedStays(m: Merging, t: Store<int>, name: Path, q: Path)
    requires Mergeable(m) && Standing(m, t, m.source.Keys) && DataMerged(m, t)
    ensures HarmlessAt(m, name, q)
  {
    if name in m.source && m.source[name].kind == Regular && m.root + name in m.start.paths && q in m.start.paths
      && m.start.paths[q] == m.start.paths[m.root + name] && !GivesWay(m, m.source.Keys, q)
    {
      var p := m.root + name;
      assert p[|m.root|..] == name && Fits(m, name);
      assert EntryStands(m, t, m.source.Keys, p) && EntryStands(m, t, m.source.Keys, q);
      if CopiedAt(m, m.source.Keys, q) {
        var other := q[|m.root|..];
        assert q == m.root + other && Fits(m, other);
        assert m.source[other].kind == Kind.Symlink ==> LinkOver(m, m.source.Keys, q, other);
      }
      hide Tree, GivesWay, Rebase;
      assert t.paths[p] == t.paths[q];
    }
  }

  /** Exactly when the data is as it should be in the end. */
  lemma StandingData(m: Merging, t: Store<int>)
    requires Mergeable(m) && Standing(m, t, m.source.Keys)
    ensures DataMerged(m, t) <==> Harmless(m)
  {
    if DataMerged(m, t) {
      forall name, q ensures HarmlessAt(m, name, q) { SharedStays(m, t, name, q); }
    }
    if Harmless(m) {
      forall name | name in m.source && m.source[name].kind == Regular
        ensures DataAt(t, m.root + name) == m.source[name].data
      {
        var p := m.root + name;
        assert p[|m.root|..] == name;
        NotUnderLink(m, m.source.Keys, name);
        assert EntryStands(m, t, m.source.Keys, p) && DataStands(m, t, m.source.Keys, p);
      }
      forall p | p in m.start.paths && !CopiedAt(m, m.source.Keys, p) && !GivesWay(m, m.source.Keys, p)
        ensures DataAt(t, p) == DataAt(m.start, p)
      {
        assert EntryStands(m, t, m.source.Keys, p) && DataStands(m, t, m.source.Keys, p);
        assert Bare(t, p) && Bare(m.start, p);
      }
    }
  }

  /** At a free mount point a merge is harmless. */
  lemma FreeMerges(s: Store<int>, root: Path, source: Source)
    requires Tree(s) && SourceTree(source) && Free(s, root)
    ensures Mergeable(Merging(s, root, source)) && Harmless(Merging(s, root, source))
  {
    var m := Merging(s, root, source);
    assert root + ROOT == root;
    forall name ensures Fits(m, name) { assert name != ROOT ==> root < root + name; }
    forall name, q ensures HarmlessAt(m, name, q) { assert name != ROOT ==> root < root + name; }
  }

  /** And at its end a mount point that was free holds the source. */
  lemma StandingHolds(m: Merging, t: Store<int>)
    requires Mergeable(m) && Free(m.start, m.root) && Standing(m, t, m.source.Keys)
    ensures Holds(Content(t), m.root, m.source) && KeptOutside(Content(m.start), Content(t), m.root)
  {
    FreeMerges(m.start, m.root, m.source);
    StandingData(m, t);
    ContentIs(t);
    ContentIs(m.start);
    forall p | m.root <= p
      ensures p in Content(t) <==> p[|m.root|..] in m.source
      ensures p in Content(t) ==> Content(t)[p] == Carried(m.root, m.source[p[|m.root|..]])
    {
      var name := p[|m.root|..];
      assert p == m.root + name && EntryStands(m, t, m.source.Keys, p);
      assert p == m.root ==> name == ROOT;
    }
    forall p | !(m.root <= p)
      ensures p in Content(t) <==> p in Content(m.start) || p < m.root
      ensures p in Content(t) ==> Content(t)[p] == if p in Content(m.start) then Content(m.start)[p] else DirNode()
    {
      assert EntryStands(m, t, m.source.Keys, p);
      NoWayOutside(m, p);
    }
  }

  lemma NoWayOutside(m: Merging, p: Path)
    requires !(m.root <= p)
    ensures !GivesWay(m, m.source.Keys, p)
  {
    forall q ensures !LinkOver(m, m.source.Keys, p, q) {
      assert m.root <= m.root + q;
      assert m.root + q <= p ==> m.root <= p;
    }
  }

  // ------------------------------------------------------------------ an input

  const M: Path := ["m"]
  const F: Path := ["f"]
  const G: Path := ["g"]
  const MF: Path := ["m", "f"]

  /** A destination where m/f has the second name g, and a source with a file f. */
  const SHARED: Store<int> :=
    Store(map[ROOT := 1, M := 2, MF := 3, G := 3], map[1 := DirNode(), 2 := DirNode(), 3 := FileNode([])])
  const ONE_FILE: Source := map[ROOT := DirNode(), F := FileNode([1])]

  lemma SharedIsTree()
    ensures Tree(SHARED) && SourceTree(ONE_FILE)
  {
    assert Parent(M) == ROOT && Parent(G) == ROOT && Parent(F) == ROOT && Parent(MF) == M;
    assert MF[0] == "m" && MF[1] == "f" && |"m"| == |"f"| == |"g"| == 1;
    assert SHARED.paths[ROOT] == 1 && SHARED.paths[M] == 2 && SHARED.paths[MF] == 3 && SHARED.paths[G] == 3;
    assert SHARED.paths.Values == {1, 2, 3};
    forall p | p in SHARED.paths ensures ValidName(p) && ParentIsDirectory(SHARED, p) && Bare(SHARED, p) {
      assert p == ROOT || p == M || p == MF || p == G;
    }
    forall p | p in ONE_FILE ensures SourceEntry(ONE_FILE, p) { assert p == ROOT || p == F; }
  }

  /** The mount on m may merge, but then the file g, of which the source knows nothing, gets the data of f too. */
  lemma SharedExample()
    ensures var m := Merging(SHARED, M, ONE_FILE);
      Mergeable(m) && !Harmless(m) && !CopiedAt(m, ONE_FILE.Keys, G) && Wanted(m, G) == []
  {
    var m := Merging(SHARED, M, ONE_FILE);
    SharedIsTree();
    hide Tree, SourceTree;
    assert M[..0] == ROOT && M[..1] == M && M + ROOT == M && M + F == MF && G[0] != M[0];
    forall name ensures Fits(m, name) { assert name in ONE_FILE ==> name == ROOT || name == F; }
    forall q ensures !LinkOver(m, ONE_FILE.Keys, G, q) { assert q in ONE_FILE ==> q == ROOT || q == F; }
    assert SHARED.paths[MF] == 3 && SHARED.paths[G] == 3 && SHARED.nodes[3] == FileNode([]);
    assert ONE_FILE[F] == FileNode([1]);
    assert !HarmlessAt(m, F, G);
  }
}

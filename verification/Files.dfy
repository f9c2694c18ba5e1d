/** The reference filesystem: path entries bound to nodes that hard links may share, symbolic-link
    resolution, and for every operation the effect and outcome it is specified to have.  Memory and
    Database are both proved against it. */
module Files {
  import opened Results
  import opened Paths

  type Bytes = seq<bv8>

  datatype Kind = Regular | Directory | Symlink

  datatype Inode = Inode(kind: Kind, data: Bytes, target: Target)

  function FileNode(data: Bytes): Inode { Inode(Regular, data, NO_TARGET) }

  function DirNode(): Inode { Inode(Directory, [], NO_TARGET) }

  function LinkNode(target: Target): Inode { Inode(Kind.Symlink, [], target) }

  /** Id identifies a node: an object reference in memory, a row id in a table. */
  datatype Store<Id> = Store(paths: map<Path, Id>, nodes: map<Id, Inode>)

  ghost predicate Present<Id>(s: Store<Id>, p: Path) {
    p in s.paths && s.paths[p] in s.nodes
  }

  ghost function At<Id>(s: Store<Id>, p: Path): Inode
    requires Present(s, p)
  {
    s.nodes[s.paths[p]]
  }

  ghost function DataAt<Id>(s: Store<Id>, p: Path): Bytes {
    if Present(s, p) then At(s, p).data else []
  }

  ghost predicate IsKind<Id>(s: Store<Id>, p: Path, kind: Kind) {
    Present(s, p) && At(s, p).kind == kind
  }

  ghost predicate IsDirectory<Id>(s: Store<Id>, p: Path) { IsKind(s, p, Directory) }

  ghost predicate IsLink<Id>(s: Store<Id>, p: Path) { IsKind(s, p, Kind.Symlink) }

  /** An entry whose parent is p; like the listing code, the root counts as a child of itself. */
  ghost predicate HasChildren<Id>(s: Store<Id>, p: Path) {
    exists q | q in s.paths :: Parent(q) == p
  }

  /** Every entry names a node and every node is named. */
  ghost predicate Consistent<Id>(s: Store<Id>) {
    s.nodes.Keys == s.paths.Values
  }

  ghost predicate ParentIsDirectory<Id>(s: Store<Id>, p: Path) {
    p != ROOT ==> IsDirectory(s, Parent(p))
  }

  /** Links and directories carry no data. */
  ghost predicate Bare<Id>(s: Store<Id>, p: Path) {
    Present(s, p) && At(s, p).kind != Regular ==> At(s, p).data == []
  }

  /** Links and directories are never hard-linked. */
  ghost predicate Unshared<Id>(s: Store<Id>, p: Path, q: Path) {
    Present(s, p) && Present(s, q) && s.paths[p] == s.paths[q] && At(s, p).kind != Regular ==> p == q
  }

  /** The shape every operation keeps. */
  ghost predicate Tree<Id>(s: Store<Id>) {
    && Consistent(s)
    && IsDirectory(s, ROOT)
    && (forall p {:trigger ValidName(p)} | p in s.paths :: ValidName(p))
    && (forall p {:trigger ParentIsDirectory(s, p)} | p in s.paths :: ParentIsDirectory(s, p))
    && (forall p {:trigger Bare(s, p)} | p in s.paths :: Bare(s, p))
    && (forall p, q {:trigger Unshared(s, p, q)} | p in s.paths && q in s.paths :: Unshared(s, p, q))
  }

  // ------------------------------------------------------------- resolution

  /** The result of walking a name once: the name stands, or stops at a missing entry, below a
      non-directory, or at a link that replaces the name. */
  datatype Scanned = Found | Missing | Blocked | Redirected(name: Path)

  ghost function Scan<Id>(s: Store<Id>, name: Path, follow: bool, i: nat): Scanned
    requires i <= |name|
    decreases |name| - i
  {
    if i == |name| then Found
    else
      var cur, final := name[..i + 1], i + 1 == |name|;
      if !Present(s, cur) then Missing
      else if IsLink(s, cur) && (follow || !final) then Redirected(Redirect(cur, At(s, cur).target, name[i + 1..]))
      else if !final && !IsDirectory(s, cur) then Blocked
      else Scan(s, name, follow, i + 1)
  }

  /** The number of walks resolution attempts: the first and one after each of forty links. */
  const ROUNDS: nat := 41

  ghost function Resolve<Id>(s: Store<Id>, name: Path, follow: bool, rounds: nat): Result<Path>
    decreases rounds
  {
    if rounds == 0 then Err(Loop)
    else if !ValidName(name) then Err(Invalid)
    else match Scan(s, name, follow, 0)
      case Found => Ok(name)
      case Missing => Err(NotExist)
      case Blocked => Err(NotDir)
      case Redirected(next) => Resolve(s, next, follow, rounds - 1)
  }

  /** The walks still available, the successful one included, when Resolve succeeds. */
  ghost function Remaining<Id>(s: Store<Id>, name: Path, follow: bool, rounds: nat): nat
    decreases rounds
  {
    if rounds == 0 || !ValidName(name) then 0
    else match Scan(s, name, follow, 0)
      case Found => rounds
      case Missing => 0
      case Blocked => 0
      case Redirected(next) => Remaining(s, next, follow, rounds - 1)
  }

  /** In a tree all proper ancestors of an entry are directories. */
  lemma {:induction false} Ancestors<Id>(s: Store<Id>, p: Path, k: nat)
    requires Tree(s) && p in s.paths && k < |p|
    ensures IsDirectory(s, p[..k])
    decreases |p|
  {
    assert ParentIsDirectory(s, p);
    if k < |p| - 1 {
      assert Parent(p)[..k] == p[..k];
      Ancestors(s, Parent(p), k);
    }
  }

  /** A name none of whose proper prefixes is anything but a directory is walked to its last component. */
  lemma {:induction false} ScanThroughDirectories<Id>(s: Store<Id>, name: Path, follow: bool, i: nat)
    requires name != ROOT && i < |name|
    requires forall k | i < k < |name| :: IsDirectory(s, name[..k])
    ensures Scan(s, name, follow, i) == Scan(s, name, follow, |name| - 1)
    decreases |name| - i
  {
    if i < |name| - 1 {
      ScanThroughDirectories(s, name, follow, i + 1);
    }
  }

  /** Canonical names resolve to themselves: resolution is idempotent. */
  lemma ResolveCanonical<Id>(s: Store<Id>, p: Path, follow: bool, rounds: nat)
    requires Tree(s) && p in s.paths && rounds > 0
    requires follow ==> !IsLink(s, p)
    ensures Resolve(s, p, follow, rounds) == Ok(p)
  {
    if p != ROOT {
      forall k | 0 < k < |p| ensures IsDirectory(s, p[..k]) {
        Ancestors(s, p, k);
      }
      ScanThroughDirectories(s, p, follow, 0);
      assert p[..|p|] == p;
    }
  }

  lemma {:induction false} ScanFound<Id>(s: Store<Id>, name: Path, follow: bool, i: nat)
    requires i <= |name| && Scan(s, name, follow, i) == Found
    ensures forall k | i < k < |name| :: IsDirectory(s, name[..k])
    ensures i < |name| ==> Present(s, name) && (follow ==> !IsLink(s, name))
    decreases |name| - i
  {
    if i < |name| {
      ScanFound(s, name, follow, i + 1);
      assert i + 1 == |name| ==> name[..i + 1] == name;
    }
  }

  lemma {:induction false} ScanKeepsLast<Id>(s: Store<Id>, name: Path, i: nat)
    requires i <= |name| && name != ROOT && Scan(s, name, false, i).Redirected?
    ensures Scan(s, name, false, i).name != ROOT
    decreases |name| - i
  {
    if !IsLink(s, name[..i + 1]) {
      ScanKeepsLast(s, name, i + 1);
    }
  }

  /** A successful resolution ends at an existing entry below real directories only, which is not a
      link when following, and without following only the root itself resolves to the root. */
  lemma {:induction false} ResolveSound<Id>(s: Store<Id>, name: Path, follow: bool, rounds: nat)
    requires IsDirectory(s, ROOT) && Resolve(s, name, follow, rounds).Ok?
    ensures var p := Resolve(s, name, follow, rounds).value;
      && ValidName(p) && Present(s, p)
      && (forall k | 0 <= k < |p| :: IsDirectory(s, p[..k]))
      && (follow ==> !IsLink(s, p))
      && (!follow && name != ROOT ==> p != ROOT)
    decreases rounds
  {
    match Scan(s, name, follow, 0) {
      case Found => ScanFound(s, name, follow, 0);
      case Redirected(next) =>
        if !follow {
          ScanKeepsLast(s, name, 0);
        }
        ResolveSound(s, next, follow, rounds - 1);
    }
  }

  /** Walking a name against walking its parent. */
  lemma {:induction false} ScanByParent<Id>(s: Store<Id>, name: Path, follow: bool, i: nat)
    requires IsDirectory(s, ROOT) && name != ROOT && i < |name|
    ensures match Scan(s, Parent(name), true, i)
      case Found => Scan(s, name, follow, i) ==
        if i == |name| - 1 || IsDirectory(s, Parent(name)) then Scan(s, name, follow, |name| - 1) else Blocked
      case Missing => Scan(s, name, follow, i) == Missing
      case Blocked => Scan(s, name, follow, i) == Blocked
      case Redirected(next) => Scan(s, name, follow, i) == Redirected(next + [name[|name| - 1]])
    decreases |name| - i
  {
    if i < |name| - 1 {
      var parent, cur := Parent(name), name[..i + 1];
      assert parent[..i + 1] == cur;
      assert name[i + 1..] == parent[i + 1..] + [name[|name| - 1]];
      if Present(s, cur) {
        if IsLink(s, cur) {
          var head := Redirect(cur, At(s, cur).target, []);
          assert Redirect(cur, At(s, cur).target, name[i + 1..])
              == Redirect(cur, At(s, cur).target, parent[i + 1..]) + [name[|name| - 1]];
        } else if i + 1 == |parent| {
          assert cur == parent && Scan(s, parent, true, i + 1) == Found;
        } else if IsDirectory(s, cur) {
          ScanByParent(s, name, follow, i + 1);
        }
      }
    }
  }

  /** Resolution is compositional: a name resolves as its parent does, then its last component. */
  lemma {:induction false} ResolveByParent<Id>(s: Store<Id>, name: Path, follow: bool, rounds: nat)
    requires IsDirectory(s, ROOT) && name != ROOT && ValidName(name)
    ensures match Resolve(s, Parent(name), true, rounds)
      case Err(e) => Resolve(s, name, follow, rounds) == Err(e)
      case Ok(q) =>
        if !IsDirectory(s, q) then Resolve(s, name, follow, rounds) == Err(NotDir)
        else var left := Remaining(s, Parent(name), true, rounds);
          0 < left <= rounds && Resolve(s, name, follow, rounds) == Resolve(s, Child(q, name), follow, left)
    decreases rounds
  {
    if rounds > 0 {
      var last := name[|name| - 1];
      assert last in name;
      ScanByParent(s, name, follow, 0);
      match Scan(s, Parent(name), true, 0) {
        case Found =>
          assert Child(Parent(name), name) == name;
        case Missing =>
        case Blocked =>
        case Redirected(next) =>
          var whole := next + [last];
          assert Parent(whole) == next && forall q :: Child(q, whole) == Child(q, name);
          assert ValidName(whole) <==> ValidName(next) by {
            if ValidName(whole) {
              assert forall c | c in next :: c in whole;
            }
          }
          if ValidName(whole) {
            ResolveByParent(s, whole, follow, rounds - 1);
          }
      }
    }
  }

  /** Where a new entry for name belongs. */
  ghost function Place<Id>(s: Store<Id>, name: Path): Result<Path> {
    match Resolve(s, Parent(name), true, ROUNDS)
    case Err(e) => Err(e)
    case Ok(q) => if IsDirectory(s, q) then Ok(Child(q, name)) else Err(NotDir)
  }

  /** What a failed resolution says about the place of the new entry: an unresolvable name whose
      parent resolves is free, unless a followed resolution stopped at a dangling link there. */
  lemma PlaceOfMissing<Id>(s: Store<Id>, name: Path, follow: bool)
    requires Tree(s) && ValidName(name) && Resolve(s, name, follow, ROUNDS) == Err(NotExist)
    ensures name != ROOT
    ensures Place(s, name).Ok? ==>
      var p := Place(s, name).value;
      && p != ROOT && ValidName(p) && ParentIsDirectory(s, p)
      && (p in s.paths ==> follow && IsLink(s, p))
  {
    if name == ROOT {
      ResolveCanonical(s, ROOT, follow, ROUNDS);
    } else if Place(s, name).Ok? {
      ResolveByParent(s, name, follow, ROUNDS);
      var q := Resolve(s, Parent(name), true, ROUNDS).value;
      var p, left := Child(q, name), Remaining(s, Parent(name), true, ROUNDS);
      ResolveSound(s, Parent(name), true, ROUNDS);
      assert name[|name| - 1] in name;
      ChildParent(q, name);
      if p in s.paths && !(follow && IsLink(s, p)) {
        ResolveCanonical(s, p, follow, left);
      }
    }
  }

  // ------------------------------------------------------- effects and plans

  datatype Effect =
    | Keep
    | Create(path: Path, inode: Inode)
    | SetData(path: Path, data: Bytes)
    | Unlink(path: Path)
    | Prune(path: Path)
    | Move(from: Path, to: Path)
    | Alias(source: Path, path: Path)

  datatype Plan = Plan(effect: Effect, outcome: Outcome)

  function Refuse(e: Error): Plan { Plan(Keep, Failed(e)) }

  function Perform(e: Effect): Plan { Plan(e, Done) }

  /** The bytes held by distinct nodes. */
  ghost function Total<Id>(nodes: map<Id, Inode>): nat {
    if nodes == map[] then 0
    else
      var id :| id in nodes;
      |nodes[id].data| + Total(nodes - {id})
  }

  ghost predicate Exceeds<Id>(s: Store<Id>, limit: int, delta: int) {
    limit > 0 && delta > 0 && Total(s.nodes) + delta > limit
  }

  /** The two implementations, where their behaviour differs. */
  datatype Backend = InMemory | InTables

  datatype Op =
    | CreateFile(name: Path, data: Bytes)
    | WriteFile(name: Path, data: Bytes)
    | AppendFile(name: Path, data: Bytes)
    | Mkdir(name: Path)
    | Remove(name: Path)
    | RemoveAll(name: Path)
    | Rename(name: Path, newName: Path)
    | Symlink(target: Target, name: Path)
    | Link(name: Path, newName: Path)
    | Touch(name: Path)

  ghost function CreatePlan<Id>(s: Store<Id>, name: Path, inode: Inode, follow: bool, limit: int): Plan {
    if !ValidName(name) then Refuse(Invalid)
    else match Resolve(s, name, follow, ROUNDS)
      case Ok(_) => Refuse(Exist)
      case Err(e) =>
        if e != NotExist then Refuse(e)
        else match Place(s, name)
          case Err(e) => Refuse(e)
          case Ok(p) =>
            if Present(s, p) then Refuse(Exist)
            else if Exceeds(s, limit, |inode.data|) then Refuse(Quota)
            else Perform(Create(p, inode))
  }

  /** The in-table implementation removes a dangling link before it finds the quota exhausted. */
  ghost function WritePlan<Id>(b: Backend, s: Store<Id>, name: Path, data: Bytes, limit: int): Plan {
    if !ValidName(name) then Refuse(Invalid)
    else match Resolve(s, name, true, ROUNDS)
      case Ok(p) =>
        if IsDirectory(s, p) then Refuse(IsDir)
        else if Exceeds(s, limit, |data| - |DataAt(s, p)|) then Refuse(Quota)
        else Perform(SetData(p, data))
      case Err(e) =>
        if e != NotExist then Refuse(e)
        else match Place(s, name)
          case Err(e) => Refuse(e)
          case Ok(p) =>
            if !Exceeds(s, limit, |data|) then Perform(Create(p, FileNode(data)))
            else Plan(if b.InTables? && Present(s, p) then Unlink(p) else Keep, Failed(Quota))
  }

  /** The in-memory implementation binds the new file before it finds the quota exhausted; the
      in-table one looks at the quota before anything but the resolution of the name. */
  ghost function AppendPlan<Id>(b: Backend, s: Store<Id>, name: Path, data: Bytes, limit: int): Plan {
    if !ValidName(name) then Refuse(Invalid)
    else
      var r, over := Resolve(s, name, true, ROUNDS), Exceeds(s, limit, |data|);
      if r.Err? && r.error != NotExist then Refuse(r.error)
      else if b.InTables? && over then Refuse(Quota)
      else match r
        case Ok(p) =>
          if !IsKind(s, p, Regular) then Refuse(IsDir)
          else if over then Refuse(Quota)
          else Perform(SetData(p, DataAt(s, p) + data))
        case Err(_) =>
          match Place(s, name)
          case Err(e) => Refuse(e)
          case Ok(p) =>
            if over then Plan(Create(p, FileNode([])), Failed(Quota)) else Perform(Create(p, FileNode(data)))
  }

  ghost function RemovePlan<Id>(s: Store<Id>, name: Path): Plan {
    if name == ROOT then Refuse(RootRemoval)
    else match Resolve(s, name, false, ROUNDS)
      case Err(e) => Refuse(e)
      case Ok(p) => if IsDirectory(s, p) && HasChildren(s, p) then Refuse(NotEmpty) else Perform(Unlink(p))
  }

  ghost function RemoveAllPlan<Id>(s: Store<Id>, name: Path): Plan {
    if name == ROOT then Refuse(RootRemoval)
    else match Resolve(s, name, false, ROUNDS)
      case Err(e) => if e == NotExist then Perform(Keep) else Refuse(e)
      case Ok(p) => Perform(Prune(p))
  }

  /** What keeps an existing target of a rename from being replaced. */
  ghost function Obstacle<Id>(s: Store<Id>, from: Path, to: Path): Option<Error> {
    if !Present(s, to) then None
    else if IsDirectory(s, to) && !IsDirectory(s, from) then Some(IsDir)
    else if !IsDirectory(s, to) && IsDirectory(s, from) then Some(NotDir)
    else if IsDirectory(s, to) && HasChildren(s, to) then Some(NotEmpty)
    else None
  }

  ghost function RenamePlan<Id>(s: Store<Id>, name: Path, newName: Path): Plan {
    if !ValidName(name) || !ValidName(newName) then Refuse(Invalid)
    else match Resolve(s, name, false, ROUNDS)
      case Err(e) => Refuse(e)
      case Ok(from) =>
        match Place(s, newName)
        case Err(e) => Refuse(e)
        case Ok(to) =>
          if Within(from, to) then Refuse(IntoItself)
          else match Obstacle(s, from, to)
            case Some(e) => Refuse(e)
            case None => Perform(Move(from, to))
  }

  /** The in-memory implementation takes the new name literally; the in-table one resolves its parent. */
  ghost function LinkPlan<Id>(b: Backend, s: Store<Id>, name: Path, newName: Path): Plan {
    if !ValidName(newName) then Refuse(Invalid)
    else match Resolve(s, name, true, ROUNDS)
      case Err(e) => Refuse(e)
      case Ok(source) =>
        if !IsKind(s, source, Regular) then Refuse(NotRegular)
        else if b.InMemory? then
          if Present(s, newName) then Refuse(Exist)
          else if !Present(s, Parent(newName)) then Refuse(NotExist)
          else if !IsDirectory(s, Parent(newName)) then Refuse(NotDir)
          else Perform(Alias(source, newName))
        else match Resolve(s, newName, false, ROUNDS)
          case Ok(_) => Refuse(Exist)
          case Err(e) =>
            if e != NotExist then Refuse(e)
            else match Place(s, newName)
              case Err(e) => Refuse(e)
              case Ok(p) => if Present(s, p) then Refuse(Exist) else Perform(Alias(source, p))
  }

  ghost function TouchPlan<Id>(s: Store<Id>, name: Path): Plan {
    match Resolve(s, name, true, ROUNDS)
    case Err(e) => Refuse(e)
    case Ok(_) => Perform(Keep)
  }

  ghost function PlanOf<Id>(b: Backend, s: Store<Id>, op: Op, limit: int): Plan {
    match op
    case CreateFile(name, data) => CreatePlan(s, name, FileNode(data), false, limit)
    case WriteFile(name, data) => WritePlan(b, s, name, data, limit)
    case AppendFile(name, data) => AppendPlan(b, s, name, data, limit)
    case Mkdir(name) => CreatePlan(s, name, DirNode(), true, limit)
    case Remove(name) => RemovePlan(s, name)
    case RemoveAll(name) => RemoveAllPlan(s, name)
    case Rename(name, newName) => RenamePlan(s, name, newName)
    case Symlink(target, name) => CreatePlan(s, name, LinkNode(target), false, limit)
    case Link(name, newName) => LinkPlan(b, s, name, newName)
    case Touch(name) => TouchPlan(s, name)
  }

  // --------------------------------------------------------------- execution

  /** The entries with only the nodes they still name. */
  ghost function Gather<Id>(paths: map<Path, Id>, nodes: map<Id, Inode>): Store<Id> {
    Store(paths, map id | id in nodes && id in paths.Values :: nodes[id])
  }

  function Without<Id>(paths: map<Path, Id>, p: Path): map<Path, Id> {
    map q | q in paths && !Within(p, q) :: paths[q]
  }

  /** All entries within from, renamed at once to the same suffixes below to. */
  function Relocated<Id>(paths: map<Path, Id>, from: Path, to: Path): map<Path, Id> {
    var moved := set q | q in paths && Within(from, q) :: to + q[|from|..];
    assert forall q | q in paths && Within(from, q) :: from + (to + q[|from|..])[|to|..] == q;
    map q | q in paths.Keys + moved && (q in moved || (!Within(from, q) && q != to)) ::
      if q in moved then paths[from + q[|to|..]] else paths[q]
  }

  ghost function Execute<Id>(s: Store<Id>, e: Effect, id: Id): Store<Id> {
    match e
    case Keep => s
    case Create(p, inode) => Gather(s.paths[p := id], s.nodes[id := inode])
    case SetData(p, data) =>
      if Present(s, p) then Store(s.paths, s.nodes[s.paths[p] := At(s, p).(data := data)]) else s
    case Unlink(p) => Gather(s.paths - {p}, s.nodes)
    case Prune(p) => Gather(Without(s.paths, p), s.nodes)
    case Move(from, to) => Gather(Relocated(s.paths, from, to), s.nodes)
    case Alias(source, p) => if source in s.paths then Store(s.paths[p := s.paths[source]], s.nodes) else s
  }

  /** When an effect makes sense in a tree. */
  ghost predicate Sound<Id>(s: Store<Id>, e: Effect) {
    match e
    case Keep => true
    case Create(p, inode) =>
      && p != ROOT && ValidName(p) && ParentIsDirectory(s, p)
      && (p in s.paths ==> IsLink(s, p))
      && (inode.kind != Regular ==> inode.data == [])
    case SetData(p, _) => IsKind(s, p, Regular)
    case Unlink(p) => p != ROOT && p in s.paths && !HasChildren(s, p)
    case Prune(p) => p != ROOT && p in s.paths
    case Move(from, to) =>
      && from != ROOT && from in s.paths
      && to != ROOT && ValidName(to) && ParentIsDirectory(s, to)
      && !Within(from, to) && !HasChildren(s, to)
    case Alias(source, p) =>
      IsKind(s, source, Regular) && p != ROOT && ValidName(p) && p !in s.paths && ParentIsDirectory(s, p)
  }

  // ------------------------------------------------------------ observations

  ghost function InodeAt<Id>(s: Store<Id>, p: Path): Inode {
    if Present(s, p) then At(s, p) else DirNode()
  }

  ghost function StatOf<Id>(s: Store<Id>, name: Path, follow: bool): Result<Inode> {
    match Resolve(s, name, follow, ROUNDS)
    case Err(e) => Err(e)
    case Ok(p) => Ok(InodeAt(s, p))
  }

  ghost function ReadFileOf<Id>(s: Store<Id>, name: Path): Result<Bytes> {
    match StatOf(s, name, true)
    case Err(e) => Err(e)
    case Ok(inode) => if inode.kind == Directory then Err(IsDir) else Ok(inode.data)
  }

  ghost function ReadlinkOf<Id>(s: Store<Id>, name: Path): Result<Target> {
    match StatOf(s, name, false)
    case Err(e) => Err(e)
    case Ok(inode) => if inode.kind != Kind.Symlink then Err(NotALink) else Ok(inode.target)
  }

  /** The entries directly below p, by base name. */
  ghost function Listing<Id>(s: Store<Id>, p: Path): map<string, Inode> {
    map c | c in (set q | q in s.paths && q != ROOT && Parent(q) == p :: q[|q| - 1]) :: InodeAt(s, p + [c])
  }

  ghost function ReadDirOf<Id>(s: Store<Id>, name: Path): Result<map<string, Inode>> {
    match Resolve(s, name, true, ROUNDS)
    case Err(e) => Err(e)
    case Ok(p) => if !IsDirectory(s, p) then Err(NotDir) else Ok(Listing(s, p))
  }
}

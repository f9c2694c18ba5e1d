/** Concrete inputs, each reached from the root directory alone, on which Memory and Database lose the root
    or part from each other. */
module StoreExamples {
  import opened Results
  import opened Paths
  import opened Files
  import opened FileLaws
  import opened Equivalence

  /** What both implementations start with. */
  const FRESH: Store<int> := Store(map[ROOT := 0], map[0 := DirNode()])

  /** A new top-level entry. */
  function Grown(s: Store<int>, c: string, inode: Inode, id: int): Store<int> {
    Store(s.paths[[c] := id], s.nodes[id := inode])
  }

  lemma FreshTree()
    ensures Tree(FRESH)
  {
    assert FRESH.paths[ROOT] == 0;
  }

  lemma GrownTree(s: Store<int>, c: string, inode: Inode, id: int)
    requires Tree(s) && ValidComponent(c) && [c] !in s.paths && id !in s.nodes
    requires inode.kind != Regular ==> inode.data == []
    ensures Execute(s, Create([c], inode), id) == Grown(s, c, inode, id) && Tree(Grown(s, c, inode, id))
  {
    var t := Execute(s, Create([c], inode), id);
    CreateTree(s, [c], inode, id);
    forall v | v in s.nodes ensures v in t.paths.Values {
      var q :| q in s.paths && s.paths[q] == v;
      assert t.paths[q] == v;
    }
    assert t.paths[[c]] == id;
    assert t.nodes == s.nodes[id := inode];
  }

  lemma TopLevel(s: Store<int>, c: string)
    requires Tree(s) && ValidComponent(c)
    ensures Place(s, [c]) == Ok([c])
    ensures [c] !in s.paths ==> forall follow :: Resolve(s, [c], follow, ROUNDS) == Err(NotExist)
  {
    ResolveCanonical(s, ROOT, true, ROUNDS);
    assert Parent([c]) == ROOT && ROOT + [c] == [c] && [c][..1] == [c];
  }

  lemma TopLevelCreated(s: Store<int>, c: string, inode: Inode, follow: bool)
    requires Tree(s) && ValidComponent(c) && [c] !in s.paths
    ensures CreatePlan(s, [c], inode, follow, 0) == Perform(Create([c], inode))
  {
    TopLevel(s, c);
  }

  // ------------------------------------------------------------ losing the root

  /** Renaming the root is let through on a fresh store, and leaves no root. */
  lemma RootMoveExample(b: Backend)
    ensures PlanOf(b, FRESH, Rename(ROOT, ["a"]), 0) == Perform(Move(ROOT, ["a"]))
    ensures !Tree(Step(b, FRESH, Rename(ROOT, ["a"]), 0, 1))
  {
    FreshTree();
    assert ValidComponent("a");
    TopLevel(FRESH, "a");
    ResolveCanonical(FRESH, ROOT, false, ROUNDS);
    StepKeepsTree(b, FRESH, Rename(ROOT, ["a"]), 0, 1);
  }

  // ------------------------------------------------------------ over the quota

  const TWO: Bytes := [0, 0]

  /** Appending two bytes under a quota of one to a file that is not there: Memory leaves an empty file
      behind. */
  lemma AppendExample()
    ensures PlanOf(InMemory, FRESH, AppendFile(["a"], TWO), 1) == Plan(Create(["a"], FileNode([])), Failed(Quota))
    ensures PlanOf(InTables, FRESH, AppendFile(["a"], TWO), 1) == Plan(Keep, Failed(Quota))
    ensures !Agreeable(FRESH, AppendFile(["a"], TWO), 1)
  {
    FreshTree();
    assert ValidComponent("a");
    TopLevel(FRESH, "a");
    assert |TWO| == 2;
  }

  /** A symbolic link a to b, which is not there. */
  const DANGLING: Store<int> := Grown(FRESH, "a", LinkNode(Target(false, ["b"])), 1)

  lemma DanglingResolves()
    ensures Tree(DANGLING) && Resolve(DANGLING, ["a"], true, ROUNDS) == Err(NotExist)
      && Place(DANGLING, ["a"]) == Ok(["a"])
    ensures DANGLING == Step(InTables, FRESH, Op.Symlink(Target(false, ["b"]), ["a"]), 0, 1)
  {
    FreshTree();
    var t := Target(false, ["b"]);
    assert ValidComponent("a") && ValidComponent("b");
    TopLevelCreated(FRESH, "a", LinkNode(t), false);
    GrownTree(FRESH, "a", LinkNode(t), 1);
    TopLevel(DANGLING, "a");
    assert Clean(false, [], ["b"]) == ["b"];
    assert ["a"][..1] == ["a"] && ["a"][1..] == [] && ["b"][..1] == ["b"];
    assert Scan(DANGLING, ["a"], true, 0) == Redirected(["b"]);
    assert Scan(DANGLING, ["b"], true, 0) == Missing;
  }

  /** Writing two bytes under a quota of one through a dangling link: Database leaves no link behind. */
  lemma WriteExample()
    ensures PlanOf(InMemory, DANGLING, WriteFile(["a"], TWO), 1) == Plan(Keep, Failed(Quota))
    ensures PlanOf(InTables, DANGLING, WriteFile(["a"], TWO), 1) == Plan(Unlink(["a"]), Failed(Quota))
    ensures !Agreeable(DANGLING, WriteFile(["a"], TWO), 1)
  {
    DanglingResolves();
    assert ValidComponent("a") && |TWO| == 2;
  }

  // --------------------------------------------------- hard links below a link

  /** A directory d, then a file f, then a symbolic link l to d. */
  const WITH_D: Store<int> := Grown(FRESH, "d", DirNode(), 1)
  const WITH_F: Store<int> := Grown(WITH_D, "f", FileNode([]), 2)
  const LINKED: Store<int> := Grown(WITH_F, "l", LinkNode(Target(false, ["d"])), 3)

  lemma Entered(s: Store<int>, c: string, id: int, target: Target)
    requires Tree(s) && ValidComponent(c) && [c] !in s.paths && id !in s.nodes
    ensures Step(InTables, s, Mkdir([c]), 0, id) == Grown(s, c, DirNode(), id) && Tree(Grown(s, c, DirNode(), id))
    ensures Step(InTables, s, CreateFile([c], []), 0, id) == Grown(s, c, FileNode([]), id)
    ensures Step(InTables, s, Op.Symlink(target, [c]), 0, id) == Grown(s, c, LinkNode(target), id)
    ensures Tree(Grown(s, c, FileNode([]), id)) && Tree(Grown(s, c, LinkNode(target), id))
  {
    hide Tree, ValidComponent, Execute, CreatePlan;
    TopLevelCreated(s, c, DirNode(), true);
    TopLevelCreated(s, c, FileNode([]), false);
    TopLevelCreated(s, c, LinkNode(target), false);
    GrownTree(s, c, DirNode(), id);
    GrownTree(s, c, FileNode([]), id);
    GrownTree(s, c, LinkNode(target), id);
  }

  lemma LinkedNames()
    ensures ValidComponent("d") && ValidComponent("f") && ValidComponent("l") && ValidComponent("x")
    ensures ["d"] != ["f"] && ["d"] != ["l"] && ["f"] != ["l"]
  {
    assert "d"[0] != "f"[0] && "d"[0] != "l"[0] && "f"[0] != "l"[0];
    assert ["d"][0] == "d" && ["f"][0] == "f" && ["l"][0] == "l";
  }

  lemma LinkedReached()
    ensures Tree(LINKED) && WITH_D == Step(InTables, FRESH, Mkdir(["d"]), 0, 1)
    ensures WITH_F == Step(InTables, WITH_D, CreateFile(["f"], []), 0, 2)
    ensures LINKED == Step(InTables, WITH_F, Op.Symlink(Target(false, ["d"]), ["l"]), 0, 3)
  {
    LinkedNames();
    FreshTree();
    hide Tree, ValidComponent, Step;
    Entered(FRESH, "d", 1, NO_TARGET);
    Entered(WITH_D, "f", 2, NO_TARGET);
    Entered(WITH_F, "l", 3, Target(false, ["d"]));
  }

  lemma ThroughLink(s: Store<int>, d: string, l: string, x: string)
    requires Tree(s) && ValidComponent(d) && ValidComponent(l) && ValidComponent(x)
    requires IsDirectory(s, [d]) && IsLink(s, [l]) && At(s, [l]).target == Target(false, [d])
    ensures Resolve(s, [l], true, ROUNDS) == Ok([d])
    ensures [d, x] !in s.paths ==> Resolve(s, [l, x], false, ROUNDS) == Err(NotExist)
  {
    var whole, there := [l, x], [d, x];
    assert Clean(false, [], [d]) == [d] && [d] + [x] == there;
    assert whole[..1] == [l] && whole[1..] == [x] && [l][..1] == [l] && [l][1..] == [] && Parent([l]) == ROOT;
    assert there[..1] == [d] && there[..2] == there;
    ResolveCanonical(s, [d], true, ROUNDS - 1);
    hide Tree, ValidComponent, Clean;
    assert Scan(s, [l], true, 0) == Redirected([d]);
    assert Scan(s, whole, false, 0) == Redirected(there);
    if there !in s.paths {
      assert Scan(s, there, false, 1) == Missing;
      assert Scan(s, there, false, 0) == Missing;
    }
    hide Scan;
    assert ValidName([l]) && ValidName(whole) && ValidName(there);
    assert Resolve(s, whole, false, ROUNDS) == Resolve(s, there, false, ROUNDS - 1);
  }

  lemma LinkedShape()
    ensures IsKind(LINKED, ["f"], Regular) && IsDirectory(LINKED, ["d"])
    ensures IsLink(LINKED, ["l"]) && At(LINKED, ["l"]).target == Target(false, ["d"])
    ensures ["d", "x"] !in LINKED.paths && ["l", "x"] !in LINKED.paths
  {
    LinkedNames();
    assert forall p | p in LINKED.paths :: |p| <= 1;
    assert |["d", "x"]| == |["l", "x"]| == 2;
  }

  /** Linking f below l: Memory takes the new name literally and finds no directory l, Database follows l. */
  lemma LinkExample()
    ensures PlanOf(InMemory, LINKED, Link(["f"], ["l", "x"]), 0) == Plan(Keep, Failed(NotDir))
    ensures PlanOf(InTables, LINKED, Link(["f"], ["l", "x"]), 0) == Perform(Alias(["f"], ["d", "x"]))
    ensures !Agreeable(LINKED, Link(["f"], ["l", "x"]), 0)
  {
    LinkedReached();
    LinkedNames();
    LinkedShape();
    hide Tree, Resolve, ValidComponent, Step;
    ThroughLink(LINKED, "d", "l", "x");
    ResolveCanonical(LINKED, ["f"], true, ROUNDS);
    assert Parent(["l", "x"]) == ["l"] && Child(["d"], ["l", "x"]) == ["d", "x"];
    assert ValidName(["l", "x"]);
  }
}

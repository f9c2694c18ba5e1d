/** Reading through a mount: with links that stay inside their tree, a tree copied below a mount point answers
    below it as the tree itself does. */
module MountedLinks {
  import opened Results
  import opened Paths
  import opened Files
  import opened FileLaws
  import opened Rebasing
  import opened Merging

  /** A link, if it is one, whose target never climbs above the root of its tree. */
  ghost predicate StaysInside<Id>(t: Store<Id>, p: Path) {
    IsLink(t, p) ==> !Climbs(At(t, p).target.parts, Depth(p, At(t, p).target))
  }

  ghost predicate LinksInside<Id>(t: Store<Id>) {
    forall p {:trigger StaysInside(t, p)} | p in t.paths :: StaysInside(t, p)
  }

  /** The tree t stands at the mount point of s. */
  ghost predicate Stands<Id>(s: Store<int>, root: Path, t: Store<Id>) {
    && ValidName(root) && (forall k | 0 <= k <= |root| :: IsDirectory(s, root[..k]))
    && forall p {:trigger Corresponds(s, root, t, p)} :: Corresponds(s, root, t, p)
  }

  ghost predicate Corresponds<Id>(s: Store<int>, root: Path, t: Store<Id>, p: Path) {
    && (Present(s, root + p) <==> Present(t, p))
    && (Present(t, p) ==>
          && At(s, root + p).kind == At(t, p).kind
          && (At(t, p).kind == Regular ==> At(s, root + p).data == At(t, p).data)
          && (IsLink(t, p) ==> ValidName(p) && p != ROOT && At(s, root + p).target == Rebase(root, At(t, p).target)))
  }

  lemma HoldsStands<Id>(s: Store<int>, root: Path, t: Store<Id>)
    requires Tree(s) && Tree(t) && Holds(Content(s), root, Content(t))
    ensures Stands(s, root, t)
  {
    assert IsDirectory(t, ROOT) && root <= root && root[|root|..] == ROOT;
    forall k | 0 <= k <= |root| ensures IsDirectory(s, root[..k]) {
      if k < |root| {
        Ancestors(s, root, k);
      } else {
        assert root[..k] == root;
      }
    }
    forall p ensures Corresponds(s, root, t, p) {
      assert root <= root + p && (root + p)[|root|..] == p;
      assert p in Content(t) <==> Present(t, p);
    }
  }

  ghost function Outward(root: Path, r: Result<Path>): Result<Path> {
    match r
    case Ok(q) => Ok(root + q)
    case Err(e) => Err(e)
  }

  lemma {:induction false} ScanToMount(s: Store<int>, root: Path, name: Path, follow: bool, j: nat)
    requires j <= |root| && forall k | 0 <= k <= |root| :: IsDirectory(s, root[..k])
    ensures Scan(s, root + name, follow, j) == Scan(s, root + name, follow, |root|)
    decreases |root| - j
  {
    if j < |root| {
      assert (root + name)[..j + 1] == root[..j + 1];
      ScanToMount(s, root, name, follow, j + 1);
    }
  }

  lemma {:induction false} ScanMounted<Id>(s: Store<int>, root: Path, t: Store<Id>, name: Path, follow: bool, i: nat)
    requires Stands(s, root, t) && LinksInside(t) && i <= |name|
    ensures Scan(s, root + name, follow, |root| + i) ==
      match Scan(t, name, follow, i)
      case Redirected(next) => Redirected(root + next)
      case other => other
    decreases |name| - i
  {
    if i < |name| {
      var cur, rest := name[..i + 1], name[i + 1..];
      assert (root + name)[..|root| + i + 1] == root + cur && (root + name)[|root| + i + 1..] == rest;
      assert Corresponds(s, root, t, cur);
      if IsLink(t, cur) {
        assert StaysInside(t, cur);
        RebaseMeaning(root, cur, At(t, cur).target, rest);
      }
      hide Climbs, Redirect, Rebase, Stands, LinksInside, StaysInside;
      ScanMounted(s, root, t, name, follow, i + 1);
    }
  }

  lemma {:induction false} ResolveMounted<Id>(s: Store<int>, root: Path, t: Store<Id>, name: Path, follow: bool,
    rounds: nat)
    requires Stands(s, root, t) && LinksInside(t)
    ensures Resolve(s, root + name, follow, rounds) == Outward(root, Resolve(t, name, follow, rounds))
    decreases rounds
  {
    if rounds > 0 {
      assert ValidName(root + name) <==> ValidName(name) by {
        assert forall c | c in name :: c in root + name;
      }
      ScanToMount(s, root, name, follow, 0);
      ScanMounted(s, root, t, name, follow, 0);
      hide Scan, Stands, LinksInside;
      match Scan(t, name, follow, 0) {
        case Redirected(next) => ResolveMounted(s, root, t, next, follow, rounds - 1);
        case other =>
      }
    }
  }

  /** Where a tree whose links stay inside it has been copied to, every name below the mount point resolves
      as inside the tree and reads as inside it: the same data or the same error. */
  lemma MountedReads<Id>(s: Store<int>, root: Path, t: Store<Id>, name: Path)
    requires Tree(s) && Tree(t) && Holds(Content(s), root, Content(t)) && LinksInside(t)
    ensures forall follow, rounds: nat ::
      Resolve(s, root + name, follow, rounds) == Outward(root, Resolve(t, name, follow, rounds))
    ensures ReadFileOf(s, root + name) == ReadFileOf(t, name)
  {
    HoldsStands(s, root, t);
    forall follow, rounds: nat
      ensures Resolve(s, root + name, follow, rounds) == Outward(root, Resolve(t, name, follow, rounds))
    {
      ResolveMounted(s, root, t, name, follow, rounds);
    }
    if Resolve(t, name, true, ROUNDS).Ok? {
      ResolveSound(t, name, true, ROUNDS);
      var q := Resolve(t, name, true, ROUNDS).value;
      assert Corresponds(s, root, t, q);
    }
    hide Resolve, Content, Holds, Stands, LinksInside, Corresponds;
  }
}

/** Where the copy of a symbolic link leads: link targets of pkg/fs/copy.go rebased onto a mount point. */
module Rebasing {
  import opened Paths
  import opened LinkLaws

  /** An absolute link target is absolute inside the source, so it is moved below the mount point. */
  function Rebase(root: Path, t: Target): Target {
    if t.absolute && root != ROOT then
      var joined := Clean(false, root, t.parts);
      Target(true, if joined == [] then ["."] else joined)
    else t
  }

  /** Whether the components climb above where they started. */
  predicate Climbs(parts: seq<string>, depth: nat)
    decreases |parts|
  {
    parts != [] &&
    if parts[0] == "" || parts[0] == "." then Climbs(parts[1..], depth)
    else if parts[0] != ".." then Climbs(parts[1..], depth + 1)
    else depth == 0 || Climbs(parts[1..], depth - 1)
  }

  /** What a cleaned relative path looks like: steps up, then plain components. */
  ghost predicate Normal(stack: Path, ups: nat) {
    && ups <= |stack| && (forall i | 0 <= i < ups :: stack[i] == "..")
    && forall i | ups <= i < |stack| :: StepsDown(stack[i])
  }

  /** Cleaned again as a rooted path, the steps up are dropped. */
  lemma {:induction false} RootedDropsUps(stack: Path, done: Path, ups: nat)
    requires Normal(stack, ups) && (ups > 0 ==> done == [])
    ensures Clean(true, done, stack) == done + stack[ups..]
    decreases |stack|
  {
    if stack != [] {
      if ups > 0 {
        RootedDropsUps(stack[1..], done, ups - 1);
      } else {
        RootedDropsUps(stack[1..], done + [stack[0]], 0);
        assert done + [stack[0]] + stack[1..] == done + stack;
      }
    }
  }

  /** Components that stay inside are cleaned below the mount point as below the root. */
  lemma {:induction false} CleanInside(root: Path, stack: Path, parts: seq<string>)
    requires Normal(root, 0) && Normal(stack, 0) && !Climbs(parts, |stack|)
    ensures Clean(false, root + stack, parts) == root + Clean(true, stack, parts)
      && Normal(Clean(true, stack, parts), 0)
    decreases |parts|
  {
    if parts != [] {
      var c := parts[0];
      if c == "" || c == "." {
        CleanInside(root, stack, parts[1..]);
      } else if c != ".." {
        assert root + stack + [c] == root + (stack + [c]);
        CleanInside(root, stack + [c], parts[1..]);
      } else {
        assert (root + stack)[..|root + stack| - 1] == root + stack[..|stack| - 1];
        CleanInside(root, stack[..|stack| - 1], parts[1..]);
      }
    }
  }

  /** Once below the depth they started at, unrooted components never catch up with rooted ones. */
  lemma {:induction false} CleanBehind(root: Path, left: Path, ups: nat, right: Path, parts: seq<string>)
    returns (final: nat)
    requires root != ROOT && Normal(left, ups) && Normal(right, 0) && |left| - ups < |root| + |right|
    ensures Normal(Clean(false, left, parts), final)
      && |Clean(false, left, parts)| - final < |root| + |Clean(true, right, parts)|
    decreases |parts|
  {
    if parts == [] {
      return ups;
    }
    var c := parts[0];
    if c == "" || c == "." {
      final := CleanBehind(root, left, ups, right, parts[1..]);
    } else if c != ".." {
      final := CleanBehind(root, left + [c], ups, right + [c], parts[1..]);
    } else {
      var shorter := if right == [] then right else right[..|right| - 1];
      if |left| > ups {
        final := CleanBehind(root, left[..|left| - 1], ups, shorter, parts[1..]);
      } else {
        assert left != [] ==> left[|left| - 1] == "..";
        final := CleanBehind(root, left + [".."], ups + 1, shorter, parts[1..]);
      }
    }
  }

  lemma {:induction false} CleanOutside(root: Path, stack: Path, parts: seq<string>) returns (ups: nat)
    requires root != ROOT && Normal(root, 0) && Normal(stack, 0) && Climbs(parts, |stack|)
    ensures Normal(Clean(false, root + stack, parts), ups)
    ensures |Clean(false, root + stack, parts)| - ups < |root| + |Clean(true, stack, parts)|
    decreases |parts|
  {
    var c := parts[0];
    if c == "" || c == "." {
      ups := CleanOutside(root, stack, parts[1..]);
    } else if c != ".." {
      assert root + stack + [c] == root + (stack + [c]);
      ups := CleanOutside(root, stack + [c], parts[1..]);
    } else if stack == [] {
      assert root + stack == root;
      ups := CleanBehind(root, root[..|root| - 1], 0, stack, parts[1..]);
    } else {
      assert (root + stack)[..|root + stack| - 1] == root + stack[..|stack| - 1];
      ups := CleanOutside(root, stack[..|stack| - 1], parts[1..]);
    }
  }

  /** Read again from the root, an absolute target put below the mount point leads below it, unless it climbs. */
  lemma AbsoluteMeaning(root: Path, parts: seq<string>)
    requires Normal(root, 0) && root != ROOT
    ensures Clean(true, [], Rebase(root, Target(true, parts)).parts) == root + Clean(true, [], parts)
      <==> !Climbs(parts, 0)
  {
    var joined := Clean(false, root, parts);
    assert root + [] == root && Clean(true, [], ["."]) == [];
    if Climbs(parts, 0) {
      var ups := CleanOutside(root, [], parts);
      RootedDropsUps(joined, [], ups);
    } else {
      CleanInside(root, [], parts);
      RootedDropsUps(joined, [], 0);
    }
    hide Clean, Climbs;
  }

  lemma {:induction false} UpsStay(stack: Path, parts: seq<string>)
    requires stack != [] && stack[0] == ".."
    ensures Clean(false, stack, parts) != [] && Clean(false, stack, parts)[0] == ".."
    decreases |parts|
  {
    if parts != [] {
      UpsStay(stack, parts[1..]);
      UpsStay(stack + [parts[0]], parts[1..]);
      UpsStay(stack + [".."], parts[1..]);
      if |stack| > 1 {
        UpsStay(stack[..|stack| - 1], parts[1..]);
      }
    }
  }

  lemma {:induction false} ClimbsOut(stack: Path, parts: seq<string>)
    requires Normal(stack, 0) && Climbs(parts, |stack|)
    ensures Clean(false, stack, parts) != [] && Clean(false, stack, parts)[0] == ".."
    decreases |parts|
  {
    var c := parts[0];
    if c == "" || c == "." {
      ClimbsOut(stack, parts[1..]);
    } else if c != ".." {
      ClimbsOut(stack + [c], parts[1..]);
    } else if stack == [] {
      assert stack + [".."] == [".."];
      UpsStay([".."], parts[1..]);
    } else {
      ClimbsOut(stack[..|stack| - 1], parts[1..]);
    }
  }

  /** A relative link, kept as it is, leads to the same place unless its target climbs. */
  lemma RelativeMeaning(root: Path, dir: Path, parts: seq<string>)
    requires Normal(root, 0) && Normal(dir, 0) && root != ROOT
    ensures Clean(false, root + dir, parts) == root + Clean(false, dir, parts) <==> !Climbs(parts, |dir|)
  {
    if Climbs(parts, |dir|) {
      var ups := CleanOutside(root, dir, parts);
      ClimbsOut(dir, parts);
      var outer, inner := Clean(false, root + dir, parts), Clean(false, dir, parts);
      hide Clean, Climbs;
      assert (root + inner)[0] == root[0] && (root + inner)[|root|] == inner[0];
    } else {
      CleanInside(root, dir, parts);
      CleanInside([], dir, parts);
      assert [] + dir == dir && forall p: Path :: [] + p == p;
    }
  }

  /** How deep inside the source a link's target starts. */
  function Depth(cur: Path, t: Target): nat {
    if t.absolute then 0 else |Parent(cur)|
  }

  /** Exactly when the copy of a link leads, inside the mount point, where the link led inside the source: at
      the root always, and elsewhere when its target never climbs above the root of the source. */
  lemma RebaseMeaning(root: Path, cur: Path, t: Target, rest: Path)
    requires ValidName(root) && ValidName(cur) && cur != ROOT
    ensures Redirect(root + cur, Rebase(root, t), rest) == root + Redirect(cur, t, rest)
      <==> root == ROOT || !Climbs(t.parts, Depth(cur, t))
  {
    if root == ROOT {
      assert root + cur == cur && forall p: Path :: root + p == p;
    } else {
      assert Normal(root, 0) by { assert forall i | 0 <= i < |root| :: root[i] in root; }
      assert Normal(Parent(cur), 0) by { assert forall i | 0 <= i < |cur| :: cur[i] in cur; }
      assert Parent(root + cur) == root + Parent(cur);
      var outer := if t.absolute then Clean(true, [], Rebase(root, t).parts)
        else Clean(false, Parent(root + cur), t.parts);
      var inner := if t.absolute then Clean(true, [], t.parts) else Clean(false, Parent(cur), t.parts);
      assert Redirect(root + cur, Rebase(root, t), rest) == outer + rest && Redirect(cur, t, rest) == inner + rest;
      assert t.absolute ==> t == Target(true, t.parts);
      hide Clean, Climbs, Normal, Rebase;
      AbsoluteMeaning(root, t.parts);
      RelativeMeaning(root, Parent(cur), t.parts);
      SameRest(root, outer, inner, rest);
    }
  }

  lemma SameRest(root: Path, outer: Path, inner: Path, rest: Path)
    ensures outer + rest == root + (inner + rest) <==> outer == root + inner
  {
    assert root + (inner + rest) == (root + inner) + rest;
    if outer + rest == root + inner + rest {
      assert outer == (outer + rest)[..|outer|] && root + inner == (root + inner + rest)[..|root + inner|];
    }
  }

  /** The text of a copied link: its own, but for absolute targets below a mount point, which are made of the
      mount point and what is left of the target once what is nothing in it is dropped. */
  lemma RebaseText(root: Path, k: nat, parts: seq<string>)
    requires ValidName(root) && AllDown(parts)
    ensures Rebase(root, Target(true, Ups(k) + parts)) == Target(true,
      if root == ROOT || k > |root| then Ups(k - |root|) + parts
      else if k == |root| && parts == [] then ["."]
      else root[..|root| - k] + parts)
  {
    if root != ROOT {
      CleanInTurn(false, root, Ups(k), parts);
      CleanUps(root, k);
      CleanDown(false, if k <= |root| then root[..|root| - k] else Ups(k - |root|), parts);
    }
  }

  lemma RebaseIdle(root: Path, a: seq<string>, idle: seq<string>, b: seq<string>)
    requires root != ROOT && Idle(idle)
    ensures Rebase(root, Target(true, a + idle + b)) == Rebase(root, Target(true, a + b))
  {
    CleanIdle(false, root, a, idle, b);
  }

  /** A link to /../x at the top of a source mounted on m: inside the source it leads to x, and once rebased
      it leads to x outside the mount point. */
  lemma ClimbingExample()
    ensures var t := Target(true, ["..", "x"]);
      && Climbs(t.parts, 0) && Redirect(["l"], t, []) == ["x"]
      && Redirect(["m", "l"], Rebase(["m"], t), []) == ["x"] != ["m", "x"]
  {
    var t, up := Target(true, ["..", "x"]), ["..", "x"];
    assert up[1..] == ["x"] && |["x"]| == 1;
    assert Clean(true, [], ["x"]) == ["x"] && Clean(false, [], ["x"]) == ["x"];
    assert Clean(true, [], up) == Clean(true, [], up[1..]);
    assert ["m"][..0] == [] && "m" != "..";
    assert Clean(false, ["m"], up) == Clean(false, [], up[1..]);
    assert Rebase(["m"], t) == Target(true, ["x"]);
  }
}

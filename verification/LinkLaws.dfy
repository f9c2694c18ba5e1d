/** Where a symbolic link leads, for any store and any depth: what a name through a link resolves to, told
    from the components of the link's target alone. */
module LinkLaws {
  import opened Results
  import opened Paths
  import opened Files

  /** A component that steps down. */
  predicate StepsDown(c: string) {
    c != "" && c != "." && c != ".."
  }

  predicate AllDown(parts: seq<string>) {
    forall c | c in parts :: StepsDown(c)
  }

  // ---------------------------------------------------------------- cleaning

  lemma {:induction false} CleanInTurn(rooted: bool, stack: Path, a: seq<string>, b: seq<string>)
    ensures Clean(rooted, stack, a + b) == Clean(rooted, Clean(rooted, stack, a), b)
    decreases |a|
  {
    if a == [] {
      assert a + b == b;
    } else {
      var c := a[0];
      assert (a + b)[0] == c && (a + b)[1..] == a[1..] + b;
      CleanInTurn(rooted, stack, a[1..], b);
      CleanInTurn(rooted, stack + [c], a[1..], b);
      CleanInTurn(rooted, stack + [".."], a[1..], b);
      if stack != [] {
        CleanInTurn(rooted, stack[..|stack| - 1], a[1..], b);
      }
    }
  }

  lemma {:induction false} CleanDown(rooted: bool, stack: Path, parts: seq<string>)
    requires AllDown(parts)
    ensures Clean(rooted, stack, parts) == stack + parts
    decreases |parts|
  {
    if parts == [] {
      assert stack + parts == stack;
    } else {
      assert parts[0] in parts && forall c | c in parts[1..] :: c in parts;
      CleanDown(rooted, stack + [parts[0]], parts[1..]);
      assert stack + [parts[0]] + parts[1..] == stack + parts;
    }
  }

  lemma CleanOne(rooted: bool, stack: Path, c: string)
    ensures Clean(rooted, stack, [c]) ==
      if c == "" || c == "." then stack
      else if c != ".." then stack + [c]
      else if stack != [] && stack[|stack| - 1] != ".." then stack[..|stack| - 1]
      else if rooted then stack else stack + [".."]
  {
    assert [c][1..] == [];
  }

  /** So many steps up. */
  function Ups(k: nat): seq<string> {
    seq(k, _ => "..")
  }

  lemma {:induction false} CleanUps(d: Path, k: nat)
    requires ValidName(d)
    ensures Clean(false, d, Ups(k)) == if k <= |d| then d[..|d| - k] else Ups(k - |d|)
    decreases k
  {
    if k > 0 {
      CleanUps(d, k - 1);
      assert Ups(k) == Ups(k - 1) + [".."];
      CleanInTurn(false, d, Ups(k - 1), [".."]);
      CleanOne(false, Clean(false, d, Ups(k - 1)), "..");
      assert k <= |d| ==> d[|d| - k] in d;
      assert k > |d| ==> Ups(k - |d|) == Ups(k - 1 - |d|) + [".."];
    }
  }

  lemma {:induction false} CleanUpsRooted(k: nat)
    ensures Clean(true, [], Ups(k)) == []
    decreases k
  {
    if k > 0 {
      assert Ups(k)[1..] == Ups(k - 1);
      CleanUpsRooted(k - 1);
    }
  }

  // ------------------------------------------------------- walking to a link

  /** Every name above d, and d, is a directory. */
  ghost predicate Reached<Id>(s: Store<Id>, d: Path) {
    forall k | 0 < k <= |d| :: IsDirectory(s, d[..k])
  }

  lemma {:induction false} ScanToLink<Id>(s: Store<Id>, d: Path, l: string, rest: Path, follow: bool, i: nat)
    requires Reached(s, d) && IsLink(s, d + [l]) && (follow || rest != []) && i <= |d|
    ensures Scan(s, d + [l] + rest, follow, i) == Redirected(Redirect(d + [l], At(s, d + [l]).target, rest))
    decreases |d| - i
  {
    var name := d + [l] + rest;
    if i < |d| {
      assert name[..i + 1] == d[..i + 1];
      ScanToLink(s, d, l, rest, follow, i + 1);
    } else {
      assert name[..i + 1] == d + [l] && name[i + 1..] == rest;
    }
  }

  lemma LinkStep<Id>(s: Store<Id>, d: Path, l: string, rest: Path, follow: bool, rounds: nat)
    requires Reached(s, d) && IsLink(s, d + [l]) && (follow || rest != []) && ValidName(d + [l] + rest)
    ensures Resolve(s, d + [l] + rest, follow, rounds + 1)
      == Resolve(s, Redirect(d + [l], At(s, d + [l]).target, rest), follow, rounds)
    ensures Parent(d + [l]) == d
  {
    ScanToLink(s, d, l, rest, follow, 0);
  }

  // ------------------------------------------------------------ where it leads

  /** A relative target leads on from the directory of the link. */
  lemma RelativeLink<Id>(s: Store<Id>, d: Path, l: string, parts: seq<string>, rest: Path, follow: bool, rounds: nat)
    requires Reached(s, d) && IsLink(s, d + [l]) && (follow || rest != []) && ValidName(d + [l] + rest)
    requires At(s, d + [l]).target == Target(false, parts) && AllDown(parts)
    ensures Resolve(s, d + [l] + rest, follow, rounds + 1) == Resolve(s, d + parts + rest, follow, rounds)
  {
    LinkStep(s, d, l, rest, follow, rounds);
    CleanDown(false, d, parts);
  }

  /** Leading ".." lead on from as many directories above; past the top they lead out, to no valid name. */
  lemma ParentLink<Id>(s: Store<Id>, d: Path, l: string, k: nat, parts: seq<string>, rest: Path, follow: bool,
    rounds: nat)
    requires Reached(s, d) && IsLink(s, d + [l]) && (follow || rest != []) && ValidName(d + [l] + rest)
    requires At(s, d + [l]).target == Target(false, Ups(k) + parts) && AllDown(parts)
    ensures Resolve(s, d + [l] + rest, follow, rounds + 1) ==
      if k <= |d| then Resolve(s, d[..|d| - k] + parts + rest, follow, rounds)
      else Err(if rounds == 0 then Loop else Invalid)
  {
    LinkStep(s, d, l, rest, follow, rounds);
    assert forall c | c in d :: c in d + [l] + rest;
    CleanInTurn(false, d, Ups(k), parts);
    CleanUps(d, k);
    if k <= |d| {
      CleanDown(false, d[..|d| - k], parts);
    } else {
      CleanDown(false, Ups(k - |d|), parts);
      var next := Ups(k - |d|) + parts + rest;
      assert next[0] in next && !ValidComponent(next[0]);
      hide Clean;
      assert Redirect(d + [l], At(s, d + [l]).target, rest) == next;
    }
  }

  /** An absolute target leads on from the root, where ".." is nothing. */
  lemma AbsoluteLink<Id>(s: Store<Id>, d: Path, l: string, k: nat, parts: seq<string>, rest: Path, follow: bool,
    rounds: nat)
    requires Reached(s, d) && IsLink(s, d + [l]) && (follow || rest != []) && ValidName(d + [l] + rest)
    requires AllDown(parts) && At(s, d + [l]).target == Target(true, Ups(k) + parts)
    ensures Resolve(s, d + [l] + rest, follow, rounds + 1) == Resolve(s, parts + rest, follow, rounds)
  {
    LinkStep(s, d, l, rest, follow, rounds);
    CleanDown(true, [], parts);
    CleanInTurn(true, [], Ups(k), parts);
    CleanUpsRooted(k);
    assert [] + parts == parts;
  }

  /** Parts of a target that are nothing: empty ones, ".", and a step down and up again. */
  predicate Idle(parts: seq<string>) {
    parts == [""] || parts == ["."] || (|parts| == 2 && StepsDown(parts[0]) && parts[1] == "..")
  }

  /** A target with something idle in it. */
  ghost predicate HasIdle(parts: seq<string>, i: nat, j: nat) {
    i <= j <= |parts| && Idle(parts[i..j])
  }

  /** Every target has an idle part, or is made of steps up and then steps down. */
  lemma {:induction false} IdleOrPlain(parts: seq<string>)
    ensures (exists i: nat, j: nat :: HasIdle(parts, i, j))
      || exists k: nat :: k <= |parts| && parts[..k] == Ups(k) && AllDown(parts[k..])
    decreases |parts|
  {
    var n := |parts| - 1;
    if n < 0 {
      assert parts[..0] == Ups(0);
    } else {
      var front, c := parts[..n], parts[n];
      assert parts == front + [c] && parts[n..n + 1] == [c];
      IdleOrPlain(front);
      if i: nat, j: nat :| HasIdle(front, i, j) {
        assert parts[i..j] == front[i..j];
        assert HasIdle(parts, i, j);
      } else {
        var k: nat :| k <= n && front[..k] == Ups(k) && AllDown(front[k..]);
        assert parts[..k] == front[..k];
        if c == "" || c == "." {
          assert HasIdle(parts, n, n + 1);
        } else if c == ".." && k == n {
          assert parts[..n + 1] == Ups(n + 1) && parts[n + 1..] == [];
        } else if c == ".." {
          assert parts[n - 1] == front[k..][n - 1 - k] && parts[n - 1] in front[k..];
          assert HasIdle(parts, n - 1, n + 1);
        } else {
          assert parts[k..] == front[k..] + [c];
        }
      }
    }
  }

  lemma CleanIdle(rooted: bool, start: Path, a: seq<string>, idle: seq<string>, b: seq<string>)
    requires Idle(idle)
    ensures Clean(rooted, start, a + idle + b) == Clean(rooted, start, a + b)
  {
    CleanInTurn(rooted, start, a + idle, b);
    CleanInTurn(rooted, start, a, idle);
    CleanInTurn(rooted, start, a, b);
    var there := Clean(rooted, start, a);
    if |idle| == 2 {
      assert idle == [idle[0]] + [".."];
      CleanInTurn(rooted, there, [idle[0]], [".."]);
      CleanOne(rooted, there, idle[0]);
      CleanOne(rooted, there + [idle[0]], "..");
      assert (there + [idle[0]])[..|there|] == there;
    } else {
      CleanOne(rooted, there, idle[0]);
    }
  }

  /** They may be left out anywhere in a target. */
  lemma IdleParts<Id>(s: Store<Id>, d: Path, l: string, m: string, a: seq<string>, idle: seq<string>, b: seq<string>,
    absolute: bool, rest: Path, follow: bool, rounds: nat)
    requires Reached(s, d) && IsLink(s, d + [l]) && IsLink(s, d + [m]) && (follow || rest != []) && Idle(idle)
    requires ValidName(d + [l] + rest) && ValidName(d + [m] + rest)
    requires At(s, d + [l]).target == Target(absolute, a + idle + b) && At(s, d + [m]).target == Target(absolute, a + b)
    ensures Resolve(s, d + [l] + rest, follow, rounds) == Resolve(s, d + [m] + rest, follow, rounds)
  {
    if rounds > 0 {
      LinkStep(s, d, l, rest, follow, rounds - 1);
      LinkStep(s, d, m, rest, follow, rounds - 1);
      CleanIdle(absolute, if absolute then ROOT else d, a, idle, b);
    }
  }

  // ------------------------------------------------------------- many links

  /** Top-level links, each to the next name, and at the end an entry that is no link. */
  ghost predicate Chain<Id>(s: Store<Id>, names: seq<string>) {
    && names != []
    && (forall j | 0 <= j < |names| :: ValidComponent(names[j]))
    && (forall j | 0 <= j < |names| - 1 ::
          IsLink(s, [names[j]]) && At(s, [names[j]]).target == Target(false, [names[j + 1]]))
    && Present(s, [names[|names| - 1]]) && !IsLink(s, [names[|names| - 1]])
  }

  lemma ChainStep<Id>(s: Store<Id>, l: string, next: string, rounds: nat)
    requires ValidComponent(l) && ValidComponent(next)
    requires IsLink(s, [l]) && At(s, [l]).target == Target(false, [next])
    ensures Resolve(s, [l], true, rounds + 1) == Resolve(s, [next], true, rounds)
  {
    assert ROOT + [l] == [l] && [l] + [] == [l] && ROOT + [next] == [next] && [next] + [] == [next];
    hide Resolve, Clean, Redirect, Scan;
    RelativeLink(s, ROOT, l, [next], [], true, rounds);
  }

  lemma ChainEnd<Id>(s: Store<Id>, l: string, rounds: nat)
    requires ValidComponent(l) && Present(s, [l]) && !IsLink(s, [l])
    ensures Resolve(s, [l], true, rounds + 1) == Ok([l]) && Resolve(s, [l], true, 0) == Err(Loop)
  {
    var name := [l];
    assert name[..1] == name && Scan(s, name, true, 1) == Found;
  }

  lemma {:induction false} ChainFrom<Id>(s: Store<Id>, names: seq<string>, j: nat, rounds: nat)
    requires Chain(s, names) && j < |names|
    ensures Resolve(s, [names[j]], true, rounds)
      == if |names| - 1 - j < rounds then Ok([names[|names| - 1]]) else Err(Loop)
    decreases rounds
  {
    if rounds > 0 {
      hide Resolve;
      if j < |names| - 1 {
        ChainStep(s, names[j], names[j + 1], rounds - 1);
        ChainFrom(s, names, j + 1, rounds - 1);
      } else {
        ChainEnd(s, names[j], rounds - 1);
      }
    }
  }

  /** Resolution follows forty links and no more; a name may occur again, so no ring of links is left. */
  lemma FortyLinks<Id>(s: Store<Id>, names: seq<string>)
    requires Chain(s, names)
    ensures StatOf(s, [names[0]], true) ==
      if |names| <= 41 then Ok(At(s, [names[|names| - 1]])) else Err(Loop)
  {
    ChainFrom(s, names, 0, ROUNDS);
    hide Resolve, Chain;
  }
}

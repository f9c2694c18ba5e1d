/** pkg/fs/overlay.go: a writable upper layer over a frozen lower one.  Every method is proved to leave the
    upper layer that Layers says it does, and lower is never written. */
module Overlay {
  import opened Results
  import opened Paths
  import opened PlainTree
  import opened Layers
  import opened LayerLaws
  import opened OverlaySimulation
  import opened OverlayRename
  import opened FileLaws
  import Files

  // ------------------------------------------------------------ helper lemmas

  ghost predicate MarkersAreFiles(u: Layer) {
    forall p {:trigger Reserved(p)} | p in u && Reserved(p) :: FileAt(u, p)
  }

  /** A walk that stopped stays stopped. */
  lemma {:induction false} MaterializeStops(u: Layer, l: Layer, p: Path, k: nat, create: bool)
    requires k <= |p| && Materialize(u, l, p[..k], create).outcome != Done
    ensures Materialize(u, l, p, create) == Materialize(u, l, p[..k], create)
    decreases |p|
  {
    if k == |p| {
      assert p[..k] == p;
    } else {
      assert Parent(p)[..k] == p[..k];
      MaterializeStops(u, l, Parent(p), k, create);
    }
  }

  lemma {:induction false} WhitedOutPrefix(u: Layer, p: Path, k: nat)
    requires k <= |p| && WhitedOut(u, p[..k])
    ensures WhitedOut(u, p)
    decreases |p|
  {
    if k == |p| {
      assert p[..k] == p;
    } else {
      assert Parent(p)[..k] == p[..k];
      WhitedOutPrefix(u, Parent(p), k);
    }
  }

  /** A directory made inside a directory keeps a layer well formed. */
  lemma AddWellFormed(t: Layer, p: Path, e: Entry)
    requires WellFormed(t) && p != ROOT && DirAt(t, Parent(p)) && (p !in t || (FileAt(t, p) && e.File?))
    ensures WellFormed(t[p := e])
  {
    var grown := t[p := e];
    forall q | q in grown ensures BelowDir(grown, q) {
      assert q != p ==> BelowDir(t, q);
    }
  }

  /** What the three writing operations do at a name inside a directory. */
  lemma WritesFile(t: Layer, p: Path, data: Bytes)
    requires WellFormed(t) && DirAt(t, Parent(p))
    ensures p == ROOT || DirAt(t, p) ==>
      PlainTree.WriteFile(t, p, data) == PlainTree.AppendFile(t, p, data) == Applied(t, Failed(IsDir))
    ensures p != ROOT && !DirAt(t, p) ==>
      && PlainTree.WriteFile(t, p, data) == Applied(t[p := File(data)], Done)
      && PlainTree.AppendFile(t, p, data) == Applied(t[p := File((if p in t then t[p].data else []) + data)], Done)
      && WellFormed(t[p := File(data)]) && WellFormed(t[p := File((if p in t then t[p].data else []) + data)])
    ensures p != ROOT && p !in t ==> PlainTree.Create(t, p, File(data)) == Applied(t[p := File(data)], Done)
  {
    LookupIs(t, p);
    LookupIs(t, Parent(p));
    if p != ROOT && !DirAt(t, p) {
      assert [] + data == data;
      FileAboveParent(t, p);
      AddWellFormed(t, p, File(data));
      AddWellFormed(t, p, File((if p in t then t[p].data else []) + data));
    }
  }

  lemma {:induction false} MaterializeGrows(u: Layer, l: Layer, p: Path, create: bool)
    ensures var w := Materialize(u, l, p, create).layer;
      (forall q | q in u :: q in w && (u[q].Dir? ==> w[q].Dir?)) && forall q | q in w :: q in u || (q <= p && w[q].Dir?)
    decreases |p|
  {
    if p != ROOT {
      MaterializeGrows(u, l, Parent(p), create);
      var up := Materialize(u, l, Parent(p), create).layer;
      forall q | q in up && q <= Parent(p) ensures q <= p { PrefixStep(p, q); }
    }
  }

  /** Copying an entry up leaves its parent, an upper directory, alone. */
  lemma CopyUpParent(u: Layer, l: Layer, p: Path)
    requires WellFormed(u) && DirAt(u, Parent(p))
    ensures DirAt(CopyUp(u, l, p).layer, Parent(p))
  {
    MaterializeGrows(u, l, Parent(p), false);
    LookupIs(u, p);
  }

  /** A marker is removed without further ado. */
  lemma MarkerRemoved(t: Layer, m: Path)
    requires WellFormed(t) && m != ROOT && FileAt(t, m)
    ensures PlainTree.Remove(t, m) == Applied(t - {m}, Done) && WellFormed(t - {m})
  {
    LookupIs(t, m);
    var rest := t - {m};
    forall q | q in rest ensures BelowDir(rest, q) {
      assert BelowDir(t, q);
    }
  }

  // ---------------------------------------------------------------- listings

  lemma {:induction false} LessTotal(a: string, b: string)
    ensures Less(a, b) || Less(b, a) || a == b
    ensures !(Less(a, b) && Less(b, a)) && !Less(a, a)
    decreases |a|
  {
    if a != "" {
      LessTotal(a[1..], if b == "" then "" else b[1..]);
      LessTotal(a[1..], a[1..]);
      assert a == [a[0]] + a[1..] && (b != "" ==> b == [b[0]] + b[1..]);
    }
  }

  lemma {:induction false} LessTransitive(a: string, b: string, c: string)
    requires Less(a, b) && Less(b, c)
    ensures Less(a, c)
    decreases |a|
  {
    if a != "" && a[0] == b[0] == c[0] {
      LessTransitive(a[1..], b[1..], c[1..]);
    }
  }

  ghost predicate IsLeast(names: set<string>, c: string) {
    c in names && forall d | d in names :: d == c || Less(c, d)
  }

  lemma {:induction false} LeastExists(names: set<string>)
    requires names != {}
    ensures exists c :: IsLeast(names, c)
    decreases names
  {
    var some :| some in names;
    var rest := names - {some};
    assert forall d | d in names :: d == some || d in rest;
    if rest == {} {
      assert IsLeast(names, some);
    } else {
      LeastExists(rest);
      var c :| IsLeast(rest, c);
      LessTotal(c, some);
      if Less(c, some) {
        assert IsLeast(names, c);
      } else {
        forall d | d in names ensures d == some || Less(some, d) {
          if d in rest && d != c {
            LessTransitive(some, c, d);
          }
        }
        assert IsLeast(names, some);
      }
    }
  }

  ghost predicate IsSorted(s: seq<string>) {
    forall i, j | 0 <= i < j < |s| :: Less(s[i], s[j])
  }

  /** A single layer lists its names in order. */
  method Sort(names: set<string>) returns (s: seq<string>)
    ensures IsSorted(s) && forall c :: c in s <==> c in names
  {
    var rest := names;
    s := [];
    while rest != {}
      invariant rest <= names && IsSorted(s)
      invariant forall c :: c in names <==> c in s || c in rest
      invariant forall c, d | c in s && d in rest :: Less(c, d)
      decreases rest
    {
      LeastExists(rest);
      var c :| c in rest && forall d | d in rest :: d == c || Less(c, d);
      LessTotal(c, c);
      s, rest := s + [c], rest - {c};
    }
  }

  /** Whether a name stands in the merged listing once the first k upper names are taken in. */
  ghost predicate StandsAfter(below: set<string>, s: seq<string>, k: nat, c: string)
    requires k <= |s|
  {
    if c in s[..k] && !IsWhiteoutName(c) then WHITEOUT_PREFIX + c in s[..k] ==> MarkerFirst(c) else c in below
  }

  /** One upper name taken in: an entry is added, a marker takes out what it names. */
  lemma TakeIn(below: set<string>, s: seq<string>, k: nat, c: string)
    requires IsSorted(s) && k < |s| && forall d | WHITEOUT_PREFIX + d in s :: d !in below
    ensures StandsAfter(below, s, k + 1, c) <==>
      if IsWhiteoutName(s[k]) then c != s[k][4..] && StandsAfter(below, s, k, c)
      else c == s[k] || StandsAfter(below, s, k, c)
  {
    var d, mark := s[k], WHITEOUT_PREFIX + c;
    assert forall e :: e in s[..k + 1] <==> e in s[..k] || e == d;
    assert s[k] in s;
    forall e | e in s[..k] ensures Less(e, d) {}
    LessTotal(mark, c);
    LessTotal(d, c);
    LessTotal(d, mark);
    assert mark[4..] == c && (IsWhiteoutName(d) ==> d == WHITEOUT_PREFIX + d[4..]);
    assert |mark| == |c| + 4;
  }

  /** What is known of a name in the merged listing once the first k upper names are taken in. */
  ghost predicate MergedSoFar(u: Layer, l: Layer, p: Path, below: set<string>, s: seq<string>, k: nat,
                              merged: map<string, Entry>, c: string) {
    && k <= |s| && (c in merged <==> StandsAfter(below, s, k, c))
    && (c in merged ==> merged[c] == EntryAt(if c in s[..k] && !IsWhiteoutName(c) then u else l, p + [c]))
  }

  lemma MergeStep(u: Layer, l: Layer, p: Path, below: set<string>, s: seq<string>, k: nat, merged: map<string, Entry>,
    c: string)
    requires IsSorted(s) && k < |s| && forall d | WHITEOUT_PREFIX + d in s :: d !in below
    requires MergedSoFar(u, l, p, below, s, k, merged, c)
    ensures var d := s[k];
      var next := if IsWhiteoutName(d) then merged - {d[4..]} else merged[d := EntryAt(u, p + [d])];
      MergedSoFar(u, l, p, below, s, k + 1, next, c)
  {
    TakeIn(below, s, k, c);
    assert c in s[..k + 1] <==> c in s[..k] || c == s[k];
    hide StandsAfter, EntryAt, IsSorted;
  }

  lemma MergeEnds(u: Layer, l: Layer, p: Path, below: set<string>, above: set<string>,
    shown: set<string>, s: seq<string>, merged: map<string, Entry>)
    requires forall c :: c in s <==> c in above
    requires forall c :: c in shown <==> c in below && !Layers.HasWhiteout(u, p + [c])
    requires forall c {:trigger MergedSoFar(u, l, p, shown, s, |s|, merged, c)} ::
      MergedSoFar(u, l, p, shown, s, |s|, merged, c)
    ensures merged == Merged(u, l, p, below, above)
  {
    assert s[..|s|] == s;
    forall c ensures (c in merged <==> c in below + above && Listed(u, p, below, above, c))
      && (c in merged ==> merged[c] == EntryAt(if c in above && !IsWhiteoutName(c) then u else l, p + [c]))
    {
      assert MergedSoFar(u, l, p, shown, s, |s|, merged, c);
    }
  }

  predicate IsMarkerIn(dir: Path, names: set<string>, q: Path) {
    q != ROOT && Parent(q) == dir && IsWhiteoutName(q[|q| - 1]) && q[|q| - 1] in names
  }

  /** An upper layer without the markers in a directory that have the given names. */
  function Dropped(u: Layer, dir: Path, names: set<string>): Layer {
    map q | q in u && !IsMarkerIn(dir, names, q) :: u[q]
  }

  lemma Dropping(u: Layer, dir: Path, names: set<string>, c: string)
    ensures Dropped(u, dir, names + {c}) == if IsWhiteoutName(c) then Dropped(u, dir, names) - {dir + [c]}
      else Dropped(u, dir, names)
    ensures Dropped(u, dir, {}) == u
    ensures c !in names && dir + [c] in u ==> dir + [c] in Dropped(u, dir, names)
  {
    var marker := dir + [c];
    assert marker != ROOT && Parent(marker) == dir && marker[|marker| - 1] == c;
    forall q
      ensures IsMarkerIn(dir, names + {c}, q) <==> IsMarkerIn(dir, names, q) || (IsWhiteoutName(c) && q == marker)
    {
      if q != ROOT && Parent(q) == dir && q[|q| - 1] == c {
        assert q == marker;
      }
    }
    assert c !in names ==> !IsMarkerIn(dir, names, marker);
    assert forall q :: !IsMarkerIn(dir, {}, q);
    hide IsMarkerIn, IsWhiteoutName;
  }

  lemma DroppedAll(u: Layer, dir: Path)
    requires WellFormed(u) && DirAt(u, dir)
    ensures ListDir(u, dir).Ok? && Dropped(u, dir, ListDir(u, dir).value) == ClearMarkers(u, dir)
  {
    NamesOf(u, dir);
    forall q | q in u && q != ROOT && Parent(q) == dir ensures q[|q| - 1] in ListDir(u, dir).value {
      assert q == dir + [q[|q| - 1]];
    }
  }

  lemma RemovedWellFormed(t: Layer, p: Path)
    requires WellFormed(t) && p != ROOT
    ensures WellFormed(PlainTree.Remove(t, p).layer)
  {
    var r := PlainTree.Remove(t, p).layer;
    LookupIs(t, p);
    forall q | q in r ensures BelowDir(r, q) {
      assert BelowDir(t, q);
    }
  }

  lemma WithoutWellFormed(t: Layer, p: Path)
    requires WellFormed(t) && p != ROOT
    ensures WellFormed(Files.Without(t, p))
  {
    var r := Files.Without(t, p);
    forall q | q in r ensures BelowDir(r, q) {
      assert BelowDir(t, q);
      assert q != ROOT && p <= Parent(q) ==> p <= q;
    }
  }

  // ---------------------------------------------------------- copying a tree up

  lemma AboveStep(u: Layer, l: Layer, p: Path)
    requires p != ROOT && p in View(u, l)
    ensures var v := View(u, l); Copied(u, l, Above(v, p)) == Copied(u, l, Above(v, Parent(p)))[p := v[p]]
  {
    var v := View(u, l);
    forall q ensures q in Above(v, p) <==> q in Above(v, Parent(p)) || q == p { PrefixStep(p, q); }
    hide View;
  }

  /** With the names above a visible one copied, the upper layer finds it there or just misses it. */
  lemma CopyNext(u: Layer, l: Layer, p: Path)
    requires Layered(u, l) && !Reserved(p) && p != ROOT && p in View(u, l)
    ensures var v, w := View(u, l), Copied(u, l, Above(View(u, l), Parent(p)));
      && DirAt(v, Parent(p)) && DirAt(w, Parent(p)) && MergedLookup(w, l, p) == Ok(v[p])
      && (p in w <==> p in u) && Lookup(w, p) == if p in w then Ok(v[p]) else Err(NotExist)
  {
    var v := View(u, l);
    var keys := Above(v, Parent(p));
    var w := Copied(u, l, keys);
    ViewWellFormed(u, l);
    assert BelowDir(v, p);
    BranchClosed(v, Parent(p));
    CopiedLayered(u, l, keys);
    CopiedView(u, l, keys);
    CopiedEntry(u, l, keys, Parent(p));
    CopiedEntry(u, l, keys, p);
    assert Parent(p) in keys && p !in keys;
    PlainLookup(u, l, p);
    ReservedPrefixOfParent(p);
    PlainLookup(u, l, Parent(p));
    ViewLookup(w, l, p);
    hide View, MergedLookup, Copied;
    LookupIs(v, p);
    LookupIs(w, p);
    FileAboveParent(w, p);
  }

  /** Walking to a visible directory copies exactly the names on the way. */
  lemma {:induction false} MaterializeCopies(u: Layer, l: Layer, p: Path)
    requires Layered(u, l) && !Reserved(p) && DirAt(View(u, l), p)
    ensures Materialize(u, l, p, false) == Applied(Copied(u, l, Above(View(u, l), p)), Done)
    decreases |p|
  {
    if p == ROOT {
      assert Copied(u, l, Above(View(u, l), ROOT)) == u;
    } else {
      ReservedPrefixOfParent(p);
      CopyNext(u, l, p);
      MaterializeCopies(u, l, Parent(p));
      AboveStep(u, l, p);
      var w := Copied(u, l, Above(View(u, l), Parent(p)));
      assert p in w ==> w[p := w[p]] == w;
      assert p in u ==> u[p] == View(u, l)[p];
      hide View, MergedLookup, Above, Layered;
    }
  }

  lemma AlreadyCopied(u: Layer, l: Layer, p: Path)
    requires Layered(u, l) && !Reserved(p) && p in u
    ensures Copied(u, l, Above(View(u, l), p)) == u
  {
    var v := View(u, l);
    forall q | q in Above(v, p) ensures q in u && u[q] == v[q] {
      if |q| < |p| {
        AboveIsDir(u, q, p);
      } else {
        assert q == p;
      }
    }
  }

  /** copyUp of a visible name is the copying of the name and all above it. */
  lemma CopyUpCopies(u: Layer, l: Layer, p: Path)
    requires Layered(u, l) && !Reserved(p) && p in View(u, l)
    ensures CopyUp(u, l, p) == Applied(Copied(u, l, Above(View(u, l), p)), Done)
  {
    LookupIs(u, p);
    LookupIs(l, p);
    if p in u {
      AlreadyCopied(u, l, p);
    } else {
      ReservedPrefixOfParent(p);
      CopyNext(u, l, p);
      MaterializeCopies(u, l, Parent(p));
      AboveStep(u, l, p);
      hide Materialize, Above, Copied, Layered;
    }
  }

  lemma LayeredSane(u: Layer, l: Layer)
    requires Layered(u, l)
    ensures WellFormed(u) && WellFormed(l) && MarkersAreFiles(u)
  {
    forall p | p in u && Reserved(p) ensures FileAt(u, p) { assert MarkerShape(u, p); }
  }

  lemma JoinedCopies(u: Layer, v: Layer, some: set<Path>, more: set<Path>)
    requires Closed(v, some) && Closed(v, more)
    ensures Closed(v, some + more)
    ensures u + (map q | q in some && q in v :: v[q]) + (map q | q in more && q in v :: v[q])
         == u + map q | q in some + more && q in v :: v[q]
  {
    forall q | q in some + more ensures q in v && Parent(q) in some + more {
      assert q in some ==> Parent(q) in some;
      assert q in more ==> Parent(q) in more;
    }
  }

  /** Two copyings one after the other are one. */
  lemma CopiedTwice(u: Layer, l: Layer, some: set<Path>, more: set<Path>)
    requires Layered(u, l) && Closed(View(u, l), some) && Closed(View(u, l), more)
    ensures var c := Copied(u, l, some);
      && Layered(c, l) && View(c, l) == View(u, l)
      && Copied(c, l, more) == Copied(u, l, some + more) && Closed(View(u, l), some + more)
  {
    CopiedLayered(u, l, some);
    CopiedView(u, l, some);
    JoinedCopies(u, View(u, l), some, more);
    hide View, Layered, Closed;
  }

  /** One more child, with all that is visible below it. */
  lemma EntryCopied(u: Layer, l: Layer, p: Path, c: string, keys: set<Path>)
    requires Layered(u, l) && p in View(u, l) && p + [c] in View(u, l) && Closed(View(u, l), keys)
    requires forall q | q in keys :: q <= p || p <= q
    ensures var v, before, more := View(u, l), Copied(u, l, keys), keys + Branch(View(u, l), p + [c]);
      && Layered(before, l) && View(before, l) == v && !Reserved(p + [c]) && Below(v, p + [c]) < Below(v, p)
      && Layers.CopyUpTree(before, l, p + [c]) == Copied(u, l, more) && Closed(v, more)
      && (forall q | q in more :: q <= p || p <= q)
      && (forall q | q in v && p + [c] <= q :: q in more)
  {
    var v, child := View(u, l), p + [c];
    ViewWellFormed(u, l);
    ChildOf(v, p, c);
    VisibleIs(u, l, child);
    BranchClosed(v, child);
    CopiedTwice(u, l, keys, Branch(v, child));
    TreeIsBranch(Copied(u, l, keys), l, child);
    hide View, Layered, Closed, Copied, Layers.CopyUpTree, Reserved;
  }

  lemma TreeIsBranch(u: Layer, l: Layer, p: Path)
    ensures Layers.CopyUpTree(u, l, p) == Copied(u, l, Branch(View(u, l), p))
  {
    hide View;
  }

  /** Everything visible below a lost directory is in the upper layer already. */
  lemma LostBelow(u: Layer, l: Layer, p: Path, q: Path)
    requires Lost(u, p) && p <= q && q in View(u, l)
    ensures q in u
  {
    WhitedOutBelow(u, p, q) by { assert WhitedOut(u, p); }
  }

  lemma ChildAbove(v: Layer, p: Path, q: Path)
    requires WellFormed(v) && q in v && p < q
    ensures p + [q[|p|]] in v && p + [q[|p|]] <= q
  {
    var child := q[..|p| + 1];
    assert child == p + [q[|p|]];
    if |child| < |q| {
      AboveIsDir(v, child, q);
    } else {
      assert child == q;
    }
  }

  /** A visible name below p is among the copied ones, or was in the upper layer all along. */
  lemma BelowCopied(u: Layer, l: Layer, p: Path, keys: set<Path>, listed: set<string>, q: Path)
    requires Layered(u, l) && p in View(u, l) && q in View(u, l) && p < q
    requires forall c | p + [c] in View(u, l) :: c in listed || Lost(Copied(u, l, Above(View(u, l), p)), p + [c])
    requires forall c | c in listed && p + [c] <= q :: q in keys
    ensures q in keys || q in u
  {
    var v, c := View(u, l), q[|p|];
    var above := Above(v, p);
    ViewWellFormed(u, l);
    ChildAbove(v, p, q);
    BranchClosed(v, p);
    CopiedView(u, l, above);
    CopiedEntry(u, l, above, q);
    hide View, Layered, Lost, Copied, WellFormed;
    if c !in listed {
      LostBelow(Copied(u, l, above), l, p + [c], q);
    }
  }

  /** When the listed children and what is below them are copied, the whole tree is. */
  lemma TreeCopied(u: Layer, l: Layer, p: Path, keys: set<Path>, listed: set<string>)
    requires Layered(u, l) && p in View(u, l) && Closed(View(u, l), keys)
    requires forall q | q in keys :: q <= p || p <= q
    requires forall q | q in View(u, l) && q <= p :: q in keys
    requires forall c | p + [c] in View(u, l) :: c in listed || Lost(Copied(u, l, Above(View(u, l), p)), p + [c])
    requires forall c, q | c in listed && q in View(u, l) && p + [c] <= q :: q in keys
    ensures Copied(u, l, keys) == Layers.CopyUpTree(u, l, p)
  {
    var v := View(u, l);
    forall q | q in v && p <= q ensures q in keys || q in u {
      if |p| < |q| {
        BelowCopied(u, l, p, keys, listed, q);
      } else {
        assert p == q;
      }
    }
    forall q | q in v && q in u ensures v[q] == u[q] {}
    hide View, Layered, Lost, Closed;
    SameCopies(u, v, p, keys);
  }

  lemma SameCopies(u: Layer, v: Layer, p: Path, keys: set<Path>)
    requires forall q | q in keys :: q <= p || p <= q
    requires forall q | q in v && (q <= p || p <= q) :: q in keys || q in u
    requires forall q | q in v && q in u :: v[q] == u[q]
    ensures u + (map q | q in keys && q in v :: v[q]) == u + map q | q in v && (q <= p || p <= q) :: v[q]
  {
  }

  lemma FileHasNothingBelow(v: Layer, p: Path)
    requires WellFormed(v) && FileAt(v, p)
    ensures forall c :: p + [c] !in v
  {
    forall c ensures p + [c] !in v {
      assert Parent(p + [c]) == p;
      assert p + [c] in v ==> BelowDir(v, p + [c]);
    }
  }

  function Below(v: Layer, p: Path): set<Path> {
    set q | q in v && p <= q
  }

  lemma ChildOf(v: Layer, p: Path, c: string)
    requires p in v && p + [c] in v
    ensures Below(v, p + [c]) < Below(v, p)
    ensures forall q | q in Branch(v, p + [c]) :: q <= p || p <= q
  {
    assert p in Below(v, p) && p !in Below(v, p + [c]);
    assert p < p + [c];
    forall q | q in v && q <= p + [c] ensures q <= p || p <= q {
      if |q| <= |p| {
        assert q == (p + [c])[..|q|] == p[..|q|];
      }
    }
  }

  /** A move in the upper layer keeps it a tree whose markers are files. */
  lemma MovedSane(t: Layer, from: Path, to: Path)
    requires WellFormed(t) && MarkersAreFiles(t) && !Reserved(to) && !Reserved(from) && from != ROOT
    requires PlainTree.Rename(t, from, to).outcome == Done
    ensures var r := PlainTree.Rename(t, from, to).layer; WellFormed(r) && MarkersAreFiles(r)
  {
    var r := Files.Relocated(t, from, to);
    PlainRenameIs(t, from, to);
    NoEntryBelowTarget(t, from, to);
    RelocatedEntries(t, from, to);
    LookupIs(t, Parent(to));
    hide Files.Relocated, Reserved, PlainTree.Rename, PlainTree.Obstacle, Lookup;
    forall q | q in r ensures BelowDir(r, q) { MovedBelowDir(t, from, to, r, q); }
    forall q | q in r && Reserved(q) ensures FileAt(r, q) {
      if to <= q {
        ReservedOrigin(from, to, q);
      }
    }
    assert DirAt(r, ROOT);
  }

  lemma MovedBelowDir(t: Layer, from: Path, to: Path, r: Layer, q: Path)
    requires WellFormed(t) && from != ROOT && to != ROOT && !Within(from, to) && DirAt(t, Parent(to))
    requires forall p :: p in r <==> Origin(from, to, p) in t && Within(from, Origin(from, to, p)) == (to <= p)
    requires forall p | p in r :: r[p] == t[Origin(from, to, p)]
    requires q in r
    ensures BelowDir(r, q)
  {
    if q == to {
      assert from <= Parent(to) ==> from <= to;
    } else if q != ROOT {
      OriginParent(from, to, q);
      assert BelowDir(t, Origin(from, to, q));
    }
  }

  class Overlay {
    var upper: Layer
    const lower: Layer

    constructor (upper: Layer, lower: Layer)
      ensures this.upper == upper && this.lower == lower
    {
      this.upper := upper;
      this.lower := lower;
    }

    /** What methods rely on: two trees, the upper one with files for markers. */
    ghost predicate Sane()
      reads this
    {
      WellFormed(upper) && WellFormed(lower) && MarkersAreFiles(upper)
    }

    ghost predicate Valid()
      reads this
    {
      Layered(upper, lower)
    }

    // ------------------------------------------------------------- lookups

    method HasWhiteout(name: Path) returns (found: bool)
      requires Sane()
      ensures found == Layers.HasWhiteout(upper, name)
    {
      if name == ROOT {
        return false;
      }
      LookupIs(upper, Marker(name));
      found := Lookup(upper, Marker(name)).Ok?;
    }

    method WhitedOut(name: Path) returns (hidden: bool)
      requires Sane()
      ensures hidden == Layers.WhitedOut(upper, name)
    {
      var i := 0;
      while i < |name|
        invariant 0 <= i <= |name| && !Layers.WhitedOut(upper, name[..i])
      {
        i := i + 1;
        assert Parent(name[..i]) == name[..i - 1];
        var marked := HasWhiteout(name[..i]);
        if marked {
          WhitedOutPrefix(upper, name, i);
          return true;
        }
      }
      assert name[..i] == name;
      hidden := false;
    }

    method Stat(name: Path) returns (r: Result<Entry>)
      requires Sane()
      ensures r == MergedLookup(upper, lower, name)
    {
      if Reserved(name) {
        return Err(Invalid);
      }
      r := Lookup(upper, name);
      if r.Ok? || r.error != NotExist {
        return;
      }
      var hidden := WhitedOut(name);
      if hidden {
        return Err(NotExist);
      }
      r := Lookup(lower, name);
    }

    method ReadFile(name: Path) returns (r: Result<Bytes>)
      requires Sane()
      ensures r == match MergedLookup(upper, lower, name)
        case Err(error) => Err(error)
        case Ok(e) => if e.Dir? then Err(IsDir) else Ok(e.data)
    {
      var e := Stat(name);
      if e.Err? {
        return Err(e.error);
      }
      r := if e.value.Dir? then Err(IsDir) else Ok(e.value.data);
    }

    /** Takes the upper names into the merged listing one by one, in order. */
    method Merge(name: Path, below: set<string>, above: set<string>) returns (merged: map<string, Entry>)
      requires forall c | c in above :: name + [c] in upper
      ensures merged == Merged(upper, lower, name, below, above)
    {
      merged := map c | c in below && !Layers.HasWhiteout(upper, name + [c]) :: EntryAt(lower, name + [c]);
      ghost var shown := merged.Keys;
      var names := Sort(above);
      forall d | WHITEOUT_PREFIX + d in names ensures d !in shown {
        assert Marker(name + [d]) == name + [WHITEOUT_PREFIX + d];
      }
      var k := 0;
      while k < |names|
        invariant 0 <= k <= |names|
        invariant forall c {:trigger MergedSoFar(upper, lower, name, shown, names, k, merged, c)} ::
          MergedSoFar(upper, lower, name, shown, names, k, merged, c)
      {
        var d := names[k];
        ghost var before := merged;
        merged := if IsWhiteoutName(d) then merged - {d[4..]} else merged[d := EntryAt(upper, name + [d])];
        k := k + 1;
        forall c ensures MergedSoFar(upper, lower, name, shown, names, k, merged, c) {
          assert MergedSoFar(upper, lower, name, shown, names, k - 1, before, c);
          MergeStep(upper, lower, name, shown, names, k - 1, before, c);
        }
      }
      MergeEnds(upper, lower, name, below, above, shown, names, merged);
    }

    method ReadDir(name: Path) returns (r: Result<map<string, Entry>>)
      requires Sane()
      ensures r == Layers.ReadDir(upper, lower, name)
    {
      if Reserved(name) {
        return Err(Invalid);
      }
      var hidden := WhitedOut(name);
      var lowerEntries := if hidden then Err(NotExist) else ListDir(lower, name);
      if lowerEntries.Err? && lowerEntries.error != NotExist {
        return Err(lowerEntries.error);
      }
      var upperEntries := ListDir(upper, name);
      if upperEntries.Err? && upperEntries.error != NotExist {
        return Err(upperEntries.error);
      }
      LookupIs(upper, name);
      if upperEntries.Ok? {
        NamesOf(upper, name);
      }
      var below := if lowerEntries.Ok? then lowerEntries.value else {};
      var above := if upperEntries.Ok? then upperEntries.value else {};
      var merged := Merge(name, below, above);
      if lowerEntries.Err? && upperEntries.Err? && merged == map[] {
        return Err(upperEntries.error);
      }
      r := Ok(merged);
    }

    method VisibleInLower(name: Path) returns (visible: bool)
      requires Sane()
      ensures visible == Layers.VisibleInLower(upper, lower, name)
    {
      var hidden := WhitedOut(name);
      if hidden {
        return false;
      }
      LookupIs(lower, name);
      visible := Lookup(lower, name).Ok?;
    }

    // --------------------------------------------------- directories on the way

    method WalkDirs(name: Path, create: bool) returns (outcome: Outcome)
      requires Sane() && !Reserved(name)
      modifies this`upper
      ensures Sane() && Applied(upper, outcome) == Materialize(old(upper), lower, name, create)
      ensures outcome == Done ==> DirAt(upper, name)
    {
      var i := 0;
      while i < |name|
        invariant 0 <= i <= |name| && Sane() && DirAt(upper, name[..i])
        invariant Materialize(old(upper), lower, name[..i], create) == Applied(upper, Done)
      {
        i := i + 1;
        var current := name[..i];
        assert Parent(current) == name[..i - 1];
        var info := Lookup(upper, current);
        if info.Ok? {
          if info.value.File? {
            MaterializeStops(old(upper), lower, name, i, create);
            return Failed(NotDir);
          }
          LookupIs(upper, current);
        } else if info.error != NotExist {
          MaterializeStops(old(upper), lower, name, i, create);
          return Failed(info.error);
        } else {
          var merged := Stat(current);
          if merged.Ok? && merged.value.File? {
            MaterializeStops(old(upper), lower, name, i, create);
            return Failed(NotDir);
          }
          if merged.Err? && !(create && merged.error == NotExist) {
            MaterializeStops(old(upper), lower, name, i, create);
            return Failed(merged.error);
          }
          LookupIs(upper, current);
          LookupIs(upper, Parent(current));
          ReservedPrefix(current, name);
          AddWellFormed(upper, current, Dir);
          var made := PlainTree.Create(upper, current, Dir);
          upper := made.layer;
        }
      }
      assert name[..i] == name;
      outcome := Done;
    }

    method PrepareWrite(name: Path) returns (outcome: Outcome)
      requires Sane()
      modifies this`upper
      ensures Sane() && Applied(upper, outcome) == Prepare(old(upper), lower, name)
      ensures outcome == Done ==> DirAt(upper, Parent(name)) && !Reserved(name)
    {
      if Reserved(name) {
        return Failed(Invalid);
      }
      ReservedPrefixOfParent(name);
      outcome := WalkDirs(Parent(name), false);
    }

    // --------------------------------------------------------------- markers

    /** Drops the marker of a recreated file. */
    method ClearWhiteout(name: Path)
      requires Sane() && name != ROOT
      modifies this`upper
      ensures Sane() && upper == old(upper) - {Marker(name)}
    {
      var marker := Marker(name);
      LookupIs(upper, marker);
      MarkerReserved(name);
      if Lookup(upper, marker).Ok? {
        MarkerRemoved(upper, marker);
        upper := PlainTree.Remove(upper, marker).layer;
      } else {
        assert upper - {marker} == upper;
      }
    }

    method SetWhiteout(name: Path) returns (outcome: Outcome)
      requires Sane() && name != ROOT && !Reserved(name)
      modifies this`upper
      ensures Sane() && Applied(upper, outcome) == Layers.SetWhiteout(old(upper), lower, name)
    {
      var marker := Marker(name);
      ReservedPrefixOfParent(name);
      outcome := WalkDirs(Parent(name), false);
      if outcome != Done {
        return;
      }
      LookupIs(upper, marker);
      if Lookup(upper, marker).Ok? {
        return;
      }
      MarkerReserved(name);
      WritesFile(upper, marker, []);
      upper := PlainTree.WriteFile(upper, marker, []).layer;
    }

    // ----------------------------------------------------------------- files

    method CreateFile(name: Path, data: Bytes) returns (outcome: Outcome)
      requires Sane()
      modifies this`upper
      ensures Sane() && Applied(upper, outcome) == Layers.CreateFile(old(upper), lower, name, data)
    {
      outcome := PrepareWrite(name);
      if outcome != Done {
        return;
      }
      var present := Stat(name);
      if present.Ok? {
        return Failed(Exist);
      } else if present.error != NotExist {
        return Failed(present.error);
      }
      LookupIs(upper, name);
      WritesFile(upper, name, data);
      upper := PlainTree.Create(upper, name, File(data)).layer;
      UnreservedIsNoMarker(name, name);
      ClearWhiteout(name);
      outcome := Done;
    }

    method WriteFile(name: Path, data: Bytes) returns (outcome: Outcome)
      requires Sane()
      modifies this`upper
      ensures Sane() && Applied(upper, outcome) == Layers.WriteFile(old(upper), lower, name, data)
    {
      outcome := PrepareWrite(name);
      if outcome != Done {
        return;
      }
      WritesFile(upper, name, data);
      var written := PlainTree.WriteFile(upper, name, data);
      upper, outcome := written.layer, written.outcome;
      if outcome == Done {
        UnreservedIsNoMarker(name, name);
        ClearWhiteout(name);
      }
    }

    /** Copies a lower entry up, with the directories on the way to it. */
    method CopyUp(name: Path) returns (outcome: Outcome)
      requires Sane() && !Reserved(name)
      modifies this`upper
      ensures Sane() && Applied(upper, outcome) == Layers.CopyUp(old(upper), lower, name)
    {
      if name == ROOT {
        return Done;
      }
      var present := Lookup(upper, name);
      if present.Ok? {
        return Done;
      } else if present.error != NotExist {
        return Failed(present.error);
      }
      var hidden := WhitedOut(name);
      if hidden {
        return Done;
      }
      var info := Lookup(lower, name);
      if info.Err? {
        return Done;
      }
      ReservedPrefixOfParent(name);
      MaterializeGrows(upper, lower, Parent(name), false);
      LookupIs(upper, name);
      outcome := WalkDirs(Parent(name), false);
      if outcome != Done {
        return;
      }
      assert !(name <= Parent(name));
      AddWellFormed(upper, name, info.value);
      LookupIs(upper, name);
      LookupIs(upper, Parent(name));
      FileAboveParent(upper, name);
      if info.value.Dir? {
        upper := PlainTree.Create(upper, name, Dir).layer;
      } else {
        upper := PlainTree.WriteFile(upper, name, info.value.data).layer;
      }
    }

    method AppendFile(name: Path, data: Bytes) returns (outcome: Outcome)
      requires Sane()
      modifies this`upper
      ensures Sane() && Applied(upper, outcome) == Layers.AppendFile(old(upper), lower, name, data)
    {
      outcome := PrepareWrite(name);
      if outcome != Done {
        return;
      }
      CopyUpParent(upper, lower, name);
      outcome := CopyUp(name);
      if outcome != Done {
        return;
      }
      WritesFile(upper, name, data);
      var written := PlainTree.AppendFile(upper, name, data);
      upper, outcome := written.layer, written.outcome;
      if outcome == Done {
        UnreservedIsNoMarker(name, name);
        ClearWhiteout(name);
      }
    }

    /** Chmod and Chtimes, whose effect on modes and times is not part of the model. */
    method Touch(name: Path) returns (outcome: Outcome)
      requires Sane()
      modifies this`upper
      ensures Sane() && Applied(upper, outcome) == Layers.Touch(old(upper), lower, name)
    {
      outcome := PrepareWrite(name);
      if outcome != Done {
        return;
      }
      outcome := CopyUp(name);
      if outcome != Done {
        return;
      }
      var changed := Lookup(upper, name);
      outcome := if changed.Ok? then Done else Failed(changed.error);
    }

    // ----------------------------------------------------------- directories

    /** The marker of a removed directory is kept when it is made again, so it stays opaque. */
    method Mkdir(name: Path) returns (outcome: Outcome)
      requires Sane()
      modifies this`upper
      ensures Sane() && Applied(upper, outcome) == Layers.Mkdir(old(upper), lower, name)
    {
      outcome := PrepareWrite(name);
      if outcome != Done {
        return;
      }
      var present := Stat(name);
      if present.Ok? {
        return Failed(Exist);
      }
      var made := PlainTree.Create(upper, name, Dir);
      LookupIs(upper, name);
      if made.outcome == Done {
        AddWellFormed(upper, name, Dir);
      }
      upper, outcome := made.layer, made.outcome;
    }

    method MkdirAll(name: Path) returns (outcome: Outcome)
      requires Sane()
      modifies this`upper
      ensures Sane() && Applied(upper, outcome) == Layers.MkdirAll(old(upper), lower, name)
    {
      if Reserved(name) {
        return Failed(Invalid);
      }
      outcome := WalkDirs(name, true);
    }

    // --------------------------------------------------------------- removal

    /** Drops the markers kept directly in an upper directory. */
    method ClearMarkers(dir: Path)
      requires Sane() && DirAt(upper, dir)
      modifies this`upper
      ensures Sane() && upper == Layers.ClearMarkers(old(upper), dir)
    {
      NamesOf(upper, dir);
      var names := ListDir(upper, dir).value;
      var rest := names;
      Dropping(upper, dir, {}, "");
      while rest != {}
        invariant rest <= names && Sane()
        invariant upper == Dropped(old(upper), dir, names - rest)
        decreases rest
      {
        var c :| c in rest;
        Dropping(old(upper), dir, names - rest, c);
        assert names - (rest - {c}) == names - rest + {c};
        var marker := dir + [c];
        rest := rest - {c};
        if IsWhiteoutName(c) {
          assert Parent(marker) == dir && marker[|marker| - 1] == c;
          ReservedParent(marker);
          MarkerRemoved(upper, marker);
          upper := PlainTree.Remove(upper, marker).layer;
        }
      }
      assert names - {} == names;
      DroppedAll(old(upper), dir);
    }

    method Remove(name: Path) returns (outcome: Outcome)
      requires Sane()
      modifies this`upper
      ensures Applied(upper, outcome) == Layers.Remove(old(upper), lower, name)
    {
      if name == ROOT || Reserved(name) {
        return Failed(Invalid);
      }
      var info := Stat(name);
      if info.Err? {
        return Failed(info.error);
      }
      if info.value.Dir? {
        var entries := ReadDir(name);
        if entries.Err? {
          return Failed(entries.error);
        } else if entries.value != map[] {
          return Failed(NotEmpty);
        }
      }
      LookupIs(upper, name);
      if Lookup(upper, name).Ok? {
        if info.value.Dir? {
          ClearMarkers(name);
        }
        RemovedWellFormed(upper, name);
        var removed := PlainTree.Remove(upper, name);
        upper, outcome := removed.layer, removed.outcome;
        if outcome != Done {
          return;
        }
      }
      var visible := VisibleInLower(name);
      if !visible {
        return Done;
      }
      outcome := SetWhiteout(name);
    }

    method RemoveAll(name: Path) returns (outcome: Outcome)
      requires Sane()
      modifies this`upper
      ensures Applied(upper, outcome) == Layers.RemoveAll(old(upper), lower, name)
    {
      if name == ROOT || Reserved(name) {
        return Failed(Invalid);
      }
      var hideLower := VisibleInLower(name);
      var present := Lookup(upper, name);
      if present.Ok? {
        WithoutWellFormed(upper, name);
        upper := PlainTree.RemoveAll(upper, name).layer;
      } else if present.error != NotExist {
        return Failed(present.error);
      }
      if !hideLower {
        return Done;
      }
      outcome := SetWhiteout(name);
    }

    // ---------------------------------------------------------------- rename

    /** Copies a visible entry and everything visible below it. */
    method CopyUpTree(name: Path) returns (outcome: Outcome)
      requires Valid() && !Reserved(name) && name in View(upper, lower)
      modifies this`upper
      ensures Valid() && View(upper, lower) == old(View(upper, lower))
      ensures outcome == Done && upper == Layers.CopyUpTree(old(upper), lower, name)
      decreases Below(View(upper, lower), name), 1
    {
      ghost var u, v := upper, View(upper, lower);
      LayeredSane(u, lower);
      ViewWellFormed(u, lower);
      BranchClosed(v, name);
      CopyUpCopies(u, lower, name);
      CopiedTwice(u, lower, Above(v, name), {});
      outcome := CopyUp(name);
      ViewLookup(upper, lower, name);
      LookupIs(v, name);
      var info := Stat(name);
      if info.value.File? {
        FileHasNothingBelow(v, name);
        TreeCopied(u, lower, name, Above(v, name), {});
        return;
      }
      ListingExactly(upper, lower, name);
      var entries := ReadDir(name);
      ghost var keys;
      outcome, keys := CopyUpEntries(name, entries.value.Keys);
      CopiedTwice(u, lower, Above(v, name), keys);
      TreeCopied(u, lower, name, Above(v, name) + keys, entries.value.Keys);
    }

    method CopyUpEntries(name: Path, names: set<string>) returns (outcome: Outcome, ghost keys: set<Path>)
      requires Valid() && name in View(upper, lower) && forall c | c in names :: name + [c] in View(upper, lower)
      modifies this`upper
      ensures Valid() && View(upper, lower) == old(View(upper, lower)) && outcome == Done
      ensures Closed(View(upper, lower), keys) && upper == Copied(old(upper), lower, keys)
      ensures forall q | q in keys :: q <= name || name <= q
      ensures forall c, q | c in names && q in View(upper, lower) && name + [c] <= q :: q in keys
      decreases Below(View(upper, lower), name), 0
    {
      ghost var u, v := upper, View(upper, lower);
      keys := {};
      outcome := Done;
      var rest := names;
      assert Copied(u, lower, {}) == u;
      ViewWellFormed(u, lower);
      while rest != {}
        invariant Valid() && View(upper, lower) == v && outcome == Done && rest <= names
        invariant Closed(v, keys) && upper == Copied(u, lower, keys)
        invariant forall q | q in keys :: q <= name || name <= q
        invariant forall c, q | c in names - rest && q in v && name + [c] <= q :: q in keys
        decreases rest
      {
        var c :| c in rest;
        rest := rest - {c};
        EntryCopied(u, lower, name, c, keys);
        keys := keys + Branch(v, name + [c]);
        outcome := CopyUpTree(name + [c]);
        hide View, Layered, Closed, Copied, Layers.CopyUpTree, Branch, Below, Reserved;
      }
    }

    method Rename(name: Path, newName: Path) returns (outcome: Outcome)
      requires Valid()
      modifies this`upper
      ensures Applied(upper, outcome) == Layers.Rename(old(upper), lower, name, newName)
    {
      if Reserved(name) || Reserved(newName) {
        return Failed(Invalid);
      }
      LayeredSane(upper, lower);
      ViewLookup(upper, lower, name);
      ViewWellFormed(upper, lower);
      LookupIs(View(upper, lower), name);
      var present := Stat(name);
      if present.Err? {
        return Failed(present.error);
      }
      outcome := CopyUpTree(name);
      LayeredSane(upper, lower);
      ReservedPrefixOfParent(newName);
      outcome := WalkDirs(Parent(newName), false);
      if outcome != Done {
        return;
      }
      var renamed := PlainTree.Rename(upper, name, newName);
      if renamed.outcome != Done {
        outcome := renamed.outcome;
        return;
      }
      // A rename of "." moves the root entry of the upper layer; the lower root still shows, and there is
      // no marker for it.
      if name == ROOT {
        upper := renamed.layer;
        return Failed(Invalid);
      }
      MovedSane(upper, name, newName);
      PlainRenameIs(upper, name, newName);
      NoEntryBelowTarget(upper, name, newName);
      upper := renamed.layer;
      var visible := VisibleInLower(name);
      if visible {
        outcome := SetWhiteout(name);
        if outcome != Done {
          return;
        }
      }
      LookupIs(upper, newName);
      var info := Lookup(upper, newName);
      if info.Ok? && info.value.File? {
        ClearWhiteout(newName);
      }
      outcome := Done;
    }
  }
}

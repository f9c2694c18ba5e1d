/** Renaming through the overlay: the visible subtree is copied up, moved in the upper layer, and a marker
    keeps its lower original hidden. */
module OverlayRename {
  import opened Results
  import opened Paths
  import opened PlainTree
  import opened Layers
  import opened LayerLaws
  import opened OverlaySimulation
  import opened FileLaws
  import Files

  // ---------------------------------------------------------- copying a tree up

  /** Visible entries copied to the upper layer. */
  function Copied(u: Layer, l: Layer, keys: set<Path>): Layer {
    var v := View(u, l);
    u + map q | q in keys && q in v :: v[q]
  }

  /** Visible names, with everything above them. */
  ghost predicate Closed(v: Layer, keys: set<Path>) {
    forall q {:trigger Parent(q)} | q in keys :: q in v && Parent(q) in keys
  }

  lemma CopiedEntry(u: Layer, l: Layer, keys: set<Path>, q: Path)
    requires Layered(u, l) && Closed(View(u, l), keys)
    ensures var c, v := Copied(u, l, keys), View(u, l);
      && (q in c <==> q in u || q in keys)
      && (q in c ==> c[q] == if q in u then u[q] else v[q])
      && (q in keys ==> q in v && Visible(u, l, q))
      && HasWhiteout(c, q) == HasWhiteout(u, q) && WhitedOut(c, q) == WhitedOut(u, q)
  {
    var c := Copied(u, l, keys);
    forall r | r in keys ensures r in View(u, l) { assert Parent(r) in keys; }
    forall r | r != ROOT ensures HasWhiteout(c, r) == HasWhiteout(u, r) { MarkerReserved(r); }
    WhitedOutSame(u, c, q);
  }

  lemma CopiedLayered(u: Layer, l: Layer, keys: set<Path>)
    requires Layered(u, l) && Closed(View(u, l), keys)
    ensures Layered(Copied(u, l, keys), l)
  {
    var c, v := Copied(u, l, keys), View(u, l);
    forall q ensures (q in c <==> q in u || q in keys) && (q in c ==> c[q] == if q in u then u[q] else v[q])
      && (q in keys ==> q in v && Visible(u, l, q))
      && HasWhiteout(c, q) == HasWhiteout(u, q) && WhitedOut(c, q) == WhitedOut(u, q)
    {
      CopiedEntry(u, l, keys, q);
    }
    ViewWellFormed(u, l);
    forall q | q in keys ensures Parent(q) in keys && BelowDir(v, q) { assert Parent(q) in keys; }
    hide Copied, View;
    forall q | q in c ensures BelowDir(c, q) { assert q in u ==> BelowDir(u, q); }
    forall q | q in c ensures MarkerShape(c, q) { assert q in u ==> MarkerShape(u, q); }
    forall q | q in c ensures Covered(c, l, q) { assert q in u ==> Covered(u, l, q); }
  }

  lemma CopiedVisible(u: Layer, l: Layer, keys: set<Path>, q: Path)
    requires Layered(u, l) && Closed(View(u, l), keys)
    ensures var c := Copied(u, l, keys);
      Visible(c, l, q) == Visible(u, l, q) && (Exposed(c, l, q) ==> Exposed(u, l, q))
  {
    var c, v := Copied(u, l, keys), View(u, l);
    ViewWellFormed(u, l);
    CopiedEntry(u, l, keys, q);
    if FileAbove(u, q) {
      var f := FileAboveWitness(u, q);
      CopiedEntry(u, l, keys, f);
      FileHidesBelow(c, f, q);
    } else if FileAbove(c, q) {
      var f := FileAboveWitness(c, q);
      CopiedEntry(u, l, keys, f);
      if q in v {
        AboveIsDir(v, f, q);
      }
      if q in l {
        AboveIsDir(l, f, q);
      }
    }
  }

  /** Copying up leaves the view as it is and brings nothing to light. */
  lemma CopiedView(u: Layer, l: Layer, keys: set<Path>)
    requires Layered(u, l) && Closed(View(u, l), keys)
    ensures View(Copied(u, l, keys), l) == View(u, l) && NothingResurfaces(u, Copied(u, l, keys), l)
  {
    var c, v := Copied(u, l, keys), View(u, l);
    forall q ensures Visible(c, l, q) == Visible(u, l, q) && (Exposed(c, l, q) ==> Exposed(u, l, q)) {
      CopiedVisible(u, l, keys, q);
    }
    hide Visible, Exposed, Layered;
    forall q ensures (q in View(c, l) <==> q in v) && (q in v ==> View(c, l)[q] == v[q]) { CopiedEntry(u, l, keys, q); }
    assert View(c, l) == v;
  }

  /** The names a tree copied up takes in: those above it, and those at and below it. */
  function Above(v: Layer, p: Path): set<Path> {
    set q | q in v && q <= p
  }

  function Branch(v: Layer, p: Path): set<Path> {
    set q | q in v && (q <= p || p <= q)
  }

  lemma BranchClosed(v: Layer, p: Path)
    requires WellFormed(v)
    ensures Closed(v, Above(v, p)) && Closed(v, Branch(v, p))
  {
    forall q | q in v && q != ROOT
      ensures Parent(q) in v && (q <= p ==> Parent(q) <= p) && (p <= q && p != q ==> p <= Parent(q))
    {
      assert BelowDir(v, q);
      if p <= q && p != q {
        PrefixOfParent(p, q);
      }
    }
  }

  lemma CopyUpTreeInvisible(u: Layer, l: Layer, p: Path)
    requires Layered(u, l) && p in View(u, l)
    ensures Invisible(u, CopyUpTree(u, l, p), l)
    ensures forall q | q in View(u, l) && p <= q :: q in CopyUpTree(u, l, p)
    ensures forall q :: q in CopyUpTree(u, l, p) <==> q in u || (q in View(u, l) && (q <= p || p <= q))
    ensures forall q :: HasWhiteout(CopyUpTree(u, l, p), q) == HasWhiteout(u, q)
  {
    var v := View(u, l);
    ViewWellFormed(u, l);
    BranchClosed(v, p);
    assert CopyUpTree(u, l, p) == Copied(u, l, Branch(v, p));
    CopiedLayered(u, l, Branch(v, p));
    CopiedView(u, l, Branch(v, p));
    forall q ensures HasWhiteout(CopyUpTree(u, l, p), q) == HasWhiteout(u, q) { CopiedEntry(u, l, Branch(v, p), q); }
  }

  // ------------------------------------------------------- moving a subtree up

  /** The upper layer after the move and the bookkeeping of markers. */
  function Renamed(w: Layer, l: Layer, from: Path, to: Path): Layer
    requires from != ROOT && to != ROOT
  {
    var r := Files.Relocated(w, from, to);
    var h := if VisibleInLower(w, l, from) then r[Marker(from) := File([])] else r;
    if FileAt(h, to) then h - {Marker(to)} else h
  }

  /** Where a rename stands when the checks of the upper layer have passed. */
  ghost predicate Poised(w: Layer, l: Layer, from: Path, to: Path) {
    && Layered(w, l) && from != ROOT && !Reserved(from) && !Reserved(to)
    && from in View(w, l) && !Within(from, to) && DirAt(w, Parent(to))
    && (forall q | q in View(w, l) && from <= q :: q in w)
    && PlainTree.Obstacle(w, from, to) == None
  }

  /** The view has no objection either. */
  ghost predicate Staged(w: Layer, l: Layer, from: Path, to: Path) {
    Poised(w, l, from, to) && PlainTree.Obstacle(View(w, l), from, to) == None
  }

  lemma PoisedFacts(w: Layer, l: Layer, from: Path, to: Path)
    requires Poised(w, l, from, to)
    ensures to != ROOT && !(to <= from) && from in w && forall q | q in w :: !(to < q)
  {
    PlainLookup(w, l, from);
    NoEntryBelowTarget(w, from, to);
    assert from <= from;
    assert to <= from ==> to < from || to == from;
  }

  lemma StagedFacts(w: Layer, l: Layer, from: Path, to: Path)
    requires Staged(w, l, from, to)
    ensures var v := View(w, l);
      && WellFormed(v) && to != ROOT && !(to <= from) && from in w && w[from] == v[from]
      && (forall q | q in w :: !(to < q)) && (forall q | q in v :: !(to < q))
      && (forall q | from <= q && !Reserved(q) :: q in w <==> q in v)
      && DirAt(v, Parent(to))
  {
    var v := View(w, l);
    PlainLookup(w, l, from);
    ReservedPrefixOfParent(to);
    PlainLookup(w, l, Parent(to));
    NoEntryBelowTarget(w, from, to);
    NoEntryBelowTarget(v, from, to);
    assert from <= from;
    assert to <= from ==> to < from || to == from;
    forall q | from <= q && !Reserved(q) ensures q in w <==> q in v { PlainLookup(w, l, q); }
  }

  lemma ReservedPrefixOfParent(p: Path)
    requires !Reserved(p)
    ensures !Reserved(Parent(p))
  {
    if p != ROOT {
      ReservedPrefix(Parent(p), p);
    }
  }

  /** A target without obstacle is not the root and nothing lies below it. */
  lemma NoEntryBelowTarget(t: Layer, from: Path, to: Path)
    requires WellFormed(t) && PlainTree.Obstacle(t, from, to) == None
    ensures to != ROOT && forall q | q in t :: !(to < q)
  {
    forall q | q in t ensures !(to < q) {
      if DirAt(t, to) {
        ChildlessIsLeaf(t, to, q);
      } else if to < q {
        AboveIsDir(t, to, q);
      }
    }
  }

  /** Nothing of the lower layer shows at or below the target of a directory. */
  lemma LowerSilent(w: Layer, l: Layer, from: Path, to: Path, q: Path)
    requires Staged(w, l, from, to) && DirAt(w, from) && !WhitedOut(w, to) && to <= q && q in l
    ensures to == q && DirAt(l, q) && DirAt(View(w, l), to)
  {
    var v := View(w, l);
    StagedFacts(w, l, from, to);
    FileAboveParent(w, to);
    LookupIs(l, to);
    if to == q {
      assert Covered(w, l, to) || to !in w;
    } else {
      assert |to| < |q| by {
        assert |to| == |q| ==> to == q;
      }
      var child := q[..|to| + 1];
      assert Parent(child) == to && to < child <= q;
      AboveIsDir(l, to, q);
      if child != q {
        AboveIsDir(l, child, q);
      }
      assert !HasWhiteout(w, child) by {
        MarkerReserved(child);
        assert to < Marker(child);
      }
      assert to in w ==> DirAt(w, to) by { assert to in w ==> to in v; }
      assert child !in v;
      assert !Reserved(child);
      assert child !in w && WhitedOut(w, child) == false;
      assert !FileAbove(w, child);
    }
  }

  // ------------------------------------------------- markers after the rename

  /** A marker lies below p exactly when its name does. */
  lemma MarkerAbove(p: Path, q: Path)
    requires q != ROOT && Marker(q) != p
    ensures p <= Marker(q) <==> p < q
  {
    MarkerReserved(q);
    var mark := Marker(q);
    if |p| < |q| {
      assert mark[..|p|] == Parent(q)[..|p|] == q[..|p|];
    } else {
      assert |p| == |mark| && p <= mark ==> p == mark;
    }
  }

  lemma MarkedEntry(r: Layer, to: Path, former: Path, latter: Path, shows: bool, q: Path)
    requires former != latter && to != former && to != latter
    ensures var h := if shows then r[former := File([])] else r;
      var x := if FileAt(h, to) then h - {latter} else h;
      && (q in x <==> !(q == latter && FileAt(r, to)) && ((shows && q == former) || q in r))
      && (q in x ==> x[q] == if shows && q == former then File([]) else r[q])
  {
  }

  /** The upper layer after a rename, entry by entry. */
  lemma RenamedEntry(w: Layer, l: Layer, from: Path, to: Path, q: Path)
    requires Poised(w, l, from, to) && to != ROOT
    ensures var x, o, marked := Renamed(w, l, from, to), Origin(from, to, q), q == Marker(from)
      && VisibleInLower(w, l, from);
      && (q in x <==> !(q == Marker(to) && FileAt(w, from)) && (marked || (o in w && Within(from, o) == (to <= q))))
      && (q in x ==> x[q] == if marked then File([]) else w[o])
  {
    PoisedFacts(w, l, from, to);
    RelocatedEntries(w, from, to);
    UnreservedIsNoMarker(to, from);
    UnreservedIsNoMarker(to, to);
    assert Origin(from, to, to) == from;
    assert Marker(from) != Marker(to) by {
      if Marker(from) == Marker(to) {
        MarkerInjective(from, to);
      }
    }
    MarkedEntry(Files.Relocated(w, from, to), to, Marker(from), Marker(to), VisibleInLower(w, l, from), q);
    hide Files.Relocated, Layered, View, Reserved, Marker, WhitedOut, Poised;
  }

  /** Away from the new name every marker stays, and the old name gets one if it would show again. */
  lemma RenamedMarker(w: Layer, l: Layer, from: Path, to: Path, q: Path)
    requires Poised(w, l, from, to) && q != ROOT && to != ROOT && !(to < q)
    ensures var x := Renamed(w, l, from, to);
      HasWhiteout(x, q) <==>
        !(q == to && FileAt(w, from))
        && ((q == from && VisibleInLower(w, l, from)) || (HasWhiteout(w, q) && !(from < q)))
  {
    var mark := Marker(q);
    RenamedEntry(w, l, from, to, mark);
    if Marker(q) == Marker(from) {
      MarkerInjective(q, from);
    }
    if Marker(q) == Marker(to) {
      MarkerInjective(q, to);
    }
    UnreservedIsNoMarker(from, q);
    UnreservedIsNoMarker(to, q);
    MarkerAbove(to, q);
    MarkerAbove(from, q);
    hide Renamed, Layered, View, Reserved, Marker, WhitedOut;
  }

  /** Hiding after a rename: as before away from both names, everything below the old name, and below the
      new name of a directory what was hidden there. */
  lemma RenamedWhitedOut(w: Layer, l: Layer, from: Path, to: Path, q: Path)
    requires Poised(w, l, from, to)
    ensures var x := Renamed(w, l, from, to);
      && (!(from <= q) && !(to <= q) ==> WhitedOut(x, q) == WhitedOut(w, q))
      && (from <= q && q in l ==> WhitedOut(x, q))
      && (to <= q && DirAt(w, from) && WhitedOut(w, to) ==> WhitedOut(x, q))
  {
    PoisedFacts(w, l, from, to);
    var x := Renamed(w, l, from, to);
    if !(from <= q) && !(to <= q) {
      AwayFromBoth(w, l, from, to, q);
    } else if from <= q && q in l {
      if VisibleInLower(w, l, from) {
        RenamedMarker(w, l, from, to, from);
      } else {
        if |from| < |q| {
          AboveIsDir(l, from, q);
        } else {
          assert from == q;
        }
        AwayFromBoth(w, l, from, to, from);
      }
      WhitedOutBelow(x, from, q);
    } else if to <= q && DirAt(w, from) && WhitedOut(w, to) {
      AwayFromBoth(w, l, from, to, to);
      WhitedOutBelow(x, to, q);
    }
  }

  lemma AwayFromBoth(w: Layer, l: Layer, from: Path, to: Path, q: Path)
    requires Poised(w, l, from, to) && !(from < q) && !(to < q)
    requires q == to ==> DirAt(w, from)
    requires q == from ==> !VisibleInLower(w, l, from)
    ensures WhitedOut(Renamed(w, l, from, to), q) == WhitedOut(w, q)
  {
    PoisedFacts(w, l, from, to);
    var x := Renamed(w, l, from, to);
    forall r | r != ROOT && r <= q ensures HasWhiteout(w, r) == HasWhiteout(x, r) {
      assert !(from < r) && !(to < r);
      assert r == to || r == from ==> r == q by {
        if |r| == |q| {
          assert r == q;
        } else {
          assert r < q;
        }
      }
      RenamedMarker(w, l, from, to, r);
    }
    WhitedOutSame(w, x, q);
  }

  // ------------------------------------------------------ the view afterwards

  lemma RenamedVisible(w: Layer, l: Layer, from: Path, to: Path, q: Path)
    requires Staged(w, l, from, to) && to != ROOT
    ensures var x, o := Renamed(w, l, from, to), Origin(from, to, q);
      && (Visible(x, l, q) <==> Visible(w, l, o) && Within(from, o) == (to <= q))
      && (Visible(x, l, q) ==> (if q in x then x[q] else l[q]) == (if o in w then w[o] else l[o]))
      && (Exposed(x, l, q) ==> Exposed(w, l, q))
  {
    if to <= q {
      VisibleAtTarget(w, l, from, to, q);
    } else if from <= q {
      VisibleAtSource(w, l, from, to, q);
    } else {
      VisibleElsewhere(w, l, from, to, q);
    }
  }

  lemma VisibleAtSource(w: Layer, l: Layer, from: Path, to: Path, q: Path)
    requires Poised(w, l, from, to) && to != ROOT && from <= q && !(to <= q)
    ensures var x := Renamed(w, l, from, to);
      !Visible(x, l, q) && !Exposed(x, l, q)
  {
    RenamedEntry(w, l, from, to, q);
    RenamedWhitedOut(w, l, from, to, q);
    MarkerReserved(from);
  }

  lemma VisibleElsewhere(w: Layer, l: Layer, from: Path, to: Path, q: Path)
    requires Poised(w, l, from, to) && to != ROOT && !(from <= q) && !(to <= q)
    ensures var x := Renamed(w, l, from, to);
      && (Visible(x, l, q) <==> Visible(w, l, q))
      && (Visible(x, l, q) ==> (if q in x then x[q] else l[q]) == (if q in w then w[q] else l[q]))
      && (Exposed(x, l, q) ==> Exposed(w, l, q))
  {
    var x := Renamed(w, l, from, to);
    RenamedWhitedOut(w, l, from, to, q);
    if !Reserved(q) {
      forall r | r <= q ensures (r in x <==> r in w) && (r in w ==> x[r] == w[r]) {
        ReservedPrefix(r, q);
        RenamedEntry(w, l, from, to, r);
        UnreservedIsNoMarker(r, from);
        UnreservedIsNoMarker(r, to);
        assert (from <= r ==> from <= q) && (to <= r ==> to <= q);
      }
      hide Renamed, Poised;
      FileAboveSame(w, x, q);
    }
  }

  lemma SourceAtTarget(w: Layer, l: Layer, from: Path, to: Path)
    requires Poised(w, l, from, to) && to != ROOT
    ensures var x := Renamed(w, l, from, to); to in x && x[to] == w[from]
  {
    PoisedFacts(w, l, from, to);
    RenamedEntry(w, l, from, to, to);
    UnreservedIsNoMarker(to, from);
    UnreservedIsNoMarker(to, to);
    assert Origin(from, to, to) == from;
  }

  /** At and below the new name the lower layer is hidden, except for a directory that was merged there. */
  lemma LowerAtTarget(w: Layer, l: Layer, from: Path, to: Path, q: Path)
    requires Staged(w, l, from, to) && to != ROOT && to <= q && q in l
    ensures var x := Renamed(w, l, from, to);
      WhitedOut(x, q) || FileAt(x, q) || FileAbove(x, q) || (q == to && q in x && DirAt(l, q) && Exposed(w, l, q))
  {
    var x := Renamed(w, l, from, to);
    StagedFacts(w, l, from, to);
    SourceAtTarget(w, l, from, to);
    if FileAt(w, from) {
      if |to| < |q| {
        FileHidesBelow(x, to, q);
      } else {
        assert q == to;
      }
    } else if WhitedOut(w, to) {
      RenamedWhitedOut(w, l, from, to, q);
    } else {
      LowerSilent(w, l, from, to, q);
      FileAboveParent(w, to);
    }
  }

  lemma VisibleAtTarget(w: Layer, l: Layer, from: Path, to: Path, q: Path)
    requires Staged(w, l, from, to) && to != ROOT && to <= q
    ensures var x, o := Renamed(w, l, from, to), Origin(from, to, q);
      && (Visible(x, l, q) <==> Visible(w, l, o) && Within(from, o))
      && (Visible(x, l, q) ==> q in x && o in w && x[q] == w[o])
      && (Exposed(x, l, q) ==> Exposed(w, l, q))
  {
    var x, o := Renamed(w, l, from, to), Origin(from, to, q);
    assert Within(from, o) && q == to + q[|to|..];
    ReservedConcat(from, q[|to|..]);
    ReservedConcat(to, q[|to|..]);
    if q in l {
      LowerAtTarget(w, l, from, to, q);
    }
    if !Reserved(q) {
      TargetEntry(w, l, from, to, q);
    }
    hide Renamed, Staged, FileAbove, WhitedOut;
  }

  lemma TargetEntry(w: Layer, l: Layer, from: Path, to: Path, q: Path)
    requires Staged(w, l, from, to) && to != ROOT && to <= q && !Reserved(q) && !Reserved(Origin(from, to, q))
    ensures var x, o := Renamed(w, l, from, to), Origin(from, to, q);
      (q in x <==> o in w) && (o in w ==> x[q] == w[o]) && (Visible(w, l, o) <==> o in w)
  {
    var o := Origin(from, to, q);
    assert from <= o;
    StagedFacts(w, l, from, to);
    RenamedEntry(w, l, from, to, q);
    UnreservedIsNoMarker(q, from);
    UnreservedIsNoMarker(q, to);
    VisibleIs(w, l, o);
  }

  // -------------------------------------------------------------- valid layers

  /** Directories are never taken for markers. */
  lemma DirStays(w: Layer, l: Layer, from: Path, to: Path, p: Path)
    requires Poised(w, l, from, to) && to != ROOT
    requires DirAt(w, Origin(from, to, p)) && Within(from, Origin(from, to, p)) == (to <= p)
    ensures DirAt(Renamed(w, l, from, to), p)
  {
    PoisedFacts(w, l, from, to);
    RenamedEntry(w, l, from, to, p);
    MarkerReserved(from);
    MarkerReserved(to);
    UnreservedIsNoMarker(to, from);
    UnreservedIsNoMarker(to, to);
    MarkerAbove(to, from);
    MarkerAbove(to, to);
    assert MarkerShape(w, Origin(from, to, p));
    hide Renamed, FileAbove, View;
  }

  lemma RenamedBelowDir(w: Layer, l: Layer, from: Path, to: Path, q: Path)
    requires Poised(w, l, from, to) && to != ROOT && q in Renamed(w, l, from, to)
    ensures BelowDir(Renamed(w, l, from, to), q)
  {
    PoisedFacts(w, l, from, to);
    RenamedEntry(w, l, from, to, q);
    if q != ROOT {
      var up := Parent(q);
      MarkerReserved(from);
      if q == Marker(from) && VisibleInLower(w, l, from) {
        assert BelowDir(w, from);
        assert to <= up ==> to <= from;
      } else if q == to {
        assert from <= up ==> from <= to;
      } else {
        OriginParent(from, to, q);
        assert BelowDir(w, Origin(from, to, q));
      }
      hide Renamed, FileAbove, View;
      DirStays(w, l, from, to, up);
    }
  }

  lemma ReservedOrigin(from: Path, to: Path, q: Path)
    requires !Reserved(from) && !Reserved(to) && to <= q
    ensures Reserved(Origin(from, to, q)) == Reserved(q)
  {
    assert q == to + q[|to|..];
    ReservedConcat(to, q[|to|..]);
    ReservedConcat(from, q[|to|..]);
  }

  lemma RenamedMarkerShape(w: Layer, l: Layer, from: Path, to: Path, q: Path)
    requires Poised(w, l, from, to) && to != ROOT && q in Renamed(w, l, from, to)
    ensures MarkerShape(Renamed(w, l, from, to), q)
  {
    var o := Origin(from, to, q);
    PoisedFacts(w, l, from, to);
    RenamedEntry(w, l, from, to, q);
    MarkerReserved(from);
    ReservedPrefixOfParent(from);
    if Reserved(q) && !(q == Marker(from) && VisibleInLower(w, l, from)) {
      if to <= q {
        ReservedOrigin(from, to, q);
        if q != to {
          OriginParent(from, to, q);
          ReservedOrigin(from, to, Parent(q));
        }
      }
      assert MarkerShape(w, o);
    }
    hide Renamed, Poised, Layered, View, Reserved, Marker, WhitedOut;
  }

  lemma RenamedCovered(w: Layer, l: Layer, from: Path, to: Path, q: Path)
    requires Staged(w, l, from, to) && to != ROOT && q in Renamed(w, l, from, to)
    requires WellFormed(Renamed(w, l, from, to))
    ensures Covered(Renamed(w, l, from, to), l, q)
  {
    var x := Renamed(w, l, from, to);
    if DirAt(x, q) && FileAt(l, q) {
      RenamedWhitedOut(w, l, from, to, q);
      LookupIs(x, q);
      if to <= q {
        LowerAtTarget(w, l, from, to, q);
      } else if !(from <= q) {
        RenamedEntry(w, l, from, to, q);
        assert Covered(w, l, q);
      }
    }
  }

  lemma RenamedValid(w: Layer, l: Layer, from: Path, to: Path)
    requires Staged(w, l, from, to) && to != ROOT
    ensures Layered(Renamed(w, l, from, to), l)
  {
    var x := Renamed(w, l, from, to);
    assert DirAt(x, ROOT) by { DirStays(w, l, from, to, ROOT); }
    forall q | q in x ensures BelowDir(x, q) { RenamedBelowDir(w, l, from, to, q); }
    forall q | q in x ensures MarkerShape(x, q) { RenamedMarkerShape(w, l, from, to, q); }
    hide Renamed, BelowDir, MarkerShape;
    forall q | q in x ensures Covered(x, l, q) { RenamedCovered(w, l, from, to, q); }
  }

  /** The move in the upper layer with its markers is the move of the visible subtree: the new name holds
      exactly what was visible at the old one and the rest is untouched. */
  lemma RenamedView(w: Layer, l: Layer, from: Path, to: Path)
    requires Staged(w, l, from, to) && to != ROOT
    ensures View(Renamed(w, l, from, to), l) == Files.Relocated(View(w, l), from, to)
    ensures NothingResurfaces(w, Renamed(w, l, from, to), l)
  {
    var x, v, y := Renamed(w, l, from, to), View(w, l), View(Renamed(w, l, from, to), l);
    StagedFacts(w, l, from, to);
    RelocatedEntries(v, from, to);
    hide Staged, Layered, Renamed, View, Files.Relocated, Exposed;
    forall q ensures (q in y <==> Origin(from, to, q) in v && Within(from, Origin(from, to, q)) == (to <= q))
      && (q in y ==> y[q] == v[Origin(from, to, q)])
    {
      RenamedShows(w, l, from, to, q);
    }
    forall q | Exposed(x, l, q) ensures Exposed(w, l, q) { RenamedVisible(w, l, from, to, q); }
    assert y == Files.Relocated(v, from, to);
  }

  lemma RenamedShows(w: Layer, l: Layer, from: Path, to: Path, q: Path)
    requires Staged(w, l, from, to) && to != ROOT
    ensures var v, y, o := View(w, l), View(Renamed(w, l, from, to), l), Origin(from, to, q);
      (q in y <==> o in v && Within(from, o) == (to <= q)) && (q in y ==> y[q] == v[o])
  {
    RenamedVisible(w, l, from, to, q);
    VisibleIs(Renamed(w, l, from, to), l, q);
    VisibleIs(w, l, Origin(from, to, q));
    hide Staged, Layered, Renamed, View, Visible;
  }

  // ------------------------------------------------ the code's steps, as one

  lemma MovedMarkers(w: Layer, l: Layer, from: Path, to: Path)
    requires Poised(w, l, from, to)
    ensures var r := Files.Relocated(w, from, to);
      && WhitedOut(r, from) == WhitedOut(w, from) && (HasWhiteout(r, from) == HasWhiteout(w, from))
      && forall q | q <= Parent(from) :: DirAt(r, q)
  {
    var r := Files.Relocated(w, from, to);
    PoisedFacts(w, l, from, to);
    RelocatedEntries(w, from, to);
    forall q | q != ROOT && q <= from ensures HasWhiteout(w, q) == HasWhiteout(r, q) {
      UnreservedIsNoMarker(to, q);
      UnreservedIsNoMarker(from, q);
      MarkerAbove(to, q);
      MarkerAbove(from, q);
      assert to <= q ==> to <= from;
    }
    WhitedOutSame(w, r, from);
    forall q | q <= Parent(from) ensures DirAt(r, q) {
      assert q < from;
      AboveIsDir(w, q, from);
      assert to <= q ==> to <= from;
    }
  }

  /** Once staged, the rename in the upper layer followed by the marker steps is Renamed. */
  lemma RenameSteps(w: Layer, l: Layer, from: Path, to: Path)
    requires Poised(w, l, from, to)
    ensures var r := PlainTree.Rename(w, from, to);
      && r == Applied(Files.Relocated(w, from, to), Done)
      && VisibleInLower(r.layer, l, from) == VisibleInLower(w, l, from)
      && (VisibleInLower(w, l, from) ==>
            SetWhiteout(r.layer, l, from) == Applied(r.layer[Marker(from) := File([])], Done))
  {
    PoisedFacts(w, l, from, to);
    LookupIs(w, from);
    LookupIs(w, Parent(to));
    MovedMarkers(w, l, from, to);
    MaterializeNothing(Files.Relocated(w, from, to), l, Parent(from), false);
    hide View, Files.Relocated, Materialize, Reserved;
  }

  // --------------------------------------------------------------- the theorem

  /** The checks of a rename pass, up to the ones on an existing target. */
  ghost predicate Proceeds(v: Layer, from: Path, to: Path) {
    from in v && DirAt(v, Parent(to)) && !Within(from, to)
  }

  /** The upper layer alone judges an existing target as the view does: it holds the target, with the same
      answer to whether it is empty, or there is nothing to object to. */
  ghost predicate TargetSettled(u: Layer, v: Layer, from: Path, to: Path) {
    to < from || to !in v ||
    if to in u then DirAt(v, to) && DirAt(v, from) ==> (HasChildren(u, to) <==> HasChildren(v, to))
    else PlainTree.Obstacle(v, from, to) == None
  }

  /** The upper layer once the source is copied up and the directories on the way to the target are. */
  function Stage(u: Layer, l: Layer, from: Path, to: Path): Applied {
    Materialize(CopyUpTree(u, l, from), l, Parent(to), false)
  }

  lemma StageView(u: Layer, l: Layer, from: Path, to: Path)
    requires Layered(u, l) && !Reserved(from) && !Reserved(to) && from in View(u, l)
    ensures var m, v := Stage(u, l, from, to), View(u, l);
      && Invisible(u, m.layer, l) && m.outcome == WalkOutcome(Lookup(v, Parent(to)))
      && (m.outcome == Done ==> DirAt(m.layer, Parent(to)) && DirAt(v, Parent(to)))
      && (forall q :: q in m.layer <==>
        q in u || (q in v && (q <= from || from <= q || (q <= Parent(to) && DirAt(m.layer, q)))))
  {
    var c, v := CopyUpTree(u, l, from), View(u, l);
    CopyUpTreeInvisible(u, l, from);
    ReservedPrefixOfParent(to);
    MaterializeView(c, l, Parent(to));
    ViewLookup(c, l, Parent(to));
    PlainLookup(u, l, Parent(to));
    var m := Stage(u, l, from, to);
    forall q | q <= Parent(to) && DirAt(m.layer, q) ensures q in v {
      ReservedPrefix(q, Parent(to));
      PlainLookup(m.layer, l, q);
    }
    hide CopyUpTree, View, Materialize, Layered, WhitedOut, Visible;
  }

  /** The children of the target in the staged upper layer. */
  lemma StagedChildren(u: Layer, l: Layer, from: Path, to: Path)
    requires Layered(u, l) && !Reserved(from) && !Reserved(to) && from in View(u, l) && from != ROOT
    requires !(from <= to)
    ensures var w, v := Stage(u, l, from, to).layer, View(u, l);
      && (to < from ==> HasChildren(w, to) && HasChildren(v, to))
      && (!(to < from) ==> (HasChildren(w, to) <==> HasChildren(u, to)))
  {
    var w, v := Stage(u, l, from, to).layer, View(u, l);
    StageView(u, l, from, to);
    hide Stage, View;
    if to < from {
      var child := from[..|to| + 1];
      assert Parent(child) == from[..|to|] == to && child <= from;
      ViewWellFormed(u, l);
      if child != from {
        AboveIsDir(v, child, from);
      }
      assert child in w && child in v;
    } else {
      forall q | q in w && q != ROOT && Parent(q) == to ensures q in u {
        assert from <= q ==> q == from by {
          if |from| < |q| && from <= q {
            PrefixOfParent(from, q);
          }
        }
        assert q <= from ==> to < from;
        assert q == from ==> to < from;
      }
    }
  }

  lemma StagedNames(u: Layer, l: Layer, from: Path, to: Path)
    requires Layered(u, l) && !Reserved(from) && !Reserved(to) && from in View(u, l) && !(from <= to)
    ensures var w, v := Stage(u, l, from, to).layer, View(u, l);
      && from in w && w[from] == v[from]
      && (to in w <==> to in u || to < from) && (to in w ==> to in v && w[to] == v[to])
  {
    var w, v := Stage(u, l, from, to).layer, View(u, l);
    StageView(u, l, from, to);
    PlainLookup(w, l, from);
    PlainLookup(w, l, to);
    PlainLookup(u, l, to);
    ViewWellFormed(u, l);
    assert to <= Parent(to) ==> to == ROOT;
    if to < from {
      AboveIsDir(v, to, from);
    }
    assert from <= from && from in w;
    hide View, Layered, Stage, Reserved;
  }

  lemma ObstacleAgrees(u: Layer, l: Layer, from: Path, to: Path)
    requires Layered(u, l) && !Reserved(from) && !Reserved(to) && from != ROOT
    requires Proceeds(View(u, l), from, to)
    ensures var w, v := Stage(u, l, from, to).layer, View(u, l);
      PlainTree.Obstacle(w, from, to) == PlainTree.Obstacle(v, from, to) <==> TargetSettled(u, v, from, to)
  {
    StagedNames(u, l, from, to);
    StagedChildren(u, l, from, to);
    ViewWellFormed(u, l);
    assert ROOT in u;
    hide View, Layered, Stage, Reserved, HasChildren;
  }

  /** Exactly when a rename does what a plain rename does: an existing target is judged alike. */
  ghost predicate RenameGuard(u: Layer, v: Layer, from: Path, to: Path) {
    Proceeds(v, from, to) ==> TargetSettled(u, v, from, to)
  }

  lemma PlainRenameIs(v: Layer, from: Path, to: Path)
    requires WellFormed(v)
    ensures PlainTree.Rename(v, from, to) ==
      if from !in v then Applied(v, Failed(Lookup(v, from).error))
      else if WalkOutcome(Lookup(v, Parent(to))) != Done then Applied(v, WalkOutcome(Lookup(v, Parent(to))))
      else if Within(from, to) then Applied(v, Failed(IntoItself))
      else if PlainTree.Obstacle(v, from, to).Some? then Applied(v, Failed(PlainTree.Obstacle(v, from, to).value))
      else Applied(Files.Relocated(v, from, to), Done)
  {
    LookupIs(v, from);
    hide Files.Relocated;
  }

  lemma RenameWhenStaged(u: Layer, l: Layer, from: Path, to: Path)
    requires Layered(u, l) && !Reserved(from) && !Reserved(to) && from != ROOT
    requires Proceeds(View(u, l), from, to) && TargetSettled(u, View(u, l), from, to)
    requires PlainTree.Obstacle(View(u, l), from, to) == None
    ensures var w := Stage(u, l, from, to);
      && w.outcome == Done && Staged(w.layer, l, from, to) && to != ROOT
      && Layers.Rename(u, l, from, to) == Applied(Renamed(w.layer, l, from, to), Done)
  {
    var w, v := Stage(u, l, from, to).layer, View(u, l);
    StageView(u, l, from, to);
    PlainLookup(u, l, Parent(to));
    ViewLookup(u, l, from);
    PlainLookup(u, l, from);
    PlainLookup(w, l, from);
    ObstacleAgrees(u, l, from, to);
    NoEntryBelowTarget(v, from, to);
    assert forall q | q in v && from <= q :: q in w;
    assert from <= from;
    assert Staged(w, l, from, to);
    RenameSteps(w, l, from, to);
    hide View, Layered, Materialize, Files.Relocated, SetWhiteout, MergedLookup, Staged, Reserved, Marker;
  }

  /** A rename that is refused by the view, or not judged alike by the upper layer. */
  lemma RenameRefused(u: Layer, l: Layer, from: Path, to: Path)
    requires Layered(u, l) && !Reserved(from) && !Reserved(to) && from != ROOT
    requires Proceeds(View(u, l), from, to) && TargetSettled(u, View(u, l), from, to) ==>
      PlainTree.Obstacle(View(u, l), from, to).Some?
    ensures var actual, plain := Layers.Rename(u, l, from, to), PlainTree.Rename(View(u, l), from, to);
      Simulates(u, l, actual, plain) <==> RenameGuard(u, View(u, l), from, to)
  {
    var v := View(u, l);
    ViewLookup(u, l, from);
    PlainLookup(u, l, from);
    PlainRenameIs(v, from, to);
    if from in v {
      var m := Stage(u, l, from, to);
      StageView(u, l, from, to);
      PlainLookup(u, l, Parent(to));
      assert from <= from && from in m.layer;
      PlainRenameIs(m.layer, from, to);
      LookupIs(m.layer, Parent(to));
      if Proceeds(v, from, to) {
        ObstacleAgrees(u, l, from, to);
        if PlainTree.Obstacle(m.layer, from, to) == None {
          assert Poised(m.layer, l, from, to);
          RenameSteps(m.layer, l, from, to);
        }
      }
    }
    hide View, Layered, Materialize, Files.Relocated, SetWhiteout, MergedLookup, Poised, Reserved, Marker, Exposed,
      WhitedOut;
  }

  /** An existing target is judged by the upper layer alone: one it does not have is replaced whatever it
      is, and a directory it has markers in counts as populated. */
  lemma TargetJudged(u: Layer, l: Layer, from: Path, to: Path)
    requires Layered(u, l) && !Reserved(from) && !Reserved(to) && from != ROOT && Proceeds(View(u, l), from, to)
    ensures to !in u && !(to < from) ==> Layers.Rename(u, l, from, to).outcome == Done
    ensures DirAt(u, to) && HasChildren(u, to) && !(to < from) && DirAt(View(u, l), from) ==>
      Layers.Rename(u, l, from, to).outcome == Failed(NotEmpty)
  {
    var m := Stage(u, l, from, to);
    StageView(u, l, from, to);
    ViewLookup(u, l, from);
    PlainLookup(u, l, from);
    PlainLookup(u, l, Parent(to));
    PlainLookup(u, l, to);
    StagedNames(u, l, from, to);
    StagedChildren(u, l, from, to);
    PlainRenameIs(m.layer, from, to);
    LookupIs(m.layer, Parent(to));
    if to !in u && !(to < from) {
      assert Poised(m.layer, l, from, to);
      RenameSteps(m.layer, l, from, to);
    }
    hide View, Layered, Materialize, Files.Relocated, SetWhiteout, MergedLookup, Poised, Reserved, Marker, Exposed,
      WhitedOut, HasChildren;
  }

  /** Exactly when a rename through the overlay is the rename of the visible subtree. */
  lemma RenameSimulates(u: Layer, l: Layer, from: Path, to: Path)
    requires Layered(u, l) && !Reserved(from) && !Reserved(to) && from != ROOT
    ensures var actual, plain := Layers.Rename(u, l, from, to), PlainTree.Rename(View(u, l), from, to);
      Simulates(u, l, actual, plain) <==> RenameGuard(u, View(u, l), from, to)
  {
    var v := View(u, l);
    if Proceeds(v, from, to) && TargetSettled(u, v, from, to) && PlainTree.Obstacle(v, from, to) == None {
      RenameWhenStaged(u, l, from, to);
      RenameDone(u, l, from, to);
    } else {
      RenameRefused(u, l, from, to);
    }
  }

  lemma RenameDone(u: Layer, l: Layer, from: Path, to: Path)
    requires Layered(u, l) && !Reserved(from) && !Reserved(to) && from != ROOT
    requires Proceeds(View(u, l), from, to) && TargetSettled(u, View(u, l), from, to)
    requires PlainTree.Obstacle(View(u, l), from, to) == None
    ensures var actual, plain := Layers.Rename(u, l, from, to), PlainTree.Rename(View(u, l), from, to);
      Simulates(u, l, actual, plain)
  {
    var v, w := View(u, l), Stage(u, l, from, to).layer;
    RenameWhenStaged(u, l, from, to);
    StageView(u, l, from, to);
    ViewWellFormed(u, l);
    PlainRenameIs(v, from, to);
    PlainLookup(u, l, Parent(to));
    RenamedView(w, l, from, to);
    RenamedValid(w, l, from, to);
    hide View, Layered, Materialize, Files.Relocated, SetWhiteout, MergedLookup, Staged, Poised, Reserved, Marker,
      Exposed, WhitedOut;
  }
}

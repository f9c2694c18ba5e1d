/** Overlay.Remove, whose test for emptiness is a listing: what it does to a directory that looks empty and
    is not. */
module OverlayRemoval {
  import opened Results
  import opened Paths
  import opened PlainTree
  import opened Layers
  import opened LayerLaws
  import opened OverlaySimulation
  import Files

  /** A directory that is not empty, though listings leave out all it holds. */
  ghost predicate LooksEmpty(u: Layer, v: Layer, p: Path) {
    DirAt(v, p) && HasChildren(v, p) && forall c {:trigger p + [c]} | p + [c] in v :: Lost(u, p + [c])
  }

  /** Only a directory all of whose names start with '.' or before can look empty. */
  lemma PlainNameShows(u: Layer, v: Layer, p: Path, c: string)
    requires p + [c] in v && c != "" && '.' < c[0]
    ensures !LooksEmpty(u, v, p)
  {
    MarkerFirstIs(c);
    assert (p + [c])[|p + [c]| - 1] == c;
    assert !Lost(u, p + [c]);
  }

  /** A lower entry that only the marker of q hides. */
  ghost predicate HiddenOnlyBy(u: Layer, l: Layer, q: Path, r: Path) {
    && q != ROOT && q <= r && r in l && HasWhiteout(u, q)
    && (forall s | s != ROOT && s != q && s <= r :: !HasWhiteout(u, s))
    && !FileAt(u, r) && !FileAbove(u, r)
  }

  /** A marker kept in p is all that hides some lower entry. */
  ghost predicate KeepsHidden(u: Layer, l: Layer, p: Path) {
    exists q, r {:trigger HiddenOnlyBy(u, l, q, r)} :: HiddenOnlyBy(u, l, q, r) && Parent(q) == p
  }

  /** When removing p brings lower entries back: it fails, as p is not empty, but only after dropping the
      markers in p, as p looked empty. */
  ghost predicate Resurrects(u: Layer, l: Layer, p: Path) {
    p != ROOT && LooksEmpty(u, View(u, l), p) && KeepsHidden(u, l, p)
  }

  // ------------------------------------------------------ dropping the markers

  lemma {:induction false} NoMarkerNoWhiteout(u: Layer, p: Path)
    ensures WhitedOut(u, p) <==> exists q :: q != ROOT && q <= p && HasWhiteout(u, q)
    decreases |p|
  {
    if p != ROOT {
      NoMarkerNoWhiteout(u, Parent(p));
      if q :| q != ROOT && q <= p && HasWhiteout(u, q) {
        PrefixStep(p, q);
      }
      if q :| q != ROOT && q <= Parent(p) && HasWhiteout(u, q) {
        PrefixStep(p, q);
      }
    }
  }

  /** Only the markers kept in p go. */
  lemma ClearedEntry(u: Layer, p: Path, q: Path)
    ensures var c := ClearMarkers(u, p);
      && (q in c ==> q in u && c[q] == u[q])
      && (!Reserved(q) ==> (q in c <==> q in u))
      && (q != ROOT && !Reserved(q) ==> (HasWhiteout(c, q) <==> HasWhiteout(u, q) && Parent(q) != p))
  {
    if q != ROOT {
      MarkerReserved(q);
      ReservedParent(q);
    }
  }

  lemma ClearedFiles(u: Layer, p: Path, q: Path)
    requires !Reserved(q)
    ensures var c := ClearMarkers(u, p);
      FileAt(c, q) == FileAt(u, q) && FileAbove(c, q) == FileAbove(u, q)
  {
    var c := ClearMarkers(u, p);
    ClearedEntry(u, p, q);
    forall r | r < q ensures FileAt(c, r) == FileAt(u, r) {
      ReservedPrefix(r, q);
      ClearedEntry(u, p, r);
    }
    FileAboveSame(u, c, q);
  }

  lemma ClearedMarkers(u: Layer, p: Path, r: Path)
    requires !Reserved(r)
    ensures WhitedOut(ClearMarkers(u, p), r) <==> exists q :: q != ROOT && q <= r && HasWhiteout(u, q) && Parent(q) != p
  {
    var c := ClearMarkers(u, p);
    NoMarkerNoWhiteout(c, r);
    forall q | q != ROOT && q <= r ensures HasWhiteout(c, q) <==> HasWhiteout(u, q) && Parent(q) != p {
      ReservedPrefix(q, r);
      ClearedEntry(u, p, q);
    }
    hide ClearMarkers, WhitedOut, HasWhiteout, Reserved;
  }

  /** Dropping the markers in p exposes exactly what only they hid. */
  lemma ClearedExposes(u: Layer, l: Layer, p: Path, r: Path)
    requires !Reserved(r) && p != ROOT
    ensures Exposed(ClearMarkers(u, p), l, r) && !Exposed(u, l, r) <==>
      exists q {:trigger HiddenOnlyBy(u, l, q, r)} :: HiddenOnlyBy(u, l, q, r) && Parent(q) == p
  {
    ClearedFiles(u, p, r);
    ClearedMarkers(u, p, r);
    NoMarkerNoWhiteout(u, r);
    forall q, s | q != ROOT && s != ROOT && q <= r && s <= r && Parent(q) == p && Parent(s) == p ensures q == s {
      assert |q| == |s|;
    }
    hide ClearMarkers, WhitedOut, HasWhiteout, Reserved, FileAt, FileAbove;
    if r in l && !WhitedOut(ClearMarkers(u, p), r) && WhitedOut(u, r) {
      var q :| q != ROOT && q <= r && HasWhiteout(u, q);
      assert forall s | s != ROOT && s != q && s <= r :: !HasWhiteout(u, s);
      assert !FileAt(u, r) && !FileAbove(u, r) ==> HiddenOnlyBy(u, l, q, r);
    }
  }

  lemma ClearedHides(u: Layer, l: Layer, p: Path)
    requires Layered(u, l) && p != ROOT
    ensures NothingResurfaces(u, ClearMarkers(u, p), l) <==> !KeepsHidden(u, l, p)
  {
    forall r | r in l ensures !Reserved(r) {}
    hide Layered, ClearMarkers;
    forall r | r in l
      ensures Exposed(ClearMarkers(u, p), l, r) && !Exposed(u, l, r) <==>
        exists q {:trigger HiddenOnlyBy(u, l, q, r)} :: HiddenOnlyBy(u, l, q, r) && Parent(q) == p
    {
      ClearedExposes(u, l, p, r);
    }
  }

  lemma ClearedLayered(u: Layer, l: Layer, p: Path)
    requires Layered(u, l) && p != ROOT && NothingResurfaces(u, ClearMarkers(u, p), l)
    ensures Layered(ClearMarkers(u, p), l)
  {
    var c := ClearMarkers(u, p);
    forall q
      ensures (q in c ==> q in u && c[q] == u[q]) && (!Reserved(q) ==> (q in c <==> q in u))
    {
      ClearedEntry(u, p, q);
    }
    hide ClearMarkers;
    assert !Reserved(ROOT);
    forall q | q in c ensures BelowDir(c, q) {
      assert BelowDir(u, q);
      assert q != ROOT ==> MarkerShape(u, Parent(q));
    }
    forall q | q in c ensures MarkerShape(c, q) { assert MarkerShape(u, q); }
    forall q | q in c ensures Covered(c, l, q) {
      assert Covered(u, l, q);
      if DirAt(c, q) && FileAt(l, q) {
        LookupIs(c, q);
        assert Exposed(c, l, q) ==> Exposed(u, l, q);
      }
    }
  }

  lemma ClearedView(u: Layer, l: Layer, p: Path)
    requires Layered(u, l) && p != ROOT && NothingResurfaces(u, ClearMarkers(u, p), l)
    ensures View(ClearMarkers(u, p), l) == View(u, l)
  {
    var c := ClearMarkers(u, p);
    forall q | !Reserved(q)
      ensures Visible(c, l, q) == Visible(u, l, q) && (q in c <==> q in u) && (q in c ==> c[q] == u[q])
    {
      ClearedEntry(u, p, q);
      ClearedFiles(u, p, q);
      ClearedMarkers(u, p, q);
      NoMarkerNoWhiteout(u, q);
      hide ClearMarkers, WhitedOut, FileAbove;
      assert Exposed(c, l, q) ==> Exposed(u, l, q);
    }
    hide ClearMarkers, Layered, NothingResurfaces;
    assert View(c, l) == View(u, l);
  }

  // ------------------------------------------------------------------- removal

  lemma ClearedStays(u: Layer, p: Path, q: Path)
    requires WellFormed(u) && p != ROOT && !Reserved(p) && q in u && q != ROOT && Parent(q) == p && !Reserved(q)
    ensures PlainTree.Remove(ClearMarkers(u, p), p) == Applied(ClearMarkers(u, p), Failed(NotEmpty))
  {
    var c := ClearMarkers(u, p);
    ClearedEntry(u, p, q);
    assert BelowDir(u, q);
    forall s | s <= p ensures DirAt(c, s) {
      ReservedPrefix(s, p);
      ClearedEntry(u, p, s);
      if s != p {
        AboveIsDir(u, s, p);
      }
    }
    hide ClearMarkers;
    MaterializeNothing(c, c, p, false);
  }

  lemma LostChild(u: Layer, l: Layer, p: Path) returns (q: Path)
    requires Layered(u, l) && !Reserved(p) && LooksEmpty(u, View(u, l), p)
    ensures q in u && q != ROOT && Parent(q) == p && !Reserved(q) && DirAt(u, p)
  {
    var v := View(u, l);
    q :| q in v && q != ROOT && Parent(q) == p;
    assert q == p + [q[|q| - 1]];
    VisibleIs(u, l, q);
    hide View;
    assert q in u && BelowDir(u, q);
  }

  lemma LostListing(u: Layer, l: Layer, p: Path)
    requires Layered(u, l) && !Reserved(p) && LooksEmpty(u, View(u, l), p)
    ensures ReadDir(u, l, p) == Ok(map[])
  {
    hide View, ReadDir, Lost, Layered;
    ListingExactly(u, l, p);
    var names := ReadDir(u, l, p).value;
    assert forall c :: c !in names;
  }

  /** A directory that looks empty loses its markers and stays. */
  lemma RemoveOfLost(u: Layer, l: Layer, p: Path)
    requires Layered(u, l) && p != ROOT && !Reserved(p) && LooksEmpty(u, View(u, l), p)
    ensures Layers.Remove(u, l, p) == Applied(ClearMarkers(u, p), Failed(NotEmpty))
  {
    var v, c := View(u, l), ClearMarkers(u, p);
    var q := LostChild(u, l, p);
    LostListing(u, l, p);
    ViewLookup(u, l, p);
    PlainLookup(u, l, p);
    hide View, Layered, ReadDir, MergedLookup, LooksEmpty;
    ClearedStays(u, p, q);
    hide ClearMarkers, PlainTree.Remove;
  }

  lemma RemoveListed(u: Layer, l: Layer, p: Path)
    requires Layered(u, l) && !Reserved(p) && !LooksEmpty(u, View(u, l), p)
    ensures Simulates(u, l, Layers.Remove(u, l, p), PlainTree.Remove(View(u, l), p))
  {
    var v := View(u, l);
    PlainLookup(u, l, p);
    ViewLookup(u, l, p);
    ListingExactly(u, l, p);
    hide ReadDir, MergedLookup;
    if p in v && p != ROOT && !(v[p].Dir? && HasChildren(v, p)) {
      assert BelowDir(v, p);
      WithdrawnView(u, l, p);
      RemoveIsWithdraw(u, l, p);
      LeafAlone(v, p);
    } else if DirAt(v, p) && p != ROOT {
      var c :| p + [c] in v && !Lost(u, p + [c]);
      assert c in ReadDir(u, l, p).value;
    }
  }

  /** Exactly when Remove does what it does on a plain tree, and exactly when it hides what it should. */
  lemma RemoveSimulates(u: Layer, l: Layer, p: Path)
    requires Layered(u, l) && !Reserved(p)
    ensures var actual, plain := Layers.Remove(u, l, p), PlainTree.Remove(View(u, l), p);
      && actual.outcome == plain.outcome
      && (Simulates(u, l, actual, plain) <==> !Resurrects(u, l, p))
      && (NothingResurfaces(u, actual.layer, l) <==> !Resurrects(u, l, p))
  {
    var v := View(u, l);
    if p != ROOT && LooksEmpty(u, v, p) {
      RemoveOfLost(u, l, p);
      PlainLookup(u, l, p);
      ClearedHides(u, l, p);
      if NothingResurfaces(u, ClearMarkers(u, p), l) {
        ClearedLayered(u, l, p);
        ClearedView(u, l, p);
      }
      hide View, ClearMarkers, Layered, NothingResurfaces, KeepsHidden, Layers.Remove;
    } else if p != ROOT {
      RemoveListed(u, l, p);
    } else {
    }
  }
}

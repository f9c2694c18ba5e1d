/** Every mutation of the overlay acts on the merged view as the same operation acts on one plain tree,
    and none of them brings a hidden lower entry back to light. */
module OverlaySimulation {
  import opened Results
  import opened Paths
  import opened PlainTree
  import opened Layers
  import opened LayerLaws
  import Files

  ghost predicate NothingResurfaces(u: Layer, w: Layer, l: Layer) {
    forall q | Exposed(w, l, q) :: Exposed(u, l, q)
  }

  /** A change a user of the overlay cannot see. */
  ghost predicate Invisible(u: Layer, w: Layer, l: Layer) {
    Layered(w, l) && View(w, l) == View(u, l) && NothingResurfaces(u, w, l)
  }

  /** The overlay did to its view what the plain operation did. */
  ghost predicate Simulates(u: Layer, l: Layer, actual: Applied, plain: Applied) {
    && actual.outcome == plain.outcome
    && Layered(actual.layer, l) && View(actual.layer, l) == plain.layer
    && NothingResurfaces(u, actual.layer, l)
  }

  // ------------------------------------------------------------- preparation

  /** After prepareWrite the parent is an upper directory, or the walk to the name fails as in the view. */
  lemma PrepareView(u: Layer, l: Layer, p: Path)
    requires Layered(u, l) && !Reserved(p)
    ensures var m := Prepare(u, l, p);
      && Invisible(u, m.layer, l) && Grown(u, m.layer, Parent(p))
      && MergedLookup(m.layer, l, p) == MergedLookup(u, l, p) == Lookup(View(u, l), p)
      && (m.outcome == Done ==> DirAt(m.layer, Parent(p)) && DirAt(View(u, l), Parent(p)))
      && (m.outcome == Done && p !in View(u, l) ==>
            p != ROOT && Lookup(View(u, l), p) == Err(NotExist) && Lookup(View(u, l), Parent(p)).Ok?)
      && (m.outcome != Done ==> !(Lookup(View(u, l), p) == Err(NotExist) && Lookup(View(u, l), Parent(p)).Ok?))
      && (m.outcome != Done ==>
        p != ROOT && Lookup(View(u, l), p).Err? && m.outcome == Failed(Lookup(View(u, l), p).error))
  {
    var v := View(u, l);
    if p != ROOT {
      ReservedParent(p);
    }
    MaterializeView(u, l, Parent(p));
    ViewLookup(u, l, Parent(p));
    ViewLookup(u, l, p);
    ViewLookup(Prepare(u, l, p).layer, l, p);
    ViewWellFormed(u, l);
    LookupIs(v, Parent(p));
    LookupIs(v, p);
    if p !in v && DirAt(v, Parent(p)) {
      FileAboveParent(v, p);
    }
  }

  lemma PlainLookup(u: Layer, l: Layer, p: Path)
    requires Layered(u, l)
    ensures WellFormed(View(u, l))
    ensures Lookup(View(u, l), p).Ok? <==> p in View(u, l)
    ensures p in View(u, l) ==> Lookup(View(u, l), p) == Ok(View(u, l)[p])
    ensures p !in View(u, l) ==> p != ROOT
    ensures !Reserved(p) && p in u ==> p in View(u, l) && View(u, l)[p] == u[p]
  {
    ViewWellFormed(u, l);
    LookupIs(View(u, l), p);
  }

  // ------------------------------------------------------------------- files

  lemma CreateFileSimulates(u: Layer, l: Layer, p: Path, data: Bytes)
    requires Layered(u, l) && !Reserved(p)
    ensures Simulates(u, l, Layers.CreateFile(u, l, p, data), PlainTree.Create(View(u, l), p, File(data)))
  {
    PrepareView(u, l, p);
    PlainLookup(u, l, p);
    var v, m := View(u, l), Prepare(u, l, p);
    PlainLookup(m.layer, l, p);
    if m.outcome == Done && p !in v {
      PutFileView(m.layer, l, p, data);
      OverwrittenIs(v, p, data);
    }
    hide Layered, View, MergedLookup, Exposed;
  }

  /** Exactly when WriteFile does what it does on a plain tree: unless the name is a directory of the
      lower layer only, which a new upper file then shadows with everything below it. */
  lemma WriteFileSimulates(u: Layer, l: Layer, p: Path, data: Bytes)
    requires Layered(u, l) && !Reserved(p)
    ensures var actual, plain := Layers.WriteFile(u, l, p, data), PlainTree.WriteFile(View(u, l), p, data);
      && (Simulates(u, l, actual, plain) <==> !(DirAt(View(u, l), p) && p !in u))
      && (DirAt(View(u, l), p) && p !in u ==>
            && actual.outcome == Done && plain.outcome == Failed(IsDir)
            && Layered(actual.layer, l) && View(actual.layer, l) == Overwritten(View(u, l), p, data)
            && NothingResurfaces(u, actual.layer, l))
  {
    PrepareView(u, l, p);
    PlainLookup(u, l, p);
    var v, m := View(u, l), Prepare(u, l, p);
    PlainLookup(m.layer, l, p);
    assert p != ROOT ==> (p in m.layer <==> p in u);
    assert p == ROOT ==> DirAt(u, p) && DirAt(v, p);
    if m.outcome == Done && p != ROOT && !DirAt(m.layer, p) {
      PutFileView(m.layer, l, p, data);
      if !DirAt(v, p) {
        OverwrittenIs(v, p, data);
      }
    }
    hide Layered, View, MergedLookup, Exposed;
  }

  /** A directory that is there with all its parents needs no copying up. */
  lemma {:induction false} MaterializeNothing(u: Layer, l: Layer, p: Path, create: bool)
    requires DirAt(u, ROOT) && forall q | q <= p :: DirAt(u, q)
    ensures Materialize(u, l, p, create) == Applied(u, Done)
    ensures Lookup(u, p) == Ok(Dir)
    decreases |p|
  {
    if p != ROOT {
      MaterializeNothing(u, l, Parent(p), create);
      assert p <= p && DirAt(u, p);
    }
  }

  /** Copying an entry up, below an upper directory, is invisible. */
  lemma CopyUpInvisible(u: Layer, l: Layer, p: Path)
    requires Layered(u, l) && !Reserved(p) && DirAt(u, Parent(p))
    ensures var c := CopyUp(u, l, p);
      && c.outcome == Done && Invisible(u, c.layer, l) && DirAt(c.layer, Parent(p))
      && (p in c.layer <==> p in View(u, l)) && (p in c.layer ==> c.layer[p] == View(u, l)[p])
  {
    var v := View(u, l);
    PlainLookup(u, l, p);
    LookupIs(u, p);
    LookupIs(l, p);
    forall r | r <= Parent(p) ensures DirAt(u, r) {
      if r != Parent(p) {
        AboveIsDir(u, r, Parent(p));
      }
    }
    MaterializeNothing(u, l, Parent(p), false);
    if p != ROOT {
      FileAboveParent(u, p);
    }
    assert CopyUp(u, l, p) == Applied(if p !in u && p in v then u[p := v[p]] else u, Done);
    hide CopyUp, Materialize;
    if p !in u && p in v {
      if v[p].Dir? {
        CopyDirUp(u, l, p);
      } else {
        assert !HasWhiteout(u, p);
        assert PutFile(u, p, v[p].data) == u[p := v[p]];
        PutFileView(u, l, p, v[p].data);
        OverwrittenIs(v, p, v[p].data);
      }
    }
  }

  lemma AppendFileSimulates(u: Layer, l: Layer, p: Path, data: Bytes)
    requires Layered(u, l) && !Reserved(p)
    ensures Simulates(u, l, Layers.AppendFile(u, l, p, data), PlainTree.AppendFile(View(u, l), p, data))
  {
    PrepareView(u, l, p);
    PlainLookup(u, l, p);
    var v, m := View(u, l), Prepare(u, l, p);
    if m.outcome == Done {
      CopyUpInvisible(m.layer, l, p);
      var c := CopyUp(m.layer, l, p).layer;
      assert p == ROOT ==> DirAt(v, p);
      if p != ROOT && !DirAt(c, p) {
        var whole := (if FileAt(c, p) then c[p].data else []) + data;
        PutFileView(c, l, p, whole);
        OverwrittenIs(v, p, whole);
        assert p !in v ==> whole == data;
      }
    }
    hide Layered, View, MergedLookup, Exposed;
  }

  /** Chmod and Chtimes leave the view alone and fail exactly where the name is not in it. */
  lemma TouchInvisible(u: Layer, l: Layer, p: Path)
    requires Layered(u, l) && !Reserved(p)
    ensures var actual, r := Touch(u, l, p), Lookup(View(u, l), p);
      Invisible(u, actual.layer, l) && actual.outcome == if r.Ok? then Done else Failed(r.error)
  {
    PrepareView(u, l, p);
    PlainLookup(u, l, p);
    var v, m := View(u, l), Prepare(u, l, p);
    if m.outcome == Done {
      CopyUpInvisible(m.layer, l, p);
      var c := CopyUp(m.layer, l, p).layer;
      LookupIs(c, p);
      LookupIs(v, p);
      if p !in v {
        FileAboveParent(c, p);
        FileAboveParent(v, p);
      }
    }
    hide Layered, View, MergedLookup, Exposed;
  }

  // ------------------------------------------------------------- directories

  lemma MkdirSimulates(u: Layer, l: Layer, p: Path)
    requires Layered(u, l) && !Reserved(p)
    ensures var actual, plain := Layers.Mkdir(u, l, p), PlainTree.Create(View(u, l), p, Dir);
      Simulates(u, l, actual, plain)
  {
    PrepareView(u, l, p);
    PlainLookup(u, l, p);
    var v, m := View(u, l), Prepare(u, l, p);
    PlainLookup(m.layer, l, p);
    if m.outcome == Done && p !in v {
      LookupIs(m.layer, Parent(p));
      LookupIs(m.layer, p);
      FileAboveParent(m.layer, p);
      NewDir(m.layer, l, p);
    }
    hide View, MergedLookup, Exposed;
  }

  lemma {:induction false} MkdirAllSimulates(u: Layer, l: Layer, p: Path)
    requires Layered(u, l) && !Reserved(p)
    ensures var m, plain := Materialize(u, l, p, true), PlainTree.MkdirAll(View(u, l), p);
      Simulates(u, l, m, plain) && Layers.MkdirAll(u, l, p) == m && (m.outcome == Done ==> DirAt(m.layer, p))
    decreases |p|
  {
    if p != ROOT {
      ReservedParent(p);
      MkdirAllSimulates(u, l, Parent(p));
      var up := Materialize(u, l, Parent(p), true);
      if up.outcome == Done {
        MakeStep(up.layer, l, p);
      }
      hide Layered, View, MergedLookup, Exposed;
    }
  }

  lemma MakeStep(w: Layer, l: Layer, p: Path)
    requires Layered(w, l) && !Reserved(p) && p != ROOT && DirAt(w, Parent(p))
    ensures var x, y := View(w, l), w[p := Dir];
      if FileAt(x, p) then
        (if p in w then Lookup(w, p) == Ok(w[p]) && w[p].File?
         else Lookup(w, p) == Err(NotExist) && MergedLookup(w, l, p).Ok? && MergedLookup(w, l, p).value.File?)
      else if p in w then Lookup(w, p) == Ok(Dir) && x[p := Dir] == x
      else
        && Lookup(w, p) == Err(NotExist) && MergedLookup(w, l, p) in {Ok(Dir), Err(NotExist)}
        && Layered(y, l) && View(y, l) == x[p := Dir]
        && (forall q :: Exposed(y, l, q) <==> Exposed(w, l, q))
  {
    var x := View(w, l);
    PlainLookup(w, l, p);
    ViewLookup(w, l, p);
    LookupIs(w, p);
    LookupIs(x, p);
    FileAboveParent(w, p);
    assert DirAt(x, Parent(p)) by { ReservedParent(p); }
    FileAboveParent(x, p);
    if p !in w && !FileAt(x, p) {
      if p in x {
        CopyDirUp(w, l, p);
        assert x[p := Dir] == x;
      } else {
        NewDir(w, l, p);
      }
    }
  }

  // ----------------------------------------------------------------- removal

  /** Taking a subtree out of the upper layer touches nothing outside it. */
  lemma WithoutOutside(u: Layer, l: Layer, p: Path, q: Path)
    requires Layered(u, l) && p != ROOT && !Reserved(p)
    ensures var w := Files.Without(u, p);
      && (!(p <= q) ==> Visible(w, l, q) == Visible(u, l, q) && Exposed(w, l, q) == Exposed(u, l, q))
      && (!(p < q) ==> WhitedOut(w, q) == WhitedOut(u, q))
  {
    var w := Files.Without(u, p);
    if !(p < q) {
      forall r | r != ROOT && r <= q ensures HasWhiteout(u, r) == HasWhiteout(w, r) {
        UnreservedIsNoMarker(p, r);
        if |p| < |r| {
          assert Marker(r)[..|p|] == Parent(r)[..|p|] == r[..|p|] == q[..|p|];
        }
      }
      WhitedOutSame(u, w, q);
      if !(p <= q) {
        forall r | r < q ensures FileAt(u, r) == FileAt(w, r) {}
        FileAboveSame(u, w, q);
      }
    }
  }

  lemma WithoutValid(u: Layer, l: Layer, p: Path)
    requires Layered(u, l) && p != ROOT && !Reserved(p)
    ensures Layered(Files.Without(u, p), l)
  {
    var w := Files.Without(u, p);
    forall q | q in w ensures BelowDir(w, q) {
      assert BelowDir(u, q);
      assert q != ROOT && p <= Parent(q) ==> p <= q;
    }
    forall q | q in w ensures MarkerShape(w, q) { assert MarkerShape(u, q); }
    forall q | q in w ensures Covered(w, l, q) {
      assert Covered(u, l, q);
      WithoutOutside(u, l, p, q);
    }
  }

  /** setWhiteout below a visible directory, once the upper layer has nothing at or below p. */
  lemma SetWhiteoutView(u: Layer, l: Layer, p: Path)
    requires Layered(u, l) && p != ROOT && !Reserved(p) && VisibleInLower(u, l, p)
    requires DirAt(View(u, l), Parent(p)) && forall q | q in u :: !(p <= q)
    ensures var s := SetWhiteout(u, l, p);
      && s.outcome == Done && Layered(s.layer, l)
      && View(s.layer, l) == Files.Without(View(u, l), p) && NothingResurfaces(u, s.layer, l)
  {
    ReservedParent(p);
    MaterializeView(u, l, Parent(p));
    ViewLookup(u, l, Parent(p));
    PlainLookup(u, l, Parent(p));
    var m := Materialize(u, l, Parent(p), false).layer;
    assert !HasWhiteout(m, p);
    forall q | q in m ensures !(p <= q) {
      assert q in u || q <= Parent(p);
    }
    assert Files.Without(m, p) == m;
    assert SetWhiteout(u, l, p).layer == Hidden(m, l, p);
    HiddenView(m, l, p);
  }

  /** What removal does to the upper layer. */
  function Withdrawn(u: Layer, l: Layer, p: Path): Applied
    requires p != ROOT
  {
    var w := Files.Without(u, p);
    if VisibleInLower(u, l, p) then SetWhiteout(w, l, p) else Applied(w, Done)
  }

  lemma WithdrawnView(u: Layer, l: Layer, p: Path)
    requires Layered(u, l) && p != ROOT && !Reserved(p)
    requires VisibleInLower(u, l, p) ==> DirAt(View(u, l), Parent(p))
    ensures var r := Withdrawn(u, l, p);
      && r.outcome == Done && Layered(r.layer, l)
      && View(r.layer, l) == Files.Without(View(u, l), p) && NothingResurfaces(u, r.layer, l)
  {
    var w := Files.Without(u, p);
    if VisibleInLower(u, l, p) {
      WithoutValid(u, l, p);
      WithoutOutside(u, l, p, p);
      WithoutOutside(u, l, p, Parent(p));
      SetWhiteoutView(w, l, p);
      forall q | !(p <= q) ensures Visible(w, l, q) == Visible(u, l, q) && Exposed(w, l, q) == Exposed(u, l, q) {
        WithoutOutside(u, l, p, q);
      }
      assert Files.Without(View(w, l), p) == Files.Without(View(u, l), p);
      var r := Withdrawn(u, l, p).layer;
      forall q | Exposed(r, l, q) ensures Exposed(u, l, q) {
        assert Visible(r, l, q) && q in View(r, l);
      }
    } else {
      assert Hidden(u, l, p) == w;
      HiddenView(u, l, p);
    }
  }

  lemma RemoveAllSimulates(u: Layer, l: Layer, p: Path)
    requires Layered(u, l) && !Reserved(p)
    ensures var actual, plain := Layers.RemoveAll(u, l, p), PlainTree.RemoveAll(View(u, l), p);
      && Layered(actual.layer, l) && View(actual.layer, l) == plain.layer && NothingResurfaces(u, actual.layer, l)
      && (actual.outcome == plain.outcome <==> !(Lookup(u, p) == Err(NotExist) && Lookup(View(u, l), p) == Err(NotDir)))
  {
    PlainLookup(u, l, p);
    ViewLookup(u, l, p);
    var v := View(u, l);
    LookupIs(u, p);
    LookupIs(v, p);
    if p != ROOT {
      assert p in v ==> BelowDir(v, p);
      LookupIs(l, p);
      if p !in u {
        NothingWithinMissing(u, p);
      }
      if p !in v {
        NothingWithinMissing(v, p);
      }
      if Lookup(u, p).Ok? || Lookup(u, p).error == NotExist {
        WithdrawnView(u, l, p);
        assert Layers.RemoveAll(u, l, p) == Withdrawn(u, l, p);
      }
    }
  }

  lemma NothingWithinMissing(t: Layer, p: Path)
    requires WellFormed(t) && p !in t
    ensures Files.Without(t, p) == t
  {
    forall q | q in t ensures !(p <= q) {
      if |p| < |q| {
        assert p < q ==> DirAt(t, p) by {
          if p < q {
            AboveIsDir(t, p, q);
          }
        }
      } else {
        assert p <= q ==> p == q;
      }
    }
  }

  /** An upper directory that looks empty holds nothing but markers. */
  lemma OnlyMarkersBelow(u: Layer, l: Layer, p: Path, q: Path)
    requires Layered(u, l) && !Reserved(p) && !HasChildren(View(u, l), p)
    requires q in u && p < q
    ensures Parent(q) == p && IsWhiteoutName(q[|q| - 1])
  {
    var child := q[..|p| + 1];
    assert child[..|p|] == q[..|p|] == p;
    if child != q {
      AboveEntry(u, q, |p| + 1);
    }
    PlainLookup(u, l, child);
    ReservedParent(child);
    assert Parent(child) == p && MarkerShape(u, child);
    assert child in View(u, l) ==> HasChildren(View(u, l), p);
  }

  lemma ClearedEntries(u: Layer, l: Layer, p: Path)
    requires Layered(u, l) && p != ROOT && !Reserved(p) && DirAt(u, p) && !HasChildren(View(u, l), p)
    ensures forall q :: q in ClearMarkers(u, p) <==> q in u && !(p < q)
    ensures forall q | q in ClearMarkers(u, p) :: ClearMarkers(u, p)[q] == u[q]
  {
    forall q ensures q in ClearMarkers(u, p) <==> q in u && !(p < q) {
      if q in u && p < q {
        OnlyMarkersBelow(u, l, p, q);
      } else if q != ROOT && Parent(q) == p {
        assert p == q[..|p|];
      }
    }
  }

  lemma ClearedIsWithout(u: Layer, l: Layer, p: Path)
    requires Layered(u, l) && p != ROOT && !Reserved(p) && DirAt(u, p) && !HasChildren(View(u, l), p)
    ensures var c := ClearMarkers(u, p);
      PlainTree.Remove(c, p) == Applied(Files.Without(u, p), Done)
  {
    var c := ClearMarkers(u, p);
    ClearedEntries(u, l, p);
    hide ClearMarkers, View;
    forall q ensures q in c - {p} <==> q in u && !Within(p, q) {
      assert p <= q <==> p < q || p == q;
    }
    assert c - {p} == Files.Without(u, p);
    forall q | q in c ensures BelowDir(c, q) {
      assert BelowDir(u, q);
      assert q != ROOT && p < Parent(q) ==> p < q;
    }
    LookupIs(c, p);
    forall q | q in c && q != ROOT ensures Parent(q) != p {
      assert Parent(q) == p ==> p < q;
    }
  }

  /** What a removed entry takes with it is itself. */
  lemma LeafAlone(t: Layer, p: Path)
    requires WellFormed(t) && p != ROOT && (DirAt(t, p) ==> !HasChildren(t, p))
    ensures p in t ==> Files.Without(t, p) == t - {p}
  {
    if p in t {
      forall q | q in t ensures Within(p, q) <==> q == p {
        if t[p].Dir? {
          ChildlessIsLeaf(t, p, q);
        } else if p < q {
          AboveIsDir(t, p, q);
        }
        assert p <= q && p != q ==> p < q;
      }
    }
  }

  lemma RemoveIsWithdraw(u: Layer, l: Layer, p: Path)
    requires Layered(u, l) && !Reserved(p) && p != ROOT && p in View(u, l)
    requires !(View(u, l)[p].Dir? && HasChildren(View(u, l), p))
    ensures Layers.Remove(u, l, p) == Withdrawn(u, l, p)
  {
    PlainLookup(u, l, p);
    ViewLookup(u, l, p);
    ListingIsView(u, l, p);
    WithoutOutside(u, l, p, p);
    hide ReadDir, MergedLookup, SetWhiteout, WhitedOut;
    if p in u {
      LookupIs(u, p);
      if u[p].Dir? {
        ClearedIsWithout(u, l, p);
      } else {
        LeafAlone(u, p);
      }
    } else {
      NothingWithinMissing(u, p);
    }
  }
}

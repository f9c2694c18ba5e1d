/** What a rename does to the lower layer at its target, also where the two layers judge that target
    differently. */
module OverlayLanding {
  import opened Results
  import opened Paths
  import opened PlainTree
  import opened Layers
  import opened LayerLaws
  import opened OverlaySimulation
  import opened OverlayRename
  import opened FileLaws
  import Files

  // ------------------------------------------------------- nothing resurfaces

  /** Below a target without obstacle nothing is marked. */
  lemma TargetMarkers(w: Layer, l: Layer, from: Path, to: Path, q: Path)
    requires Poised(w, l, from, to) && to <= q
    ensures WhitedOut(w, q) == WhitedOut(w, to)
    ensures DirAt(w, from) ==> !FileAt(w, q) && !FileAbove(w, q)
  {
    PoisedFacts(w, l, from, to);
    TargetUnmarked(w, to, q);
    if DirAt(w, from) {
      FileAboveParent(w, to);
      if FileAbove(w, q) {
        var f := FileAboveWitness(w, q);
        PrefixesCompare(f, to, q);
        assert f != to;
        FileHidesBelow(w, f, to);
      }
      assert |q| == |to| ==> q == to;
    }
  }

  lemma PrefixesCompare(p: Path, q: Path, r: Path)
    requires p <= r && q <= r
    ensures p == q || p < q || q < p
  {
    if |p| <= |q| {
      assert q[..|p|] == r[..|p|] == p;
    } else {
      assert p[..|q|] == r[..|q|] == q;
    }
  }

  lemma {:induction false} TargetUnmarked(w: Layer, to: Path, q: Path)
    requires to <= q && forall r | r in w :: !(to < r)
    ensures WhitedOut(w, q) == WhitedOut(w, to)
    decreases |q|
  {
    if to != q {
      PrefixOfParent(to, q);
      TargetUnmarked(w, to, Parent(q));
      MarkerReserved(q);
      assert to < Marker(q);
    }
  }

  /** What shows of the lower layer at or below the new name showed before. */
  lemma ExposedAtTarget(w: Layer, l: Layer, from: Path, to: Path, q: Path)
    requires Poised(w, l, from, to) && to <= q
    ensures Exposed(Renamed(w, l, from, to), l, q) ==> Exposed(w, l, q) && DirAt(w, from)
  {
    var x := Renamed(w, l, from, to);
    PoisedFacts(w, l, from, to);
    SourceAtTarget(w, l, from, to);
    if FileAt(w, from) {
      if to != q {
        FileHidesBelow(x, to, q);
      }
    } else {
      TargetMarkers(w, l, from, to, q);
      RenamedWhitedOut(w, l, from, to, q);
    }
  }

  lemma PoisedHides(w: Layer, l: Layer, from: Path, to: Path)
    requires Poised(w, l, from, to) && to != ROOT
    ensures NothingResurfaces(w, Renamed(w, l, from, to), l)
  {
    var x := Renamed(w, l, from, to);
    hide Poised, Renamed, Exposed;
    forall q | Exposed(x, l, q) ensures Exposed(w, l, q) {
      if to <= q {
        ExposedAtTarget(w, l, from, to, q);
      } else if from <= q {
        VisibleAtSource(w, l, from, to, q);
      } else {
        VisibleElsewhere(w, l, from, to, q);
      }
    }
  }

  // ---------------------------------------------- directories over lower files

  /** A directory that moves to q, with no marker that moves along above it, comes to stand over a lower file
      that shows. */
  ghost predicate LandsAt(u: Layer, l: Layer, from: Path, to: Path, q: Path) {
    && to <= q && FileAt(l, q) && Exposed(u, l, q) && DirAt(View(u, l), Origin(from, to, q))
    && forall r {:trigger Origin(from, to, r)} | to < r <= q :: !HasWhiteout(u, Origin(from, to, r))
  }

  ghost predicate Lands(u: Layer, l: Layer, from: Path, to: Path) {
    exists q {:trigger LandsAt(u, l, from, to, q)} :: LandsAt(u, l, from, to, q)
  }

  lemma MarkerMoves(from: Path, to: Path, q: Path)
    requires to != ROOT && to < q
    ensures var o, mark := Origin(from, to, q), Marker(q);
      to <= mark && o != ROOT && from <= Marker(o) && Origin(from, to, mark) == Marker(o)
  {
    var o, mark, rest := Origin(from, to, q), Marker(q), q[|to|..];
    assert q == to + rest && o == from + rest && Parent(q) == to + Parent(rest) && Parent(o) == from + Parent(rest);
    assert mark == to + (Parent(rest) + [mark[|q| - 1]]);
    assert Marker(o) == from + (Parent(rest) + [mark[|q| - 1]]);
  }

  lemma MarkerBelowTarget(from: Path, to: Path, q: Path)
    requires from != ROOT && to != ROOT && to < q && !(to <= from)
    ensures var o, mark := Origin(from, to, q), Marker(q);
      && o != ROOT && mark != Marker(from) && mark != Marker(to)
      && to <= mark && Origin(from, to, mark) == Marker(o) && Within(from, Marker(o))
  {
    MarkerMoves(from, to, q);
    hide Marker;
    if Marker(q) == Marker(from) {
      MarkerInjective(q, from);
    }
    if Marker(q) == Marker(to) {
      MarkerInjective(q, to);
    }
  }

  /** Below the new name the markers are those that moved along. */
  lemma MovedMarker(w: Layer, l: Layer, from: Path, to: Path, r: Path)
    requires Poised(w, l, from, to) && to < r && from != ROOT && to != ROOT
    ensures HasWhiteout(Renamed(w, l, from, to), r) <==> HasWhiteout(w, Origin(from, to, r))
  {
    PoisedFacts(w, l, from, to);
    MarkerBelowTarget(from, to, r);
    RenamedEntry(w, l, from, to, Marker(r));
    hide Renamed, Poised, Marker, View, Reserved, WhitedOut;
  }

  lemma {:induction false} MovedWhiteout(w: Layer, l: Layer, from: Path, to: Path, q: Path)
    requires Poised(w, l, from, to) && to <= q && to != ROOT && DirAt(w, from)
    ensures WhitedOut(Renamed(w, l, from, to), q) <==>
      WhitedOut(w, to) ||
      exists r {:trigger Origin(from, to, r)} :: to < r <= q && HasWhiteout(w, Origin(from, to, r))
    decreases |q|
  {
    var x := Renamed(w, l, from, to);
    if q == to {
      PoisedFacts(w, l, from, to);
      assert !(from <= to);
      AwayFromBoth(w, l, from, to, to);
    } else {
      PrefixOfParent(to, q);
      MovedWhiteout(w, l, from, to, Parent(q));
      MovedMarker(w, l, from, to, q);
      hide Poised, Renamed, HasWhiteout;
      forall r {:trigger Origin(from, to, r)} | to < r
        ensures r <= q <==> r <= Parent(q) || r == q
      {
        PrefixStep(q, r);
      }
    }
  }

  lemma CoveredAtTarget(w: Layer, l: Layer, from: Path, to: Path, q: Path)
    requires Poised(w, l, from, to) && to != ROOT && to <= q && q in Renamed(w, l, from, to)
    ensures Covered(Renamed(w, l, from, to), l, q) <==> !LandsAt(w, l, from, to, q)
  {
    var x, o := Renamed(w, l, from, to), Origin(from, to, q);
    PoisedFacts(w, l, from, to);
    if FileAt(l, q) {
      TargetKind(w, l, from, to, q);
      if DirAt(w, o) {
        DirAbove(w, from, o);
        TargetMarkers(w, l, from, to, q);
        MovedWhiteout(w, l, from, to, q);
      }
      hide Poised, Renamed, View, WhitedOut, FileAbove, HasWhiteout;
    }
  }

  /** Directories at the new name are the visible directories at the old one. */
  lemma TargetKind(w: Layer, l: Layer, from: Path, to: Path, q: Path)
    requires Poised(w, l, from, to) && to != ROOT && to <= q && q in Renamed(w, l, from, to)
    ensures var x, o := Renamed(w, l, from, to), Origin(from, to, q);
      DirAt(x, q) <==> DirAt(w, o)
    ensures DirAt(w, Origin(from, to, q)) <==> DirAt(View(w, l), Origin(from, to, q))
  {
    var o := Origin(from, to, q);
    assert from <= o;
    RenamedEntry(w, l, from, to, q);
    MarkerReserved(from);
    MarkerReserved(to);
    PlainLookup(w, l, o);
    VisibleIs(w, l, o);
    assert o in w ==> MarkerShape(w, o);
  }

  lemma DirAbove(w: Layer, from: Path, o: Path)
    requires WellFormed(w) && from <= o && DirAt(w, o)
    ensures DirAt(w, from)
  {
    if from != o {
      AboveIsDir(w, from, o);
    }
  }

  lemma CoveredElsewhere(w: Layer, l: Layer, from: Path, to: Path, q: Path)
    requires Poised(w, l, from, to) && to != ROOT && !(to <= q) && q in Renamed(w, l, from, to)
    ensures Covered(Renamed(w, l, from, to), l, q)
  {
    RenamedWhitedOut(w, l, from, to, q);
    if !(from <= q) {
      RenamedEntry(w, l, from, to, q);
      assert q in w ==> Covered(w, l, q);
    }
    hide Renamed, View;
  }

  /** Exactly when the layers stay sound. */
  lemma PoisedLayered(w: Layer, l: Layer, from: Path, to: Path)
    requires Poised(w, l, from, to) && to != ROOT
    ensures Layered(Renamed(w, l, from, to), l) <==> !Lands(w, l, from, to)
  {
    var x := Renamed(w, l, from, to);
    assert DirAt(x, ROOT) by { DirStays(w, l, from, to, ROOT); }
    forall q | q in x ensures BelowDir(x, q) { RenamedBelowDir(w, l, from, to, q); }
    forall q | q in x ensures MarkerShape(x, q) { RenamedMarkerShape(w, l, from, to, q); }
    hide Renamed, BelowDir, MarkerShape, LandsAt, Covered;
    forall q | q in x ensures Covered(x, l, q) <==> !LandsAt(w, l, from, to, q) {
      if to <= q {
        CoveredAtTarget(w, l, from, to, q);
      } else {
        CoveredElsewhere(w, l, from, to, q);
        LandsBelow(w, l, from, to, q);
      }
    }
    if q :| LandsAt(w, l, from, to, q) {
      LandsBelow(w, l, from, to, q);
      LandsInUpper(w, l, from, to, q);
      assert !Covered(x, l, q);
    }
  }

  lemma LandsBelow(u: Layer, l: Layer, from: Path, to: Path, q: Path)
    ensures LandsAt(u, l, from, to, q) ==> to <= q
  {
  }

  lemma LandsInUpper(w: Layer, l: Layer, from: Path, to: Path, q: Path)
    requires Poised(w, l, from, to) && to != ROOT && LandsAt(w, l, from, to, q)
    ensures q in Renamed(w, l, from, to)
  {
    var o := Origin(from, to, q);
    assert from <= o;
    PlainLookup(w, l, o);
    DirStays(w, l, from, to, q);
  }

  // ------------------------------------------------------- the rename as a whole

  /** A rename that goes through and brings a directory over a lower file that shows. */
  ghost predicate Uncovers(u: Layer, l: Layer, from: Path, to: Path) {
    var v := View(u, l);
    && Proceeds(v, from, to) && !(to < from) && !(to in u && HasChildren(u, to))
    && Lands(u, l, from, to)
  }

  lemma StagedMarker(u: Layer, l: Layer, from: Path, to: Path, r: Path)
    requires Layered(u, l) && !Reserved(from) && !Reserved(to) && from in View(u, l)
    ensures HasWhiteout(Stage(u, l, from, to).layer, r) <==> HasWhiteout(u, r)
  {
    StageView(u, l, from, to);
    if r != ROOT {
      MarkerReserved(r);
      VisibleIs(u, l, Marker(r));
    }
    hide Stage, View, Layered, Reserved, Invisible;
  }

  /** Files copied up are at the source or below. */
  lemma StagedFile(u: Layer, l: Layer, from: Path, to: Path, r: Path)
    requires Layered(u, l) && !Reserved(from) && !Reserved(to) && from in View(u, l) && !(from <= r) && !Reserved(r)
    ensures FileAt(Stage(u, l, from, to).layer, r) ==> FileAt(u, r)
  {
    var w, v := Stage(u, l, from, to).layer, View(u, l);
    StageView(u, l, from, to);
    ViewWellFormed(u, l);
    PlainLookup(w, l, r);
    PlainLookup(u, l, r);
    hide Stage, View, Layered, Reserved;
    if r in v && r <= from {
      assert from <= from && r != from;
      AboveIsDir(v, r, from);
    }
  }

  /** Away from the source, copying up leaves what is exposed. */
  lemma StagedExposed(u: Layer, l: Layer, from: Path, to: Path, q: Path)
    requires Layered(u, l) && !Reserved(from) && !Reserved(to) && from in View(u, l) && !(from <= q)
    ensures Exposed(Stage(u, l, from, to).layer, l, q) <==> Exposed(u, l, q)
  {
    var w := Stage(u, l, from, to).layer;
    StageView(u, l, from, to);
    if Exposed(u, l, q) {
      forall r | r <= q ensures !(from <= r) && !Reserved(r) {
        ReservedPrefix(r, q);
        assert from <= r ==> from <= q;
      }
      hide Stage, View, Layered, Reserved, Invisible;
      forall r | r != ROOT && r <= q ensures HasWhiteout(w, r) == HasWhiteout(u, r) { StagedMarker(u, l, from, to, r); }
      WhitedOutSame(u, w, q);
      StagedFile(u, l, from, to, q);
      if FileAbove(w, q) {
        var f := FileAboveWitness(w, q);
        StagedFile(u, l, from, to, f);
        FileHidesBelow(u, f, q);
      }
    }
  }

  lemma StagedLands(u: Layer, l: Layer, from: Path, to: Path)
    requires Layered(u, l) && !Reserved(from) && !Reserved(to) && from in View(u, l)
    requires !(from <= to) && !(to <= from)
    ensures Lands(Stage(u, l, from, to).layer, l, from, to) <==> Lands(u, l, from, to)
  {
    var w := Stage(u, l, from, to).layer;
    StageView(u, l, from, to);
    hide Stage, View, Layered, Reserved, Exposed, HasWhiteout;
    forall q ensures LandsAt(w, l, from, to, q) <==> LandsAt(u, l, from, to, q) {
      if to <= q {
        if from <= q {
          PrefixesCompare(from, to, q);
        }
        StagedExposed(u, l, from, to, q);
        forall r {:trigger Origin(from, to, r)} | to < r <= q
          ensures HasWhiteout(w, Origin(from, to, r)) <==> HasWhiteout(u, Origin(from, to, r))
        {
          StagedMarker(u, l, from, to, Origin(from, to, r));
        }
      }
    }
  }

  /** A rename that is refused has only copied up. */
  lemma RenameStops(u: Layer, l: Layer, from: Path, to: Path)
    requires Layered(u, l) && !Reserved(from) && !Reserved(to) && from != ROOT
    requires Proceeds(View(u, l), from, to) ==> PlainTree.Obstacle(Stage(u, l, from, to).layer, from, to).Some?
    ensures var r := Layers.Rename(u, l, from, to).layer;
      Layered(r, l) && NothingResurfaces(u, r, l)
  {
    var v := View(u, l);
    ViewLookup(u, l, from);
    PlainLookup(u, l, from);
    if from in v {
      var m := Stage(u, l, from, to);
      StageView(u, l, from, to);
      PlainLookup(u, l, Parent(to));
      PlainRenameIs(m.layer, from, to);
      LookupIs(m.layer, Parent(to));
      assert from <= from && from in m.layer;
    }
    hide View, Layered, Materialize, Files.Relocated, SetWhiteout, MergedLookup, Reserved, Marker, Exposed, WhitedOut;
  }

  /** A rename the upper layer lets through, whatever the view holds at its target. */
  lemma RenameGoes(u: Layer, l: Layer, from: Path, to: Path)
    requires Layered(u, l) && !Reserved(from) && !Reserved(to) && from != ROOT && Proceeds(View(u, l), from, to)
    requires PlainTree.Obstacle(Stage(u, l, from, to).layer, from, to) == None
    ensures var w := Stage(u, l, from, to).layer;
      Poised(w, l, from, to) && to != ROOT && Layers.Rename(u, l, from, to) == Applied(Renamed(w, l, from, to), Done)
  {
    var w := Stage(u, l, from, to).layer;
    StageView(u, l, from, to);
    ViewLookup(u, l, from);
    PlainLookup(u, l, from);
    PlainLookup(u, l, Parent(to));
    assert forall q | q in View(u, l) && from <= q :: q in w;
    assert Poised(w, l, from, to);
    PoisedFacts(w, l, from, to);
    RenameSteps(w, l, from, to);
    hide View, Layered, Materialize, Files.Relocated, SetWhiteout, MergedLookup, Poised, Reserved, Marker;
  }

  /** The upper layer lets a directory through when it has nothing, or an empty directory, at the target. */
  lemma LandingGoes(u: Layer, l: Layer, from: Path, to: Path)
    requires Layered(u, l) && !Reserved(from) && !Reserved(to) && from != ROOT && Proceeds(View(u, l), from, to)
    ensures var w := Stage(u, l, from, to).layer;
      Uncovers(u, l, from, to) <==> PlainTree.Obstacle(w, from, to) == None && Lands(u, l, from, to)
  {
    var w, v := Stage(u, l, from, to).layer, View(u, l);
    StagedNames(u, l, from, to);
    StagedChildren(u, l, from, to);
    PlainLookup(u, l, to);
    if q :| LandsAt(u, l, from, to, q) {
      LandsFromDir(u, l, from, to, q);
    }
    hide View, Layered, Stage, Reserved, HasChildren, LandsAt;
    assert ROOT < from;
  }

  lemma LandsFromDir(u: Layer, l: Layer, from: Path, to: Path, q: Path)
    requires Layered(u, l) && LandsAt(u, l, from, to, q)
    ensures DirAt(View(u, l), from) && !FileAt(u, to)
  {
    var v, o := View(u, l), Origin(from, to, q);
    assert from <= o;
    ViewWellFormed(u, l);
    DirAbove(v, from, o);
    if FileAt(u, to) && to != q {
      FileHidesBelow(u, to, q);
    }
  }

  /** No rename brings anything hidden to light, and it leaves sound layers exactly when it does not bring a
      directory over a lower file that shows. */
  lemma RenameHides(u: Layer, l: Layer, from: Path, to: Path)
    requires Layered(u, l) && !Reserved(from) && !Reserved(to) && from != ROOT
    ensures var r := Layers.Rename(u, l, from, to).layer;
      NothingResurfaces(u, r, l) && (Layered(r, l) <==> !Uncovers(u, l, from, to))
  {
    var v, w := View(u, l), Stage(u, l, from, to).layer;
    hide View, Layered, Stage, Reserved, HasChildren, Lands, Layers.Rename, Exposed;
    if Proceeds(v, from, to) {
      LandingGoes(u, l, from, to);
      if PlainTree.Obstacle(w, from, to) == None {
        RenameGoes(u, l, from, to);
        StageView(u, l, from, to);
        PoisedFacts(w, l, from, to);
        PoisedHides(w, l, from, to);
        PoisedLayered(w, l, from, to);
        StagedLands(u, l, from, to);
      } else {
        RenameStops(u, l, from, to);
      }
    } else {
      RenameStops(u, l, from, to);
    }
  }
}

/** Concrete runs of an overlay, each from an empty upper layer, on which it does not do what a plain tree
    does. */
module OverlayExamples {
  import opened Results
  import opened Paths
  import opened PlainTree
  import opened Layers
  import opened LayerLaws
  import opened OverlaySimulation
  import opened OverlayRemoval
  import opened OverlayRename
  import opened OverlayLanding
  import opened OverlayRuns
  import FileLaws
  import Files

  const D: Path := ["d"]
  const G: Path := ["d", ".g"]
  const X: Path := ["d", ".g", "x"]
  const F: Path := ["d", "f"]
  const MARK_G: Path := ["d", ".wh..g"]
  const MARK_F: Path := ["d", ".wh.f"]

  // -------------------------------------------------------------------- names

  lemma OneName(a: string)
    requires !IsWhiteoutName(a)
    ensures !Reserved(ROOT) && !Reserved([a]) && Parent([a]) == ROOT && Marker([a]) == [WHITEOUT_PREFIX + a]
    ensures Reserved(Marker([a]))
  {
    assert !Reserved(ROOT);
    ReservedParent([a]);
    MarkerReserved([a]);
  }

  lemma TwoNames(a: string, b: string)
    requires !IsWhiteoutName(a) && !IsWhiteoutName(b)
    ensures !Reserved([a, b]) && Parent([a, b]) == [a] && Marker([a, b]) == [a, WHITEOUT_PREFIX + b]
    ensures Reserved(Marker([a, b]))
  {
    OneName(a);
    ReservedParent([a, b]);
    MarkerReserved([a, b]);
  }

  lemma ThreeNames(a: string, b: string, c: string)
    requires !IsWhiteoutName(a) && !IsWhiteoutName(b) && !IsWhiteoutName(c)
    ensures !Reserved([a, b, c]) && Parent([a, b, c]) == [a, b]
    ensures |Marker([a, b, c])| == 3 && Reserved(Marker([a, b, c]))
  {
    TwoNames(a, b);
    ReservedParent([a, b, c]);
    MarkerReserved([a, b, c]);
  }

  lemma PlainNames()
    ensures !IsWhiteoutName("d") && !IsWhiteoutName("f") && !IsWhiteoutName("x") && !IsWhiteoutName(".g")
  {
    assert |"d"| == |"f"| == |"x"| == 1 && |".g"| == 2;
  }

  lemma MarkerAfter()
    ensures !MarkerFirst(".g")
  {
    var c := WHITEOUT_PREFIX + ".g";
    assert c == ".wh..g" && c[0] == '.' && ".g"[0] == '.' && c[1..][0] == 'w' && ".g"[1..][0] == 'g';
    assert !Less(c[1..], ".g"[1..]);
  }

  lemma ExampleNames()
    ensures Parent(D) == ROOT && Parent(G) == D && Parent(X) == G && Parent(F) == D
      && Parent(MARK_G) == Parent(MARK_F) == D
    ensures Marker(G) == MARK_G && Marker(F) == MARK_F && |Marker(D)| == 1 && |Marker(X)| == 3
    ensures !Reserved(ROOT) && !Reserved(D) && !Reserved(G) && !Reserved(X) && !Reserved(F)
    ensures Reserved(MARK_G) && Reserved(MARK_F) && Reserved(Marker(D)) && Reserved(Marker(X))
    ensures MARK_G != MARK_F && F != G
  {
    PlainNames();
    OneName("d");
    TwoNames("d", ".g");
    TwoNames("d", "f");
    ThreeNames("d", ".g", "x");
    assert WHITEOUT_PREFIX + ".g" == ".wh..g" && WHITEOUT_PREFIX + "f" == ".wh.f";
    assert |MARK_G[1]| == 6 && |MARK_F[1]| == 5 && |G[1]| == 2 && |F[1]| == 1;
    MarkerReserved(G);
    MarkerReserved(F);
    hide Reserved, Marker, Parent;
  }

  // ------------------------------------------------------- deleted files come back

  /** A lower layer with the files d/.g/x and d/f, and a run over it: ".g" sorts before its marker. */
  const BASE: Layer := map[ROOT := Dir, D := Dir, G := Dir, X := File([]), F := File([])]
  const OPS: seq<Op> := [RemoveAll(G), Mkdir(G), Remove(F), Remove(D)]

  /** The upper layers of the run. */
  const HIDDEN: Layer := map[ROOT := Dir, D := Dir, MARK_G := File([])]
  const REMADE: Layer := map[ROOT := Dir, D := Dir, MARK_G := File([]), G := Dir]
  const LOST: Layer := map[ROOT := Dir, D := Dir, MARK_G := File([]), G := Dir, MARK_F := File([])]

  lemma ExampleLayers()
    ensures WellFormed(BASE) && forall p | p in BASE :: !Reserved(p)
    ensures WellFormed(EMPTY) && WellFormed(HIDDEN) && WellFormed(REMADE) && WellFormed(LOST)
  {
    ExampleNames();
    hide Reserved, Parent;
  }

  lemma HideDirectory()
    ensures Layers.RemoveAll(EMPTY, BASE, G) == Applied(HIDDEN, Done)
  {
    ExampleNames();
    hide Reserved, Parent, Marker;
    assert Materialize(EMPTY, BASE, D, false) == Applied(EMPTY[D := Dir], Done);
    assert Files.Without(EMPTY, G) == EMPTY;
  }

  lemma RemakeDirectory()
    ensures Layers.Mkdir(HIDDEN, BASE, G) == Applied(REMADE, Done)
  {
    ExampleNames();
    hide Reserved, Parent, Marker;
    assert Materialize(HIDDEN, BASE, D, false) == Applied(HIDDEN, Done);
    assert HIDDEN[G := Dir] == REMADE;
  }

  lemma HideFile()
    ensures Layers.Remove(REMADE, BASE, F) == Applied(LOST, Done)
  {
    ExampleNames();
    hide Reserved, Parent, Marker;
    assert Materialize(REMADE, BASE, D, false) == Applied(REMADE, Done);
    assert REMADE[MARK_F := File([])] == LOST;
  }

  lemma RunOfFour(u: Layer, l: Layer, ops: seq<Op>, a: Applied, b: Applied, c: Applied, d: Applied)
    requires |ops| == 4 && Step(u, l, ops[0]) == a && Step(a.layer, l, ops[1]) == b
    requires Step(b.layer, l, ops[2]) == c && Step(c.layer, l, ops[3]) == d
    ensures After(u, l, ops, 3) == c.layer && After(u, l, ops, 4) == d.layer
    ensures Outcomes(u, l, ops) == [a.outcome, b.outcome, c.outcome, d.outcome]
  {
    hide Step;
    assert ops[..0] == [] && After(u, l, ops, 0) == u;
    assert ops[1..][1..] == ops[2..] && ops[2..][1..] == ops[3..];
    assert Outcomes(c.layer, l, ops[3..]) == [d.outcome];
    assert Outcomes(b.layer, l, ops[2..]) == [c.outcome, d.outcome];
    assert Outcomes(a.layer, l, ops[1..]) == [b.outcome, c.outcome, d.outcome];
    hide After, SoundRun;
    RunSplits(u, l, ops, 0);
    RunSplits(u, l, ops, 1);
    RunSplits(u, l, ops, 2);
    RunSplits(u, l, ops, 3);
  }

  lemma ExampleLost()
    ensures Layered(LOST, BASE) && LooksEmpty(LOST, View(LOST, BASE), D)
  {
    ExampleNames();
    ExampleLayers();
    MarkerAfter();
    hide Reserved, Parent, Marker, MarkerFirst;
    var v := View(LOST, BASE);
    VisibleIs(LOST, BASE, D);
    VisibleIs(LOST, BASE, G);
    hide View;
    assert G in v;
    forall c | D + [c] in v ensures Lost(LOST, D + [c]) {
      VisibleIs(LOST, BASE, D + [c]);
      assert |D + [c]| == 2 && D + [c] in {G, F};
    }
  }

  lemma ExampleHidden()
    ensures HiddenOnlyBy(LOST, BASE, G, X) && HiddenOnlyBy(LOST, BASE, F, F)
  {
    ExampleNames();
    hide Reserved, Parent, Marker;
    forall s | s != ROOT && s != G && s <= X ensures !HasWhiteout(LOST, s) {
      assert s == X[..|s|];
      assert s == D || s == X;
    }
    forall s | s != ROOT && s != F && s <= F ensures !HasWhiteout(LOST, s) {
      assert s == F[..|s|];
      assert s == D;
    }
  }

  /** A run on which deleted files come back: d/.g, removed and made again, sorts before its marker, so d
      looks empty once d/f is removed too, and removing d fails and undoes both removals. */
  lemma MarkerOrderExample()
    ensures !Exposed(After(EMPTY, BASE, OPS, 3), BASE, X) && Exposed(After(EMPTY, BASE, OPS, 4), BASE, X)
    ensures !Exposed(After(EMPTY, BASE, OPS, 3), BASE, F) && Exposed(After(EMPTY, BASE, OPS, 4), BASE, F)
    ensures Outcomes(EMPTY, BASE, OPS) == [Done, Done, Done, Failed(NotEmpty)]
  {
    ExampleNames();
    HideDirectory();
    RemakeDirectory();
    HideFile();
    ExampleLost();
    ExampleHidden();
    hide Layers.Remove, Layers.RemoveAll, Layers.Mkdir, Exposed, After, Outcomes, HiddenOnlyBy, LooksEmpty, Layered,
      View, Reserved, Marker;
    LostEntriesResurface(LOST, BASE, D, G, X);
    LostEntriesResurface(LOST, BASE, D, F, F);
    RunOfFour(EMPTY, BASE, OPS, Applied(HIDDEN, Done), Applied(REMADE, Done), Applied(LOST, Done),
      Layers.Remove(LOST, BASE, D));
  }

  // --------------------------------------- lower entries the upper layer overlooks

  /** Writing to a directory of the lower layer only succeeds, where a plain tree objects, and what the
      directory held is gone. */
  lemma WriteFileExample(data: Bytes)
    ensures Layers.WriteFile(EMPTY, BASE, D, data).outcome == Done
    ensures PlainTree.WriteFile(BASE, D, data).outcome == Failed(IsDir)
    ensures F in BASE && F !in View(Layers.WriteFile(EMPTY, BASE, D, data).layer, BASE)
  {
    ExampleNames();
    ExampleLayers();
    FreshOverlay(BASE);
    WriteFileSimulates(EMPTY, BASE, D, data);
    hide Layers.WriteFile, PlainTree.WriteFile, View, Layered, Reserved;
    assert D < F;
  }

  /** Removing below a file of the lower layer only reports success, where a plain tree objects. */
  lemma RemoveAllExample()
    ensures Layers.RemoveAll(EMPTY, BASE, F + ["x"]).outcome == Done
    ensures PlainTree.RemoveAll(BASE, F + ["x"]).outcome == Failed(NotDir)
  {
    var p := F + ["x"];
    ExampleNames();
    ExampleLayers();
    PlainNames();
    ThreeNames("d", "f", "x");
    assert p == ["d", "f", "x"] && Parent(p) == F && p !in EMPTY && p !in BASE by {
      assert p[1] == "f" && X[1] == ".g" && |"f"| == 1 && |".g"| == 2;
    }
    LookupIs(EMPTY, p);
    LookupIs(BASE, p);
    assert !FileAbove(EMPTY, p) by { NothingHidden(BASE, p); }
    hide Reserved;
  }

  /** Renaming a file onto a directory of the lower layer only succeeds, where a plain tree objects. */
  lemma RenameExample()
    ensures Layers.Rename(EMPTY, BASE, F, G).outcome == Done
    ensures PlainTree.Rename(BASE, F, G).outcome == Failed(IsDir)
  {
    ExampleNames();
    ExampleLayers();
    FreshOverlay(BASE);
    LookupIs(BASE, F);
    LookupIs(BASE, D);
    assert |G| == |F| == 2;
    hide Layers.Rename, View, Layered, Reserved, Marker, Lookup;
    TargetJudged(EMPTY, BASE, F, G);
  }

  const E: Path := ["e"]

  /** A lower layer with the directories d and e and the file d/f, and the upper layer once d/f is removed. */
  const PAIR: Layer := map[ROOT := Dir, D := Dir, E := Dir, F := File([])]
  const EMPTIED: Layer := map[ROOT := Dir, D := Dir, MARK_F := File([])]

  lemma PairLayers()
    ensures WellFormed(PAIR) && (forall p | p in PAIR :: !Reserved(p)) && WellFormed(EMPTIED)
    ensures Layered(EMPTIED, PAIR) && Parent(E) == ROOT && E != D && !Reserved(E)
  {
    ExampleNames();
    assert E[0] == "e" && D[0] == "d" && "e"[0] == 'e' && "d"[0] == 'd' && |"e"| == 1;
    OneName("e");
    hide Reserved;
  }

  lemma EmptyPair()
    ensures Layers.Remove(EMPTY, PAIR, F) == Applied(EMPTIED, Done)
    ensures PlainTree.Remove(PAIR, F) == Applied(PAIR - {F}, Done)
  {
    ExampleNames();
    PairLayers();
    hide Reserved, Parent, Marker;
    assert Materialize(EMPTY, PAIR, D, false) == Applied(EMPTY[D := Dir], Done);
    assert EMPTY[D := Dir][MARK_F := File([])] == EMPTIED;
  }

  lemma EmptiedView()
    ensures var v := PAIR - {F};
      View(EMPTIED, PAIR) == v && WellFormed(v) && !HasChildren(v, D) && HasChildren(EMPTIED, D)
  {
    ExampleNames();
    PairLayers();
    EmptyPair();
    FreshOverlay(PAIR);
    var v := PAIR - {F};
    assert !HasChildren(v, D) by {
      assert forall q | q in v :: |q| <= 1 && (q != ROOT ==> Parent(q) == ROOT);
    }
    RemoveSimulates(EMPTY, PAIR, F) by { assert !DirAt(View(EMPTY, PAIR), F); }
    assert WellFormed(v) && HasChildren(EMPTIED, D);
    hide View, Layered, Reserved, Marker, Layers.Remove, PlainTree.Remove, Exposed;
  }

  /** Renaming a directory onto one that was emptied before fails, where on a plain tree it succeeds. */
  lemma LeftOverMarkerExample()
    ensures Layers.Rename(Layers.Remove(EMPTY, PAIR, F).layer, PAIR, E, D).outcome == Failed(NotEmpty)
    ensures PlainTree.Rename(PlainTree.Remove(PAIR, F).layer, E, D).outcome == Done
  {
    ExampleNames();
    PairLayers();
    EmptyPair();
    EmptiedView();
    var v := PAIR - {F};
    LookupIs(v, E);
    hide Layers.Rename, Layers.Remove, PlainTree.Remove, View, Layered, Reserved, Marker, Parent, HasChildren;
    TargetJudged(EMPTIED, PAIR, E, D);
  }

  /** A lower layer with the directory d and the file e. */
  const MIXED: Layer := map[ROOT := Dir, D := Dir, E := File([])]

  /** Renaming the directory onto the file succeeds, where a plain tree objects, and leaves a directory over
      a lower file that shows. */
  lemma LandingExample()
    ensures Layers.Rename(EMPTY, MIXED, D, E).outcome == Done
    ensures !Layered(Layers.Rename(EMPTY, MIXED, D, E).layer, MIXED)
    ensures PlainTree.Rename(MIXED, D, E).outcome == Failed(NotDir)
  {
    ExampleNames();
    PairLayers();
    assert WellFormed(MIXED) && forall p | p in MIXED :: !Reserved(p);
    FreshOverlay(MIXED);
    LookupIs(MIXED, D);
    assert |D| == |E| == 1;
    hide Layers.Rename, View, Layered, Reserved, Marker, Lookup, Exposed;
    assert !HasWhiteout(EMPTY, ROOT);
    assert FileLaws.Origin(D, E, E) == D;
    assert LandsAt(EMPTY, MIXED, D, E, E);
    TargetJudged(EMPTY, MIXED, D, E);
    RenameHides(EMPTY, MIXED, D, E);
  }
}

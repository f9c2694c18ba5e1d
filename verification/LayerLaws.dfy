/** How the merged view answers to changes of the upper layer. */
module LayerLaws {
  import opened Results
  import opened Paths
  import opened PlainTree
  import opened Layers
  import Files

  // ------------------------------------------------------------ reserved names

  lemma ReservedParent(p: Path)
    requires p != ROOT
    ensures Reserved(p) <==> Reserved(Parent(p)) || IsWhiteoutName(p[|p| - 1])
  {
    assert p == Parent(p) + [p[|p| - 1]];
    assert forall c :: c in p <==> c in Parent(p) || c == p[|p| - 1];
  }

  lemma ReservedPrefix(p: Path, q: Path)
    requires p <= q && !Reserved(q)
    ensures !Reserved(p)
  {
    assert forall c | c in p :: c in q;
  }

  lemma ReservedConcat(p: Path, q: Path)
    ensures Reserved(p + q) <==> Reserved(p) || Reserved(q)
  {
    assert forall c :: c in p + q <==> c in p || c in q;
  }

  lemma MarkerReserved(p: Path)
    requires p != ROOT
    ensures Reserved(Marker(p)) && Marker(p) != ROOT && Parent(Marker(p)) == Parent(p)
  {
    assert Marker(p)[|p| - 1] in Marker(p);
    assert Marker(p)[..|p| - 1] == Parent(p);
  }

  lemma MarkerInjective(p: Path, q: Path)
    requires p != ROOT && q != ROOT && Marker(p) == Marker(q)
    ensures p == q
  {
    var a, b := p[|p| - 1], q[|q| - 1];
    MarkerReserved(p);
    MarkerReserved(q);
    assert |p| == |q|;
    assert Marker(p)[|p| - 1] == WHITEOUT_PREFIX + a && Marker(q)[|q| - 1] == WHITEOUT_PREFIX + b;
    assert a == (WHITEOUT_PREFIX + a)[4..] && b == (WHITEOUT_PREFIX + b)[4..];
    assert p == Parent(p) + [a] && q == Parent(q) + [b];
  }

  predicate LooksLikeMarker(c: string) {
    |c| >= 4 && c[0] == '.' && c[1] == 'w' && c[2] == 'h' && c[3] == '.'
  }

  /** The names kept for markers, by their characters. */
  lemma ReservedIs(p: Path)
    ensures Reserved(p) <==> exists i :: 0 <= i < |p| && LooksLikeMarker(p[i])
  {
    forall c ensures IsWhiteoutName(c) <==> LooksLikeMarker(c) {
      assert |c| >= 4 ==> c[..4] == [c[0], c[1], c[2], c[3]];
    }
    if i :| 0 <= i < |p| && LooksLikeMarker(p[i]) {
      assert p[i] in p;
    }
  }

  /** A marker beside the first k components of p. */
  predicate MarkedAt(u: Layer, p: Path, k: nat)
    requires 0 < k <= |p|
  {
    p[..k - 1] + [".wh." + p[k - 1]] in u
  }

  /** A name is hidden exactly by a marker beside it or beside a name above it. */
  lemma {:induction false} WhitedOutIs(u: Layer, p: Path)
    ensures WhitedOut(u, p) <==> exists k: nat :: 0 < k <= |p| && MarkedAt(u, p, k)
    decreases |p|
  {
    if p != ROOT {
      var up := Parent(p);
      WhitedOutIs(u, up);
      forall k: nat | 0 < k < |p| ensures MarkedAt(u, p, k) <==> MarkedAt(u, up, k) {
        assert up[..k - 1] == p[..k - 1];
      }
      assert MarkedAt(u, p, |p|) <==> HasWhiteout(u, p);
      hide MarkedAt;
      if WhitedOut(u, up) {
        var k: nat :| 0 < k <= |up| && MarkedAt(u, up, k);
        assert MarkedAt(u, p, k);
      }
    }
  }

  // --------------------------------------------------------- the merged lookup

  lemma FileAboveParent(u: Layer, p: Path)
    requires WellFormed(u) && p != ROOT && DirAt(u, Parent(p))
    ensures !FileAbove(u, p)
  {
    LookupIs(u, Parent(p));
  }

  /** Below a name missing from the upper layer there are no markers. */
  lemma NoMarkerBelowMissing(u: Layer, p: Path)
    requires WellFormed(u) && p != ROOT && !DirAt(u, Parent(p))
    ensures !HasWhiteout(u, p)
  {
    MarkerReserved(p);
    assert Marker(p) in u ==> BelowDir(u, Marker(p));
  }

  /** Over an upper directory that is not whited out the lower layer has a directory or nothing. */
  lemma {:induction false} LowerUnderDir(u: Layer, l: Layer, p: Path)
    requires Layered(u, l) && DirAt(u, p) && !WhitedOut(u, p)
    ensures !FileAt(l, p) && !FileAbove(l, p)
    decreases |p|
  {
    assert Covered(u, l, p);
    if p != ROOT {
      assert BelowDir(u, p);
      LowerUnderDir(u, l, Parent(p));
    }
  }

  lemma VisibleIs(u: Layer, l: Layer, p: Path)
    ensures p in View(u, l) <==> Visible(u, l, p)
    ensures p in View(u, l) ==> View(u, l)[p] == if p in u then u[p] else l[p]
  {
  }

  /** Every visible entry but the root lies in a visible directory. */
  lemma ViewBelowDir(u: Layer, l: Layer, p: Path)
    requires Layered(u, l) && Visible(u, l, p)
    ensures BelowDir(View(u, l), p)
  {
    if p != ROOT {
      var q := Parent(p);
      ReservedParent(p);
      if p in u {
        assert BelowDir(u, p);
      } else {
        assert BelowDir(l, p);
        if DirAt(u, q) {
        } else {
          assert !FileAt(u, q) && q !in u;
        }
      }
    }
  }

  lemma ViewWellFormed(u: Layer, l: Layer)
    requires Layered(u, l)
    ensures WellFormed(View(u, l))
  {
    assert !Reserved(ROOT);
    forall p | p in View(u, l) ensures BelowDir(View(u, l), p) { ViewBelowDir(u, l, p); }
  }

  /** The view is what lookups through the overlay report, errors included. */
  lemma ViewLookup(u: Layer, l: Layer, p: Path)
    requires Layered(u, l) && !Reserved(p)
    ensures Lookup(View(u, l), p) == MergedLookup(u, l, p)
  {
    var v := View(u, l);
    ViewWellFormed(u, l);
    LookupIs(v, p);
    LookupIs(u, p);
    LookupIs(l, p);
    if p !in u && p !in v {
      FileAboveView(u, l, p);
    }
  }

  /** A visible file lies above p when an upper one does, or a lower one that still shows. */
  lemma {:induction false} FileAboveView(u: Layer, l: Layer, p: Path)
    requires Layered(u, l) && !Reserved(p)
    ensures FileAbove(View(u, l), p) <==>
      FileAbove(u, p) || (p !in u && !WhitedOut(u, p) && FileAbove(l, p))
    decreases |p|
  {
    if p != ROOT {
      var q := Parent(p);
      ReservedParent(p);
      FileAboveView(u, l, q);
      LookupIs(u, q);
      LookupIs(u, p);
      LookupIs(l, q);
      if DirAt(u, q) {
        if !WhitedOut(u, q) {
          LowerUnderDir(u, l, q);
        }
      } else {
        NoMarkerBelowMissing(u, p);
        assert p in u ==> BelowDir(u, p);
      }
    }
  }

  // ------------------------------------------------------- order of listings

  /** The first position at which two strings differ, and how. */
  ghost predicate SmallerAt(a: string, b: string, k: nat) {
    k < |a| && k < |b| && a[..k] == b[..k] && a[k] < b[k]
  }

  /** Strings are in the order of their bytes: a proper prefix comes first, and otherwise the smaller byte at
      the first difference decides. */
  lemma {:induction false} LessIs(a: string, b: string)
    ensures Less(a, b) <==> a < b || exists k: nat :: SmallerAt(a, b, k)
    decreases |a|
  {
    if a != "" && b != "" && a[0] == b[0] {
      var c, d := a[1..], b[1..];
      LessIs(c, d);
      assert a == [a[0]] + c && b == [a[0]] + d;
      assert a < b <==> c < d;
      if k: nat :| SmallerAt(c, d, k) {
        assert a[..k + 1] == [a[0]] + c[..k] && b[..k + 1] == [a[0]] + d[..k];
        assert SmallerAt(a, b, k + 1);
      }
      if k: nat :| SmallerAt(a, b, k) {
        assert c[..k - 1] == a[..k][1..] && d[..k - 1] == b[..k][1..];
        assert SmallerAt(c, d, k - 1);
      }
    } else if a != "" && b != "" {
      assert a[0] < b[0] ==> SmallerAt(a, b, 0);
      forall k: nat ensures SmallerAt(a, b, k) ==> k == 0 {
        assert 0 < k < |a| && k < |b| ==> a[..k][0] == a[0] && b[..k][0] == b[0];
      }
    }
  }

  /** Whether a marker comes first, by the first character of the name it marks. */
  lemma MarkerFirstIs(c: string)
    ensures c == "" || c[0] < '.' ==> !MarkerFirst(c)
    ensures c != "" && '.' < c[0] ==> MarkerFirst(c)
  {
    var mark := WHITEOUT_PREFIX + c;
    LessIs(mark, c);
    assert mark[0] == '.';
    if c != "" && '.' < c[0] {
      assert SmallerAt(mark, c, 0);
    }
  }

  // ---------------------------------------------------------------- listings

  lemma NamesOf(t: Layer, p: Path)
    requires WellFormed(t) && DirAt(t, p)
    ensures ListDir(t, p).Ok? && forall c :: c in ListDir(t, p).value <==> p + [c] in t
  {
    LookupIs(t, p);
    forall c ensures c in ListDir(t, p).value <==> p + [c] in t {
      assert Parent(p + [c]) == p && (p + [c])[|p + [c]| - 1] == c;
      forall q | q in t && q != ROOT && Parent(q) == p && q[|q| - 1] == c ensures q == p + [c] {}
    }
  }

  /** A name the overlay has but its listing leaves out: a directory remade under a name that sorts before
      its marker. */
  predicate Lost(u: Layer, p: Path) {
    p != ROOT && p in u && HasWhiteout(u, p) && !MarkerFirst(p[|p| - 1])
  }

  lemma ListedIs(u: Layer, l: Layer, p: Path, lower: set<string>, upper: set<string>, c: string)
    requires Layered(u, l) && !Reserved(p) && DirAt(View(u, l), p)
    requires forall d :: d in upper <==> p + [d] in u
    requires forall d :: d in lower <==> p + [d] in l && !WhitedOut(u, p)
    ensures Listed(u, p, lower, upper, c) <==> p + [c] in View(u, l) && !Lost(u, p + [c])
  {
    var q := p + [c];
    assert Parent(q) == p && Marker(q) == p + [WHITEOUT_PREFIX + c];
    ReservedParent(q);
    VisibleIs(u, l, p);
    if p in u {
      FileAboveParent(u, q);
    } else {
      NoMarkerBelowMissing(u, q);
      assert !FileAbove(u, p);
      assert q in u ==> BelowDir(u, q);
    }
    hide View, Layered, Reserved, Marker, FileAbove, MarkerFirst;
    VisibleIs(u, l, q);
  }

  /** Exactly what a listing shows: the children of the merged view, minus the lost ones. */
  lemma ListingExactly(u: Layer, l: Layer, p: Path)
    requires Layered(u, l) && !Reserved(p)
    ensures var r, v := ReadDir(u, l, p), View(u, l);
      if DirAt(v, p) then
        && r.Ok? && (forall c :: c in r.value <==> p + [c] in v && !Lost(u, p + [c]))
        && (forall c | c in r.value :: r.value[c] == v[p + [c]])
      else r == Err(if Lookup(v, p).Ok? then NotDir else Lookup(v, p).error)
  {
    ViewLookup(u, l, p);
    ViewWellFormed(u, l);
    LookupIs(View(u, l), p);
    LookupIs(u, p);
    LookupIs(l, p);
    if DirAt(View(u, l), p) {
      ListingOfDirectory(u, l, p);
    }
  }

  lemma LayersUnder(u: Layer, l: Layer, p: Path)
    requires Layered(u, l) && !Reserved(p) && DirAt(View(u, l), p)
    ensures p in u ==> DirAt(u, p)
    ensures p !in u ==> Lookup(u, p) == Err(NotExist) && forall c :: p + [c] !in u
    ensures p !in u ==> !WhitedOut(u, p) && DirAt(l, p)
    ensures p !in l && !WhitedOut(u, p) ==> Lookup(l, p) == Err(NotExist)
    ensures p !in l ==> forall c :: p + [c] !in l
    ensures p in l && !WhitedOut(u, p) ==> DirAt(l, p)
  {
    LookupIs(u, p);
    LookupIs(l, p);
    if p in u && !WhitedOut(u, p) {
      LowerUnderDir(u, l, p);
    }
    forall c
      ensures (p + [c] in u ==> BelowDir(u, p + [c])) && (p + [c] in l ==> BelowDir(l, p + [c])) && Parent(p + [c]) == p
    {}
  }

  /** The two listings a directory of the view is merged from. */
  lemma ListingsMerged(u: Layer, l: Layer, p: Path) returns (lower: set<string>, upper: set<string>)
    requires Layered(u, l) && !Reserved(p) && DirAt(View(u, l), p)
    ensures ReadDir(u, l, p) == Ok(Merged(u, l, p, lower, upper))
    ensures forall d :: d in upper <==> p + [d] in u
    ensures forall d :: d in lower <==> p + [d] in l && !WhitedOut(u, p)
  {
    LayersUnder(u, l, p);
    var below := if WhitedOut(u, p) then Err(NotExist) else ListDir(l, p);
    if p in u {
      NamesOf(u, p);
    }
    if p in l && !WhitedOut(u, p) {
      NamesOf(l, p);
    }
    lower := if below.Ok? then below.value else {};
    upper := if p in u then ListDir(u, p).value else {};
    hide View, Layered, WellFormed, Listed;
  }

  lemma ListedIsNamed(u: Layer, p: Path, lower: set<string>, upper: set<string>, c: string)
    requires Listed(u, p, lower, upper, c)
    ensures c in lower + upper
  {
  }

  lemma ListingOfDirectory(u: Layer, l: Layer, p: Path)
    requires Layered(u, l) && !Reserved(p) && DirAt(View(u, l), p)
    ensures var r, v := ReadDir(u, l, p), View(u, l);
      && r.Ok? && (forall c :: c in r.value <==> p + [c] in v && !Lost(u, p + [c]))
      && (forall c | c in r.value :: r.value[c] == v[p + [c]])
  {
    hide ReadDir, View, Lost, WhitedOut, Listed, Layered, FileAbove, HasWhiteout, Visible;
    var lower, upper := ListingsMerged(u, l, p);
    var r := ReadDir(u, l, p);
    forall c ensures Listed(u, p, lower, upper, c) <==> p + [c] in View(u, l) && !Lost(u, p + [c]) {
      ListedIs(u, l, p, lower, upper, c);
    }
    forall c | Listed(u, p, lower, upper, c) ensures c in lower + upper { ListedIsNamed(u, p, lower, upper, c); }
    forall c | c in r.value ensures r.value[c] == View(u, l)[p + [c]] { ListedValue(u, l, p, c, lower, upper); }
  }

  lemma ListedValue(u: Layer, l: Layer, p: Path, c: string, lower: set<string>, upper: set<string>)
    requires p + [c] in View(u, l) && (c in upper <==> p + [c] in u) && (c !in upper ==> p + [c] in l)
    ensures EntryAt(if c in upper && !IsWhiteoutName(c) then u else l, p + [c]) == View(u, l)[p + [c]]
  {
    var q := p + [c];
    ReservedParent(q);
    assert q[|q| - 1] == c;
    VisibleIs(u, l, q);
    hide View, FileAbove, WhitedOut;
  }

  lemma ChildrenByName(v: Layer, p: Path, names: map<string, Entry>)
    requires forall c :: c in names <==> p + [c] in v
    ensures names != map[] <==> HasChildren(v, p)
  {
    if HasChildren(v, p) {
      var q :| q in v && q != ROOT && Parent(q) == p;
      assert q == p + [q[|q| - 1]];
      assert q[|q| - 1] in names;
    }
    if names != map[] {
      var c :| c in names;
      assert Parent(p + [c]) == p;
    }
  }

  /** A directory of the view all of whose entries are listed. */
  ghost predicate AllListed(u: Layer, v: Layer, p: Path) {
    forall c {:trigger p + [c]} | p + [c] in v :: !Lost(u, p + [c])
  }

  ghost predicate Shows(names: map<string, Entry>, v: Layer, p: Path) {
    forall c {:trigger c in names} :: c in names <==> p + [c] in v
  }

  /** Exactly when a listing is the directory of the view: when nothing in it is lost. */
  lemma ListingIsView(u: Layer, l: Layer, p: Path)
    requires Layered(u, l) && !Reserved(p)
    ensures var r, v := ReadDir(u, l, p), View(u, l);
      if DirAt(v, p) then
        && r.Ok? && (Shows(r.value, v, p) <==> AllListed(u, v, p))
        && (forall c | c in r.value :: p + [c] in v && r.value[c] == v[p + [c]])
        && (AllListed(u, v, p) ==> (r.value != map[] <==> HasChildren(v, p)))
      else r == Err(if Lookup(v, p).Ok? then NotDir else Lookup(v, p).error)
  {
    hide ReadDir, View, Layered, Lost, HasChildren, Reserved, Visible, Shows, AllListed, Lookup, DirAt;
    var r, v := ReadDir(u, l, p), View(u, l);
    ListingExactly(u, l, p);
    if DirAt(v, p) {
      ListedNames(u, v, p, r.value);
    }
  }

  /** Names that start after '.' are never missing from a listing, whatever was removed and made again. */
  lemma PlainNamesListed(u: Layer, l: Layer, p: Path, c: string)
    requires Layered(u, l) && !Reserved(p) && DirAt(View(u, l), p)
    requires p + [c] in View(u, l) && c != "" && '.' < c[0]
    ensures ReadDir(u, l, p).Ok? && c in ReadDir(u, l, p).value
    ensures ReadDir(u, l, p).value[c] == View(u, l)[p + [c]]
  {
    ListingExactly(u, l, p);
    MarkerFirstIs(c);
    hide ReadDir, View, Layered, MarkerFirst, Reserved;
    assert (p + [c])[|p + [c]| - 1] == c;
  }

  lemma ListedNames(u: Layer, v: Layer, p: Path, names: map<string, Entry>)
    requires forall c :: c in names <==> p + [c] in v && !Lost(u, p + [c])
    ensures Shows(names, v, p) <==> AllListed(u, v, p)
    ensures AllListed(u, v, p) ==> (names != map[] <==> HasChildren(v, p))
  {
    hide Lost, HasChildren;
    if AllListed(u, v, p) {
      ChildrenByName(v, p, names);
    }
  }

  // ------------------------------------------------ changing the upper layer

  lemma {:induction false} WhitedOutSame(u: Layer, w: Layer, p: Path)
    requires forall q | q != ROOT && q <= p :: HasWhiteout(u, q) == HasWhiteout(w, q)
    ensures WhitedOut(u, p) == WhitedOut(w, p)
    decreases |p|
  {
    if p != ROOT {
      WhitedOutSame(u, w, Parent(p));
    }
  }

  lemma {:induction false} FileAboveSame(u: Layer, w: Layer, p: Path)
    requires forall q | q < p :: FileAt(u, q) == FileAt(w, q)
    ensures FileAbove(u, p) == FileAbove(w, p)
    decreases |p|
  {
    if p != ROOT {
      assert Parent(p) < p;
      FileAboveSame(u, w, Parent(p));
    }
  }

  /** A whiteout hides everything below. */
  lemma {:induction false} WhitedOutBelow(u: Layer, p: Path, q: Path)
    requires WhitedOut(u, p) && p <= q
    ensures WhitedOut(u, q)
    decreases |q|
  {
    if p != q {
      PrefixOfParent(p, q);
      WhitedOutBelow(u, p, Parent(q));
    }
  }

  lemma {:induction false} FileHidesBelow(u: Layer, p: Path, q: Path)
    requires FileAt(u, p) && p < q
    ensures FileAbove(u, q)
    decreases |q|
  {
    PrefixOfParent(p, q);
    if p != Parent(q) {
      FileHidesBelow(u, p, Parent(q));
    }
  }

  lemma {:induction false} FileAboveWitness(u: Layer, q: Path) returns (p: Path)
    requires FileAbove(u, q)
    ensures p < q && FileAt(u, p)
    decreases |q|
  {
    p := Parent(q);
    if !FileAt(u, p) {
      p := FileAboveWitness(u, p);
    }
  }

  /** An unreserved entry is nobody's marker. */
  lemma UnreservedIsNoMarker(p: Path, q: Path)
    requires !Reserved(p) && q != ROOT
    ensures Marker(q) != p
  {
    MarkerReserved(q);
  }

  /** A directory added below an upper directory shows, and nothing else changes. */
  lemma AddDirVisible(u: Layer, l: Layer, p: Path, q: Path)
    requires Layered(u, l) && p !in u && p != ROOT && !Reserved(p) && DirAt(u, Parent(p))
    ensures var w := u[p := Dir];
      && (Visible(w, l, q) <==> Visible(u, l, q) || q == p)
      && (Exposed(w, l, q) <==> Exposed(u, l, q))
      && WhitedOut(w, q) == WhitedOut(u, q)
  {
    var w := u[p := Dir];
    forall r | r != ROOT ensures HasWhiteout(u, r) == HasWhiteout(w, r) { UnreservedIsNoMarker(p, r); }
    WhitedOutSame(u, w, q);
    FileAboveSame(u, w, q);
  }

  lemma AddDirValid(u: Layer, l: Layer, p: Path)
    requires Layered(u, l) && p !in u && p != ROOT && !Reserved(p) && DirAt(u, Parent(p))
    requires FileAt(l, p) ==> WhitedOut(u, p)
    ensures Layered(u[p := Dir], l)
  {
    var w := u[p := Dir];
    forall q | q in w ensures BelowDir(w, q) { assert q != p ==> BelowDir(u, q); }
    forall q | q in w ensures MarkerShape(w, q) { assert q != p ==> MarkerShape(u, q); }
    forall q | q in w ensures Covered(w, l, q) {
      AddDirVisible(u, l, p, q);
      assert q != p ==> Covered(u, l, q);
    }
  }

  /** A visible directory copied up leaves the view and the exposed entries as they are. */
  lemma CopyDirUp(u: Layer, l: Layer, p: Path)
    requires Layered(u, l) && p !in u && p != ROOT && DirAt(u, Parent(p)) && DirAt(View(u, l), p)
    ensures Layered(u[p := Dir], l) && View(u[p := Dir], l) == View(u, l)
    ensures forall q :: Exposed(u[p := Dir], l, q) <==> Exposed(u, l, q)
  {
    var w := u[p := Dir];
    assert Visible(u, l, p) && VisibleInLower(u, l, p);
    AddDirValid(u, l, p);
    forall q ensures Visible(w, l, q) == Visible(u, l, q) && Exposed(w, l, q) == Exposed(u, l, q) {
      AddDirVisible(u, l, p, q);
    }
    assert View(w, l) == View(u, l);
  }

  /** A directory made where nothing was visible is an empty directory of the view. */
  lemma NewDir(u: Layer, l: Layer, p: Path)
    requires Layered(u, l) && p !in u && p != ROOT && !Reserved(p) && DirAt(u, Parent(p)) && p !in View(u, l)
    ensures Layered(u[p := Dir], l) && View(u[p := Dir], l) == View(u, l)[p := Dir]
    ensures forall q :: Exposed(u[p := Dir], l, q) <==> Exposed(u, l, q)
  {
    var w := u[p := Dir];
    FileAboveParent(u, p);
    assert p in l ==> WhitedOut(u, p);
    AddDirValid(u, l, p);
    forall q ensures (Visible(w, l, q) <==> Visible(u, l, q) || q == p) && Exposed(w, l, q) == Exposed(u, l, q) {
      AddDirVisible(u, l, p, q);
    }
    assert View(w, l) == View(u, l)[p := Dir];
  }

  // ----------------------------------------------------------- writing a file

  /** What a user sees when a file is put over whatever was at p: nothing below p, the file at p, the rest
      as before. */
  function Overwritten(v: Layer, p: Path, data: Bytes): Layer {
    (map q | q in v && !(p < q) :: v[q])[p := File(data)]
  }

  lemma PutFileVisible(u: Layer, l: Layer, p: Path, data: Bytes, q: Path)
    requires Layered(u, l) && p != ROOT && !Reserved(p) && DirAt(u, Parent(p)) && !DirAt(u, p)
    ensures var w := PutFile(u, p, data);
      && (Visible(w, l, q) <==> q == p || (Visible(u, l, q) && !(p < q)))
      && (Exposed(w, l, q) ==> Exposed(u, l, q))
      && (!(p <= q) ==> WhitedOut(w, q) == WhitedOut(u, q))
  {
    var w := PutFile(u, p, data);
    MarkerReserved(p);
    if p <= q {
      if p < q {
        FileHidesBelow(w, p, q);
        assert q in u ==> DirAt(u, p) by { if q in u { AboveIsDir(u, p, q); } }
        assert q == Marker(p) ==> |p| == |q|;
      } else {
        assert p == q;
        FileAboveParent(u, p);
      }
    } else {
      forall r | r != ROOT && r <= q ensures HasWhiteout(u, r) == HasWhiteout(w, r) {
        UnreservedIsNoMarker(p, r);
        if Marker(r) == Marker(p) {
          MarkerInjective(r, p);
        }
      }
      WhitedOutSame(u, w, q);
      if !Reserved(q) {
        forall r | r < q ensures FileAt(u, r) == FileAt(w, r) {
          ReservedPrefix(r, q);
        }
        FileAboveSame(u, w, q);
      }
    }
  }

  lemma PutFileValid(u: Layer, l: Layer, p: Path, data: Bytes)
    requires Layered(u, l) && p != ROOT && !Reserved(p) && DirAt(u, Parent(p)) && !DirAt(u, p)
    ensures Layered(PutFile(u, p, data), l)
  {
    var w := PutFile(u, p, data);
    MarkerReserved(p);
    forall q | q in w ensures BelowDir(w, q) {
      assert q != p ==> BelowDir(u, q);
      if q != ROOT && q != p {
        assert MarkerShape(u, Marker(p)) || Marker(p) !in u;
        assert Parent(q) != p && Parent(q) != Marker(p);
      }
    }
    forall q | q in w ensures MarkerShape(w, q) { assert q != p ==> MarkerShape(u, q); }
    forall q | q in w ensures Covered(w, l, q) {
      if q != p {
        assert Covered(u, l, q);
        PutFileVisible(u, l, p, data, q);
        if p < q {
          AboveIsDir(u, p, q);
        }
      }
    }
  }

  /** Writing a file through the overlay overwrites the view at its name, and brings nothing to light. */
  lemma PutFileView(u: Layer, l: Layer, p: Path, data: Bytes)
    requires Layered(u, l) && p != ROOT && !Reserved(p) && DirAt(u, Parent(p)) && !DirAt(u, p)
    ensures var w := PutFile(u, p, data);
      && Layered(w, l) && View(w, l) == Overwritten(View(u, l), p, data)
      && forall q | Exposed(w, l, q) :: Exposed(u, l, q)
  {
    var w := PutFile(u, p, data);
    PutFileValid(u, l, p, data);
    forall q ensures Visible(w, l, q) <==> q == p || (Visible(u, l, q) && !(p < q)) {
      PutFileVisible(u, l, p, data, q);
    }
    forall q | Visible(w, l, q) && q != p ensures View(w, l)[q] == View(u, l)[q] {
      MarkerReserved(p);
    }
    assert View(w, l) == Overwritten(View(u, l), p, data);
    forall q | Exposed(w, l, q) ensures Exposed(u, l, q) { PutFileVisible(u, l, p, data, q); }
  }

  /** Where the view has no directory, overwriting is a plain update. */
  lemma OverwrittenIs(v: Layer, p: Path, data: Bytes)
    requires WellFormed(v) && !DirAt(v, p)
    ensures Overwritten(v, p, data) == v[p := File(data)]
  {
    forall q | q in v ensures !(p < q) {
      if p < q {
        AboveIsDir(v, p, q);
      }
    }
  }

  // -------------------------------------------------------- hiding a subtree

  /** The subtree leaves the upper layer and a lower entry that would come to light gets a marker. */
  function Hidden(u: Layer, l: Layer, p: Path): Layer
    requires p != ROOT
  {
    if VisibleInLower(u, l, p) then Files.Without(u, p)[Marker(p) := File([])] else Files.Without(u, p)
  }

  lemma HiddenMarkers(u: Layer, l: Layer, p: Path, q: Path)
    requires Layered(u, l) && p != ROOT && !Reserved(p)
    ensures var w := Hidden(u, l, p);
      && (!(p <= q) ==> WhitedOut(w, q) == WhitedOut(u, q))
      && (p <= q && (WhitedOut(u, p) || p in l) ==> WhitedOut(w, q))
  {
    var w := Hidden(u, l, p);
    MarkerReserved(p);
    if p <= q {
      forall r | r != ROOT && r <= p && r != p
        ensures HasWhiteout(u, r) == HasWhiteout(w, r)
      {
        HiddenMarkerKept(u, l, p, r);
      }
      if WhitedOut(u, p) {
        forall r | r != ROOT && r <= p ensures HasWhiteout(u, r) == HasWhiteout(w, r) { HiddenMarkerKept(u, l, p, r); }
        WhitedOutSame(u, w, p);
        WhitedOutBelow(w, p, q);
      } else if p in l {
        assert HasWhiteout(w, p);
        WhitedOutBelow(w, p, q);
      }
    } else {
      forall r | r != ROOT && r <= q ensures HasWhiteout(u, r) == HasWhiteout(w, r) {
        UnreservedIsNoMarker(p, r);
        assert r != p && !(p < r);
        HiddenMarkerKept(u, l, p, r);
      }
      WhitedOutSame(u, w, q);
    }
  }

  lemma HiddenMarkerKept(u: Layer, l: Layer, p: Path, r: Path)
    requires p != ROOT && r != ROOT && !(p < r)
    ensures HasWhiteout(Hidden(u, l, p), r) ==
      (HasWhiteout(u, r) && Marker(r) != p) || (r == p && VisibleInLower(u, l, p))
  {
    MarkerReserved(r);
    if Marker(r) == Marker(p) {
      MarkerInjective(r, p);
    }
    if |p| < |r| {
      assert Marker(r)[..|p|] == Parent(r)[..|p|] == r[..|p|];
    }
  }

  lemma HiddenVisible(u: Layer, l: Layer, p: Path, q: Path)
    requires Layered(u, l) && p != ROOT && !Reserved(p)
    requires p in l && !WhitedOut(u, p) ==> DirAt(u, Parent(p))
    ensures var w := Hidden(u, l, p);
      && (Visible(w, l, q) <==> Visible(u, l, q) && !(p <= q))
      && (Exposed(w, l, q) ==> Exposed(u, l, q) && !(p <= q))
  {
    var w := Hidden(u, l, p);
    MarkerReserved(p);
    HiddenMarkers(u, l, p, q);
    if p <= q {
      var mark := Marker(p);
      assert q in w ==> q == mark;
      if q in l {
        assert p in l by {
          if |p| < |q| {
            AboveIsDir(l, p, q);
          } else {
            assert p == q;
          }
        }
      }
    } else if !Reserved(q) {
      forall r | r < q ensures FileAt(u, r) == FileAt(w, r) { ReservedPrefix(r, q); }
      FileAboveSame(u, w, q);
    }
  }

  lemma HiddenBelowDir(u: Layer, l: Layer, p: Path, q: Path)
    requires Layered(u, l) && p != ROOT && !Reserved(p) && q in Hidden(u, l, p)
    requires p in l && !WhitedOut(u, p) ==> DirAt(u, Parent(p))
    ensures BelowDir(Hidden(u, l, p), q)
  {
    MarkerReserved(p);
    if q != ROOT {
      assert !(p <= Parent(p));
      assert q in u ==> BelowDir(u, q) && MarkerShape(u, Parent(q));
      assert q != Marker(p) && p <= Parent(q) ==> p <= q;
    }
  }

  lemma HiddenMarkerShape(u: Layer, l: Layer, p: Path, q: Path)
    requires Layered(u, l) && p != ROOT && !Reserved(p) && q in Hidden(u, l, p)
    ensures MarkerShape(Hidden(u, l, p), q)
  {
    MarkerReserved(p);
    if q == Marker(p) {
      ReservedPrefix(Parent(p), p);
    }
    assert q in u ==> MarkerShape(u, q);
  }

  lemma HiddenValid(u: Layer, l: Layer, p: Path)
    requires Layered(u, l) && p != ROOT && !Reserved(p)
    requires p in l && !WhitedOut(u, p) ==> DirAt(u, Parent(p))
    ensures Layered(Hidden(u, l, p), l)
  {
    var w := Hidden(u, l, p);
    assert DirAt(w, ROOT);
    forall q | q in w ensures BelowDir(w, q) { HiddenBelowDir(u, l, p, q); }
    forall q | q in w ensures MarkerShape(w, q) { HiddenMarkerShape(u, l, p, q); }
    forall q | q in w ensures Covered(w, l, q) {
      HiddenMarkers(u, l, p, q);
      assert q in u ==> Covered(u, l, q);
    }
  }

  /** Hiding takes exactly the subtree out of the view, and brings nothing to light. */
  lemma HiddenView(u: Layer, l: Layer, p: Path)
    requires Layered(u, l) && p != ROOT && !Reserved(p)
    requires p in l && !WhitedOut(u, p) ==> DirAt(u, Parent(p))
    ensures var w := Hidden(u, l, p);
      && Layered(w, l) && View(w, l) == Files.Without(View(u, l), p)
      && forall q | Exposed(w, l, q) :: Exposed(u, l, q) && !(p <= q)
  {
    var w := Hidden(u, l, p);
    HiddenValid(u, l, p);
    MarkerReserved(p);
    forall q ensures Visible(w, l, q) <==> Visible(u, l, q) && !(p <= q) { HiddenVisible(u, l, p, q); }
    assert View(w, l) == Files.Without(View(u, l), p);
    forall q | Exposed(w, l, q) ensures Exposed(u, l, q) && !(p <= q) { HiddenVisible(u, l, p, q); }
  }

  // ---------------------------------------------------- directories on the way

  /** What the upper layer may gain on the way to p: directories at prefixes of p. */
  ghost predicate Grown(u: Layer, w: Layer, p: Path) {
    && (forall q :: q in w <==> q in u || (q <= p && q != ROOT && DirAt(w, q)))
    && (forall q | q in u :: w[q] == u[q])
    && (forall q :: WhitedOut(w, q) == WhitedOut(u, q))
  }

  /** The same user-visible state over the same lower layer. */
  ghost predicate SameView(u: Layer, w: Layer, l: Layer) {
    Layered(w, l) && View(w, l) == View(u, l) && forall q :: Exposed(w, l, q) <==> Exposed(u, l, q)
  }

  /** What a walk to a directory must report, given what is there. */
  function WalkOutcome(r: Result<Entry>): Outcome {
    if r.Err? then Failed(r.error) else if r.value.Dir? then Done else Failed(NotDir)
  }

  lemma GrownStep(u: Layer, w: Layer, l: Layer, p: Path)
    requires Grown(u, w, Parent(p)) && Layered(w, l)
    requires p != ROOT && !Reserved(p) && p !in w && DirAt(w, Parent(p))
    ensures Grown(u, w[p := Dir], p)
  {
    var x := w[p := Dir];
    forall q ensures WhitedOut(x, q) == WhitedOut(w, q) { AddDirVisible(w, l, p, q); }
    forall q ensures q in x <==> q in u || (q <= p && q != ROOT && DirAt(x, q)) { PrefixStep(p, q); }
  }

  lemma PrefixStep(p: Path, q: Path)
    requires p != ROOT
    ensures q <= p <==> q <= Parent(p) || q == p
  {
    if q <= p && q != p {
      PrefixOfParent(q, p);
    }
  }

  lemma GrownStay(u: Layer, w: Layer, p: Path)
    requires Grown(u, w, Parent(p)) && p != ROOT && (p in w ==> DirAt(w, p) || p in u)
    ensures Grown(u, w, p)
  {
    forall q ensures q in w <==> q in u || (q <= p && q != ROOT && DirAt(w, q)) { PrefixStep(p, q); }
  }

  /** Copying up the directories on the way to p leaves view and exposed entries alone, and stops where
      the walk through the view stops. */
  lemma {:induction false} MaterializeView(u: Layer, l: Layer, p: Path)
    requires Layered(u, l) && !Reserved(p)
    ensures var m := Materialize(u, l, p, false);
      && SameView(u, m.layer, l) && Grown(u, m.layer, p)
      && m.outcome == WalkOutcome(MergedLookup(u, l, p)) && (m.outcome == Done ==> DirAt(m.layer, p))
    decreases |p|
  {
    if p != ROOT {
      ReservedParent(p);
      MaterializeView(u, l, Parent(p));
      var up := Materialize(u, l, Parent(p), false);
      MaterializeStep(u, up.layer, l, p);
      hide Layered, View, MergedLookup, Grown, SameView;
    }
  }

  lemma MaterializeStep(u: Layer, w: Layer, l: Layer, p: Path)
    requires Layered(u, l) && !Reserved(p) && p != ROOT && SameView(u, w, l) && Grown(u, w, Parent(p))
    ensures WalkOutcome(MergedLookup(u, l, Parent(p))) != Done ==>
      WalkOutcome(MergedLookup(u, l, p)) == WalkOutcome(MergedLookup(u, l, Parent(p)))
    ensures Grown(u, w, p)
    ensures MergedLookup(w, l, p) == MergedLookup(u, l, p)
    ensures DirAt(w, Parent(p)) ==>
      if p in w then Lookup(w, p) == Ok(w[p]) == MergedLookup(u, l, p)
      else Lookup(w, p) == Err(NotExist)
    ensures DirAt(w, Parent(p)) && p !in w && MergedLookup(u, l, p) == Ok(Dir) ==>
      SameView(u, w[p := Dir], l) && Grown(u, w[p := Dir], p)
  {
    ReservedParent(p);
    ViewLookup(u, l, p);
    ViewLookup(u, l, Parent(p));
    ViewLookup(w, l, p);
    LookupIs(w, p);
    if DirAt(w, Parent(p)) {
      FileAboveParent(w, p);
    }
    ViewWellFormed(w, l);
    LookupIs(View(w, l), p);
    hide Layered, View;
    GrownStay(u, w, p);
    hide Visible, Exposed;
    if DirAt(w, Parent(p)) && p !in w && MergedLookup(u, l, p) == Ok(Dir) {
      CopyDirUp(w, l, p);
      GrownStep(u, w, l, p);
    }
  }
}

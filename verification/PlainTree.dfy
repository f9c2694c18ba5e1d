/** A filesystem of directories and regular files only: what the layers of an overlay are, and what the
    merged view is held to.  The operations are those of Memory on such a tree. */
module PlainTree {
  import opened Results
  import opened Paths
  import Files

  type Bytes = Files.Bytes

  datatype Entry = Dir | File(data: Bytes)

  type Layer = map<Path, Entry>

  predicate DirAt(t: Layer, p: Path) {
    p in t && t[p].Dir?
  }

  predicate FileAt(t: Layer, p: Path) {
    p in t && t[p].File?
  }

  ghost predicate BelowDir(t: Layer, p: Path) {
    p != ROOT ==> DirAt(t, Parent(p))
  }

  ghost predicate WellFormed(t: Layer) {
    DirAt(t, ROOT) && forall p {:trigger BelowDir(t, p)} | p in t :: BelowDir(t, p)
  }

  /** Walking to an entry: the first missing component or the first file on the way decides the error. */
  function Lookup(t: Layer, p: Path): Result<Entry>
    decreases |p|
  {
    if p == ROOT then Ok(Dir)
    else
      var up := Lookup(t, Parent(p));
      if up.Err? then up
      else if up.value.File? then Err(NotDir)
      else if p in t then Ok(t[p])
      else Err(NotExist)
  }

  predicate HasChildren(t: Layer, p: Path) {
    exists q | q in t :: q != ROOT && Parent(q) == p
  }

  /** A file at a proper ancestor of p. */
  predicate FileAbove(t: Layer, p: Path)
    decreases |p|
  {
    p != ROOT && (FileAt(t, Parent(p)) || FileAbove(t, Parent(p)))
  }

  datatype Applied = Applied(layer: Layer, outcome: Outcome)

  // -------------------------------------------------------------- operations

  function Create(t: Layer, p: Path, e: Entry): Applied {
    match Lookup(t, p)
    case Ok(_) => Applied(t, Failed(Exist))
    case Err(error) =>
      if error == NotExist && Lookup(t, Parent(p)).Ok? then Applied(t[p := e], Done) else Applied(t, Failed(error))
  }

  function WriteFile(t: Layer, p: Path, data: Bytes): Applied {
    match Lookup(t, p)
    case Ok(e) => if e.Dir? then Applied(t, Failed(IsDir)) else Applied(t[p := File(data)], Done)
    case Err(_) => Create(t, p, File(data))
  }

  function AppendFile(t: Layer, p: Path, data: Bytes): Applied {
    match Lookup(t, p)
    case Ok(e) => if e.Dir? then Applied(t, Failed(IsDir)) else Applied(t[p := File(e.data + data)], Done)
    case Err(_) => Create(t, p, File(data))
  }

  function MkdirAll(t: Layer, p: Path): Applied
    decreases |p|
  {
    if p == ROOT then Applied(t, Done)
    else
      var up := MkdirAll(t, Parent(p));
      if up.outcome != Done then up
      else if FileAt(up.layer, p) then Applied(up.layer, Failed(NotDir))
      else Applied(up.layer[p := Dir], Done)
  }

  function Remove(t: Layer, p: Path): Applied {
    if p == ROOT then Applied(t, Failed(Invalid))
    else match Lookup(t, p)
      case Err(error) => Applied(t, Failed(error))
      case Ok(e) =>
        if e.Dir? && HasChildren(t, p) then Applied(t, Failed(NotEmpty)) else Applied(t - {p}, Done)
  }

  function RemoveAll(t: Layer, p: Path): Applied {
    if p == ROOT then Applied(t, Failed(Invalid))
    else match Lookup(t, p)
      case Err(error) => Applied(t, if error == NotExist then Done else Failed(error))
      case Ok(_) => Applied(Files.Without(t, p), Done)
  }

  /** What keeps an existing target of a rename from being replaced. */
  function Obstacle(t: Layer, from: Path, to: Path): Option<Error> {
    if DirAt(t, to) && !DirAt(t, from) then Some(IsDir)
    else if FileAt(t, to) && DirAt(t, from) then Some(NotDir)
    else if DirAt(t, to) && (to == ROOT || HasChildren(t, to)) then Some(NotEmpty)
    else None
  }

  function Rename(t: Layer, from: Path, to: Path): Applied {
    var source, up := Lookup(t, from), Lookup(t, Parent(to));
    if source.Err? then Applied(t, Failed(source.error))
    else if up.Err? then Applied(t, Failed(up.error))
    else if up.value.File? then Applied(t, Failed(NotDir))
    else if Within(from, to) then Applied(t, Failed(IntoItself))
    else match Obstacle(t, from, to)
      case Some(error) => Applied(t, Failed(error))
      case None => Applied(Files.Relocated(t, from, to), Done)
  }

  // ------------------------------------------------------------------- facts

  lemma {:induction false} LookupIs(t: Layer, p: Path)
    requires WellFormed(t)
    ensures Lookup(t, p).Ok? <==> p in t
    ensures p in t ==> Lookup(t, p) == Ok(t[p]) && !FileAbove(t, p)
    ensures p !in t ==> Lookup(t, p) == Err(if FileAbove(t, p) then NotDir else NotExist)
    decreases |p|
  {
    if p != ROOT {
      LookupIs(t, Parent(p));
      assert p in t ==> BelowDir(t, p);
    }
  }

  /** In a well-formed tree everything above an entry is a directory. */
  lemma {:induction false} AboveEntry(t: Layer, p: Path, k: nat)
    requires WellFormed(t) && p in t && k < |p|
    ensures DirAt(t, p[..k])
    decreases |p|
  {
    assert BelowDir(t, p);
    if k < |p| - 1 {
      assert Parent(p)[..k] == p[..k];
      AboveEntry(t, Parent(p), k);
    }
  }

  lemma AboveIsDir(t: Layer, p: Path, q: Path)
    requires WellFormed(t) && q in t && p < q
    ensures DirAt(t, p)
  {
    AboveEntry(t, q, |p|);
    assert q[..|p|] == p;
  }

  lemma ChildlessIsLeaf(t: Layer, p: Path, q: Path)
    requires WellFormed(t) && q in t && !HasChildren(t, p)
    ensures !(p < q)
  {
    if |p| < |q| {
      var child := q[..|p| + 1];
      if child != q {
        AboveEntry(t, q, |p| + 1);
      }
      assert child in t && Parent(child) == q[..|p|];
    }
  }
}

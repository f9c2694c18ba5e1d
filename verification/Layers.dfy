/** pkg/fs/overlay.go as functions of its two layers: markers, lookups, the merged view, and the upper
    layer each operation leaves behind. */
module Layers {
  import opened Results
  import opened Paths
  import opened PlainTree
  import Files

  const WHITEOUT_PREFIX := ".wh."

  predicate IsWhiteoutName(c: string) {
    WHITEOUT_PREFIX <= c
  }

  /** Names with a reserved component are rejected by every operation. */
  predicate Reserved(p: Path) {
    exists c | c in p :: IsWhiteoutName(c)
  }

  /** Where the whiteout marker of a name is kept: beside it. */
  function Marker(p: Path): Path
    requires p != ROOT
  {
    Parent(p) + [WHITEOUT_PREFIX + p[|p| - 1]]
  }

  predicate HasWhiteout(u: Layer, p: Path) {
    p != ROOT && Marker(p) in u
  }

  predicate WhitedOut(u: Layer, p: Path)
    decreases |p|
  {
    p != ROOT && (WhitedOut(u, Parent(p)) || HasWhiteout(u, p))
  }

  /** What Stat and Lstat of the overlay report: the upper entry, an error of the upper layer other than
      absence, or the lower entry unless it is whited out. */
  function MergedLookup(u: Layer, l: Layer, p: Path): Result<Entry> {
    if Reserved(p) then Err(Invalid)
    else
      var upper := Lookup(u, p);
      if upper.Ok? || upper.error != NotExist then upper
      else if WhitedOut(u, p) then Err(NotExist)
      else Lookup(l, p)
  }

  predicate VisibleInLower(u: Layer, l: Layer, p: Path) {
    p in l && !WhitedOut(u, p)
  }

  /** The entries a user of the overlay sees. */
  predicate Visible(u: Layer, l: Layer, p: Path) {
    !Reserved(p) && (p in u || (VisibleInLower(u, l, p) && !FileAbove(u, p)))
  }

  function View(u: Layer, l: Layer): Layer {
    map p | p in u.Keys + l.Keys && Visible(u, l, p) :: if p in u then u[p] else l[p]
  }

  /** A lower entry a deletion elsewhere could still bring to light: not whited out and with no upper file
      at or above it. */
  predicate Exposed(u: Layer, l: Layer, p: Path) {
    VisibleInLower(u, l, p) && !FileAt(u, p) && !FileAbove(u, p)
  }

  // ------------------------------------------------------- order of listings

  /** Go's order on strings. */
  predicate Less(a: string, b: string)
    decreases |a|
  {
    b != "" && (a == "" || a[0] < b[0] || (a[0] == b[0] && Less(a[1..], b[1..])))
  }

  /** The marker of a base name is listed before the name itself. */
  predicate MarkerFirst(c: string) {
    Less(WHITEOUT_PREFIX + c, c)
  }

  /** What ReadDir of one layer reports. */
  function ListDir(t: Layer, p: Path): Result<set<string>> {
    match Lookup(t, p)
    case Err(error) => Err(error)
    case Ok(e) => if e.File? then Err(NotDir) else Ok(set q | q in t && q != ROOT && Parent(q) == p :: q[|q| - 1])
  }

  /** A base name stays in the listing unless its marker comes after it; a lower name, unless it has a
      marker. */
  predicate Listed(u: Layer, p: Path, lower: set<string>, upper: set<string>, c: string) {
    if c in upper && !IsWhiteoutName(c) then WHITEOUT_PREFIX + c in upper ==> MarkerFirst(c)
    else c in lower && !HasWhiteout(u, p + [c])
  }

  function EntryAt(t: Layer, p: Path): Entry {
    if p in t then t[p] else Dir
  }

  function Merged(u: Layer, l: Layer, p: Path, lower: set<string>, upper: set<string>): map<string, Entry> {
    map c | c in lower + upper && Listed(u, p, lower, upper, c) ::
      EntryAt(if c in upper && !IsWhiteoutName(c) then u else l, p + [c])
  }

  /** ReadDir: lower names without a marker, then the upper listing in order, where a marker takes its
      name out again. */
  function ReadDir(u: Layer, l: Layer, p: Path): Result<map<string, Entry>> {
    if Reserved(p) then Err(Invalid)
    else
      var lower := if WhitedOut(u, p) then Err(NotExist) else ListDir(l, p);
      var upper := ListDir(u, p);
      if lower.Err? && lower.error != NotExist then Err(lower.error)
      else if upper.Err? && upper.error != NotExist then Err(upper.error)
      else if lower.Err? && upper.Err? then Err(upper.error)
      else Ok(Merged(u, l, p, if lower.Ok? then lower.value else {}, if upper.Ok? then upper.value else {}))
  }

  // --------------------------------------------------------------- validity

  ghost predicate MarkerShape(u: Layer, p: Path) {
    Reserved(p) ==> p != ROOT && !Reserved(Parent(p)) && FileAt(u, p)
  }

  /** An upper directory over a lower file: the file is whited out. */
  ghost predicate Covered(u: Layer, l: Layer, p: Path) {
    DirAt(u, p) && FileAt(l, p) ==> WhitedOut(u, p)
  }

  /** Two layers that belong together. */
  ghost predicate Layered(u: Layer, l: Layer) {
    && WellFormed(u) && WellFormed(l)
    && (forall p {:trigger Reserved(p)} | p in l :: !Reserved(p))
    && (forall p {:trigger MarkerShape(u, p)} | p in u :: MarkerShape(u, p))
    && (forall p {:trigger Covered(u, l, p)} | p in u :: Covered(u, l, p))
  }

  // -------------------------------------------------------------- operations

  /** walkDirs: copies the directories on the way to p up, creating missing ones when asked to. */
  function Materialize(u: Layer, l: Layer, p: Path, create: bool): Applied
    decreases |p|
  {
    if p == ROOT then Applied(u, Done)
    else
      var up := Materialize(u, l, Parent(p), create);
      if up.outcome != Done then up
      else match Lookup(up.layer, p)
        case Ok(e) => if e.Dir? then up else Applied(up.layer, Failed(NotDir))
        case Err(error) =>
          if error != NotExist then Applied(up.layer, Failed(error))
          else match MergedLookup(up.layer, l, p)
            case Ok(e) => if e.Dir? then Applied(up.layer[p := Dir], Done) else Applied(up.layer, Failed(NotDir))
            case Err(error) =>
              if error == NotExist && create then Applied(up.layer[p := Dir], Done)
              else Applied(up.layer, Failed(error))
  }

  /** A file written to the upper layer, its marker dropped. */
  function PutFile(u: Layer, p: Path, data: Bytes): Layer
    requires p != ROOT
  {
    (u - {Marker(p)})[p := File(data)]
  }

  /** prepareWrite. */
  function Prepare(u: Layer, l: Layer, p: Path): Applied {
    if Reserved(p) then Applied(u, Failed(Invalid)) else Materialize(u, l, Parent(p), false)
  }

  function CreateFile(u: Layer, l: Layer, p: Path, data: Bytes): Applied {
    var m := Prepare(u, l, p);
    if m.outcome != Done then m
    else match MergedLookup(m.layer, l, p)
      case Ok(_) => Applied(m.layer, Failed(Exist))
      case Err(error) =>
        if error != NotExist || p == ROOT then Applied(m.layer, Failed(error))
        else Applied(PutFile(m.layer, p, data), Done)
  }

  function WriteFile(u: Layer, l: Layer, p: Path, data: Bytes): Applied {
    var m := Prepare(u, l, p);
    if m.outcome != Done then m
    else if p == ROOT || DirAt(m.layer, p) then Applied(m.layer, Failed(IsDir))
    else Applied(PutFile(m.layer, p, data), Done)
  }

  /** copyUp: a lower entry that shows is copied, with the directories on the way to it. */
  function CopyUp(u: Layer, l: Layer, p: Path): Applied {
    var upper, below := Lookup(u, p), Lookup(l, p);
    if p == ROOT || upper.Ok? then Applied(u, Done)
    else if upper.error != NotExist then Applied(u, Failed(upper.error))
    else if WhitedOut(u, p) || below.Err? then Applied(u, Done)
    else
      var m := Materialize(u, l, Parent(p), false);
      if m.outcome != Done then m else Applied(m.layer[p := below.value], Done)
  }

  function AppendFile(u: Layer, l: Layer, p: Path, data: Bytes): Applied {
    var m := Prepare(u, l, p);
    if m.outcome != Done then m
    else
      var c := CopyUp(m.layer, l, p);
      if c.outcome != Done then c
      else if p == ROOT || DirAt(c.layer, p) then Applied(c.layer, Failed(IsDir))
      else Applied(PutFile(c.layer, p, (if FileAt(c.layer, p) then c.layer[p].data else []) + data), Done)
  }

  function Mkdir(u: Layer, l: Layer, p: Path): Applied {
    var m := Prepare(u, l, p);
    if m.outcome != Done then m
    else match MergedLookup(m.layer, l, p)
      case Ok(_) => Applied(m.layer, Failed(Exist))
      case Err(_) => PlainTree.Create(m.layer, p, Dir)
  }

  function MkdirAll(u: Layer, l: Layer, p: Path): Applied {
    if Reserved(p) then Applied(u, Failed(Invalid)) else Materialize(u, l, p, true)
  }

  function SetWhiteout(u: Layer, l: Layer, p: Path): Applied
    requires p != ROOT
  {
    var m := Materialize(u, l, Parent(p), false);
    if m.outcome != Done then m
    else Applied(if Marker(p) in m.layer then m.layer else m.layer[Marker(p) := File([])], Done)
  }

  /** The markers kept directly inside a directory are dropped. */
  function ClearMarkers(u: Layer, p: Path): Layer {
    map q | q in u && !(q != ROOT && Parent(q) == p && IsWhiteoutName(q[|q| - 1])) :: u[q]
  }

  function Remove(u: Layer, l: Layer, p: Path): Applied {
    if p == ROOT || Reserved(p) then Applied(u, Failed(Invalid))
    else match MergedLookup(u, l, p)
      case Err(error) => Applied(u, Failed(error))
      case Ok(e) =>
        var listing := if e.Dir? then ReadDir(u, l, p) else Ok(map[]);
        if listing.Err? then Applied(u, Failed(listing.error))
        else if listing.value != map[] then Applied(u, Failed(NotEmpty))
        else
          var removed := if p in u then PlainTree.Remove(if e.Dir? then ClearMarkers(u, p) else u, p)
            else Applied(u, Done);
          if removed.outcome != Done || !VisibleInLower(removed.layer, l, p) then removed
          else SetWhiteout(removed.layer, l, p)
  }

  function RemoveAll(u: Layer, l: Layer, p: Path): Applied {
    if p == ROOT || Reserved(p) then Applied(u, Failed(Invalid))
    else
      var upper := Lookup(u, p);
      if upper.Err? && upper.error != NotExist then Applied(u, Failed(upper.error))
      else
        var removed := if upper.Ok? then Files.Without(u, p) else u;
        if VisibleInLower(u, l, p) then SetWhiteout(removed, l, p) else Applied(removed, Done)
  }

  /** copyUpTree: everything visible at, above and below p is in the upper layer. */
  function CopyUpTree(u: Layer, l: Layer, p: Path): Layer {
    var v := View(u, l);
    u + map q | q in v && (q <= p || p <= q) :: v[q]
  }

  function Rename(u: Layer, l: Layer, from: Path, to: Path): Applied {
    if Reserved(from) || Reserved(to) then Applied(u, Failed(Invalid))
    else
      var source := MergedLookup(u, l, from);
      if source.Err? then Applied(u, Failed(source.error))
      else
        var m := Materialize(CopyUpTree(u, l, from), l, Parent(to), false);
        if m.outcome != Done then m
        else
          var r := PlainTree.Rename(m.layer, from, to);
          if r.outcome != Done || to == ROOT then r
          else if from == ROOT then Applied(r.layer, Failed(Invalid))
          else
            var hidden := if VisibleInLower(r.layer, l, from) then SetWhiteout(r.layer, l, from) else r;
            if hidden.outcome != Done then hidden
            else Applied(if FileAt(hidden.layer, to) then hidden.layer - {Marker(to)} else hidden.layer, Done)
  }

  /** Chmod and Chtimes copy the entry up and change nothing else the model sees. */
  function Touch(u: Layer, l: Layer, p: Path): Applied {
    var m := Prepare(u, l, p);
    if m.outcome != Done then m
    else
      var c := CopyUp(m.layer, l, p);
      if c.outcome != Done then c
      else Applied(c.layer, if Lookup(c.layer, p).Ok? then Done else Failed(Lookup(c.layer, p).error))
  }
}

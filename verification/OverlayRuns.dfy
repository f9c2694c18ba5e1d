/** Whole runs of an overlay: exactly when the merged view goes through the states of one plain tree, and
    exactly when what a user once hid of the lower layer stays hidden. */
module OverlayRuns {
  import opened Results
  import opened Paths
  import opened PlainTree
  import opened Layers
  import opened LayerLaws
  import opened OverlaySimulation
  import opened OverlayRemoval
  import opened OverlayRename
  import opened OverlayLanding

  datatype Op =
    | CreateFile(name: Path, data: Bytes)
    | WriteFile(name: Path, data: Bytes)
    | AppendFile(name: Path, data: Bytes)
    | Mkdir(name: Path)
    | MkdirAll(name: Path)
    | Remove(name: Path)
    | RemoveAll(name: Path)
    | Rename(name: Path, newName: Path)
    | Touch(name: Path)

  /** The names an operation is given. */
  predicate Forbidden(op: Op) {
    Reserved(op.name) || (op.Rename? && Reserved(op.newName))
  }

  function Step(u: Layer, l: Layer, op: Op): Applied {
    match op
    case CreateFile(name, data) => Layers.CreateFile(u, l, name, data)
    case WriteFile(name, data) => Layers.WriteFile(u, l, name, data)
    case AppendFile(name, data) => Layers.AppendFile(u, l, name, data)
    case Mkdir(name) => Layers.Mkdir(u, l, name)
    case MkdirAll(name) => Layers.MkdirAll(u, l, name)
    case Remove(name) => Layers.Remove(u, l, name)
    case RemoveAll(name) => Layers.RemoveAll(u, l, name)
    case Rename(name, newName) => Layers.Rename(u, l, name, newName)
    case Touch(name) => Layers.Touch(u, l, name)
  }

  /** The same operation on one plain tree, where the names reserved for markers are not available. */
  function PlainStep(t: Layer, op: Op): Applied {
    if Forbidden(op) then Applied(t, Failed(Invalid))
    else match op
      case CreateFile(name, data) => PlainTree.Create(t, name, File(data))
      case WriteFile(name, data) => PlainTree.WriteFile(t, name, data)
      case AppendFile(name, data) => PlainTree.AppendFile(t, name, data)
      case Mkdir(name) => PlainTree.Create(t, name, Dir)
      case MkdirAll(name) => PlainTree.MkdirAll(t, name)
      case Remove(name) => PlainTree.Remove(t, name)
      case RemoveAll(name) => PlainTree.RemoveAll(t, name)
      case Rename(name, newName) => PlainTree.Rename(t, name, newName)
      case Touch(name) => var r := Lookup(t, name); Applied(t, if r.Ok? then Done else Failed(r.error))
  }

  /** A rename that finds its target judged alike by view and upper layer. */
  ghost predicate Settled(u: Layer, v: Layer, op: Op) {
    op.Rename? && !Forbidden(op) ==> RenameGuard(u, v, op.name, op.newName)
  }

  /** A step that brings a directory over a lower file that shows. */
  ghost predicate Uncovering(u: Layer, l: Layer, op: Op) {
    op.Rename? && !Forbidden(op) && Uncovers(u, l, op.name, op.newName)
  }

  /** A step that brings lower entries back. */
  ghost predicate Resurrecting(u: Layer, l: Layer, op: Op) {
    op.Remove? && !Forbidden(op) && Resurrects(u, l, op.name)
  }

  /** Exactly when a step is the step of a plain tree. */
  ghost predicate Agreeable(u: Layer, l: Layer, op: Op) {
    var v := View(u, l);
    && Settled(u, v, op) && !Resurrecting(u, l, op)
    && (op.WriteFile? && !Forbidden(op) ==> !(DirAt(v, op.name) && op.name !in u))
    && (op.RemoveAll? && !Forbidden(op) ==> !(Lookup(u, op.name) == Err(NotExist) && Lookup(v, op.name) == Err(NotDir)))
  }

  ghost predicate MovesRoot(op: Op) {
    op.Rename? && op.name == ROOT
  }

  lemma ForbiddenRefused(u: Layer, l: Layer, op: Op)
    requires Forbidden(op)
    ensures Step(u, l, op) == Applied(u, Failed(Invalid))
  {
    assert op.Remove? || op.RemoveAll? ==> !Reserved(ROOT);
  }

  lemma StepSimulates(u: Layer, l: Layer, op: Op)
    requires Layered(u, l) && !MovesRoot(op)
    ensures Simulates(u, l, Step(u, l, op), PlainStep(View(u, l), op)) <==> Agreeable(u, l, op)
  {
    if Forbidden(op) {
      ForbiddenRefused(u, l, op);
    } else {
      hide RenameGuard, Resurrects, Layered, View;
      match op
      case CreateFile(name, data) => CreateFileSimulates(u, l, name, data);
      case WriteFile(name, data) => WriteFileSimulates(u, l, name, data);
      case AppendFile(name, data) => AppendFileSimulates(u, l, name, data);
      case Mkdir(name) => MkdirSimulates(u, l, name);
      case MkdirAll(name) => MkdirAllSimulates(u, l, name);
      case Remove(name) => RemoveSimulates(u, l, name);
      case RemoveAll(name) => RemoveAllSimulates(u, l, name);
      case Rename(name, newName) => RenameSimulates(u, l, name, newName);
      case Touch(name) => TouchInvisible(u, l, name);
    }
  }

  /** Exactly when a step leaves hidden what was hidden, also where it does something else than a plain
      tree would; and exactly when such a step leaves sound layers. */
  lemma StepHides(u: Layer, l: Layer, op: Op)
    requires Layered(u, l) && !MovesRoot(op)
    ensures NothingResurfaces(u, Step(u, l, op).layer, l) <==> !Resurrecting(u, l, op)
    ensures !Resurrecting(u, l, op) ==> (Layered(Step(u, l, op).layer, l) <==> !Uncovering(u, l, op))
  {
    hide RenameGuard, Resurrects, Uncovers, Layered, View;
    if Forbidden(op) {
      ForbiddenRefused(u, l, op);
    } else if op.Rename? {
      RenameHides(u, l, op.name, op.newName);
    } else {
      StepSimulates(u, l, op);
      if !Agreeable(u, l, op) {
        match op
        case WriteFile(name, data) => WriteFileSimulates(u, l, name, data);
        case Remove(name) => RemoveSimulates(u, l, name);
        case RemoveAll(name) => RemoveAllSimulates(u, l, name);
        case _ =>
      }
    }
  }

  // --------------------------------------------------------------------- runs

  function Run(u: Layer, l: Layer, ops: seq<Op>): Layer
    decreases |ops|
  {
    if ops == [] then u else Run(Step(u, l, ops[0]).layer, l, ops[1..])
  }

  function Outcomes(u: Layer, l: Layer, ops: seq<Op>): seq<Outcome>
    decreases |ops|
  {
    if ops == [] then [] else var s := Step(u, l, ops[0]); [s.outcome] + Outcomes(s.layer, l, ops[1..])
  }

  function PlainRun(t: Layer, ops: seq<Op>): Layer
    decreases |ops|
  {
    if ops == [] then t else PlainRun(PlainStep(t, ops[0]).layer, ops[1..])
  }

  function PlainOutcomes(t: Layer, ops: seq<Op>): seq<Outcome>
    decreases |ops|
  {
    if ops == [] then [] else var s := PlainStep(t, ops[0]); [s.outcome] + PlainOutcomes(s.layer, ops[1..])
  }

  /** No step moves the root, and none brings a directory over a lower file that shows. */
  ghost predicate SoundRun(u: Layer, l: Layer, ops: seq<Op>)
    decreases |ops|
  {
    ops == [] || (!MovesRoot(ops[0]) && !Uncovering(u, l, ops[0]) && SoundRun(Step(u, l, ops[0]).layer, l, ops[1..]))
  }

  ghost predicate AgreeableRun(u: Layer, l: Layer, ops: seq<Op>)
    decreases |ops|
  {
    ops == [] ||
    (!MovesRoot(ops[0]) && Agreeable(u, l, ops[0]) && AgreeableRun(Step(u, l, ops[0]).layer, l, ops[1..]))
  }

  /** The state after the first k steps. */
  function After(u: Layer, l: Layer, ops: seq<Op>, k: nat): Layer
    requires k <= |ops|
  {
    Run(u, l, ops[..k])
  }

  lemma {:induction false} RunSimulates(u: Layer, l: Layer, ops: seq<Op>)
    requires Layered(u, l) && AgreeableRun(u, l, ops)
    ensures Layered(Run(u, l, ops), l)
    ensures View(Run(u, l, ops), l) == PlainRun(View(u, l), ops)
    ensures Outcomes(u, l, ops) == PlainOutcomes(View(u, l), ops)
    decreases |ops|
  {
    if ops != [] {
      StepSimulates(u, l, ops[0]);
      RunSimulates(Step(u, l, ops[0]).layer, l, ops[1..]);
    }
  }

  lemma {:induction false} RunSplits(u: Layer, l: Layer, ops: seq<Op>, k: nat)
    requires k < |ops|
    ensures After(u, l, ops, k + 1) == Step(After(u, l, ops, k), l, ops[k]).layer
    ensures SoundRun(u, l, ops) ==> !MovesRoot(ops[k]) && !Uncovering(After(u, l, ops, k), l, ops[k])
    decreases |ops|
  {
    if k > 0 {
      RunSplits(Step(u, l, ops[0]).layer, l, ops[1..], k - 1);
      assert ops[..k][1..] == ops[1..][..k - 1] && ops[..k + 1][1..] == ops[1..][..k];
    } else {
      var one := ops[..k + 1];
      assert ops[..k] == [] && one[0] == ops[0] && one[1..] == [];
      assert Run(u, l, ops[..k]) == u && Run(u, l, one) == Run(Step(u, l, ops[0]).layer, l, []);
    }
  }

  /** Until a step brings something back, the layers stay sound and nothing resurfaces. */
  lemma {:induction false} HidesUpTo(u: Layer, l: Layer, ops: seq<Op>, early: nat, late: nat)
    requires Layered(u, l) && SoundRun(u, l, ops) && early <= late <= |ops|
    requires forall k | 0 <= k < late :: !Resurrecting(After(u, l, ops, k), l, ops[k])
    ensures Layered(After(u, l, ops, late), l)
    ensures NothingResurfaces(After(u, l, ops, early), After(u, l, ops, late), l)
    decreases late
  {
    if late == 0 {
      assert ops[..0] == [];
    } else {
      var before := After(u, l, ops, late - 1);
      HidesUpTo(u, l, ops, if early < late then early else early - 1, late - 1);
      RunSplits(u, l, ops, late - 1);
      hide After, Step, Layered, Exposed, Uncovering, View, SoundRun;
      StepHides(before, l, ops[late - 1]);
    }
  }

  /** What was hidden at one moment of a run is hidden at every later one. */
  ghost predicate StaysHidden(u: Layer, l: Layer, ops: seq<Op>) {
    forall early: nat, late: nat {:trigger After(u, l, ops, early), After(u, l, ops, late)} | early <= late <= |ops| ::
      NothingResurfaces(After(u, l, ops, early), After(u, l, ops, late), l)
  }

  ghost predicate Resurrectionless(u: Layer, l: Layer, ops: seq<Op>) {
    forall k: nat {:trigger After(u, l, ops, k)} | k < |ops| :: !Resurrecting(After(u, l, ops, k), l, ops[k])
  }

  lemma FirstResurrection(u: Layer, l: Layer, ops: seq<Op>, k: nat) returns (first: nat)
    requires k < |ops| && Resurrecting(After(u, l, ops, k), l, ops[k])
    ensures first < |ops| && Resurrecting(After(u, l, ops, first), l, ops[first])
    ensures forall j: nat | j < first :: !Resurrecting(After(u, l, ops, j), l, ops[j])
    decreases k
  {
    if j: nat :| j < k && Resurrecting(After(u, l, ops, j), l, ops[j]) {
      first := FirstResurrection(u, l, ops, j);
    } else {
      first := k;
    }
  }

  /** No resurrection: over a run, what was hidden stays hidden if and only if no step brings it back. */
  lemma RunHides(u: Layer, l: Layer, ops: seq<Op>)
    requires Layered(u, l) && SoundRun(u, l, ops)
    ensures StaysHidden(u, l, ops) <==> Resurrectionless(u, l, ops)
  {
    hide After, Resurrecting, Layered, SoundRun, Exposed, NothingResurfaces;
    if Resurrectionless(u, l, ops) {
      forall early: nat, late: nat | early <= late <= |ops|
        ensures NothingResurfaces(After(u, l, ops, early), After(u, l, ops, late), l)
      {
        HidesUpTo(u, l, ops, early, late);
      }
    } else {
      var k: nat :| k < |ops| && Resurrecting(After(u, l, ops, k), l, ops[k]);
      var first := FirstResurrection(u, l, ops, k);
      HidesUpTo(u, l, ops, first, first);
      RunSplits(u, l, ops, first);
      StepHides(After(u, l, ops, first), l, ops[first]);
      assert !NothingResurfaces(After(u, l, ops, first), After(u, l, ops, first + 1), l);
    }
  }

  /** The upper layer of a fresh overlay. */
  const EMPTY: Layer := map[ROOT := Dir]

  lemma {:induction false} NothingHidden(l: Layer, p: Path)
    ensures !WhitedOut(EMPTY, p) && !FileAbove(EMPTY, p)
    decreases |p|
  {
    if p != ROOT {
      NothingHidden(l, Parent(p));
      MarkerReserved(p);
    }
  }

  lemma FreshOverlay(l: Layer)
    requires WellFormed(l) && forall p | p in l :: !Reserved(p)
    ensures Layered(EMPTY, l) && View(EMPTY, l) == l && forall p | p in l :: Exposed(EMPTY, l, p)
  {
    assert !Reserved(ROOT);
    forall p ensures !WhitedOut(EMPTY, p) && !FileAbove(EMPTY, p) { NothingHidden(l, p); }
    assert View(EMPTY, l) == l;
  }

  /** Started over an empty upper layer, an overlay answers every operation of a run, and shows at its end,
      what a plain tree holding the lower layer would. */
  lemma FreshRunSimulates(l: Layer, ops: seq<Op>)
    requires WellFormed(l) && forall p | p in l :: !Reserved(p)
    requires AgreeableRun(EMPTY, l, ops)
    ensures Outcomes(EMPTY, l, ops) == PlainOutcomes(l, ops)
    ensures View(Run(EMPTY, l, ops), l) == PlainRun(l, ops)
  {
    FreshOverlay(l);
    RunSimulates(EMPTY, l, ops);
  }

  /** From an empty upper layer on, hidden lower entries stay hidden exactly on the runs in which no Remove
      meets a directory that looks empty, is not, and keeps something hidden. */
  lemma HiddenStaysHidden(l: Layer, ops: seq<Op>)
    requires WellFormed(l) && forall q | q in l :: !Reserved(q)
    requires SoundRun(EMPTY, l, ops)
    ensures StaysHidden(EMPTY, l, ops) <==> Resurrectionless(EMPTY, l, ops)
  {
    FreshOverlay(l);
    RunHides(EMPTY, l, ops);
  }

  // -------------------------------------------------------- a run that brings back

  /** What such a Remove does: it fails, and every lower entry that only markers in the directory hid is
      back, whether the upper layer has remade it or not. */
  lemma LostEntriesResurface(u: Layer, l: Layer, p: Path, q: Path, r: Path)
    requires Layered(u, l) && p != ROOT && !Reserved(p) && LooksEmpty(u, View(u, l), p)
    requires Parent(q) == p && HiddenOnlyBy(u, l, q, r)
    ensures var s := Layers.Remove(u, l, p);
      s.outcome == Failed(NotEmpty) && !Exposed(u, l, r) && Exposed(s.layer, l, r)
  {
    RemoveOfLost(u, l, p);
    ClearedExposes(u, l, p, r);
  }
}

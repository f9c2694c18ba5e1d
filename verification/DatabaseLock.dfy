/** The lock per database file of internal/commands/sqlite/sqlite.go: the records its critical sections keep,
    and the protocol of its callers over every interleaving of their atomic steps. */
module DatabaseLock {

  /** A caller is known by the channel it waits on; channels are numbered as callers arrive. */
  type Caller = nat

  datatype Record = Record(held: bool, waiters: seq<Caller>)

  /** The map of records and the channels that were closed to wake their callers. */
  datatype Locks = Locks(records: map<string, Record>, closed: set<Caller>)

  // ------------------------------------------------------- critical sections

  /** Taking the lock, or queueing up for it. */
  function Entered(k: Locks, p: string, c: Caller): (Locks, bool) {
    var r := if p in k.records then k.records[p] else Record(false, []);
    if r.held then (k.(records := k.records[p := r.(waiters := r.waiters + [c])]), false)
    else (k.(records := k.records[p := r.(held := true)]), true)
  }

  function Removed(waiters: seq<Caller>, c: Caller): seq<Caller> {
    if waiters == [] then []
    else if waiters[0] == c then waiters[1..]
    else [waiters[0]] + Removed(waiters[1..], c)
  }

  /** Leaving the queue. */
  function Left(k: Locks, p: string, c: Caller): Locks {
    if p in k.records then
      k.(records := k.records[p := k.records[p].(waiters := Removed(k.records[p].waiters, c))])
    else k
  }

  /** Handing the lock to the first in the queue, or dropping the record. */
  function Released(k: Locks, p: string): Locks {
    if p !in k.records then k
    else
      var waiters := k.records[p].waiters;
      if waiters != [] then
        Locks(k.records[p := k.records[p].(waiters := waiters[1..])], k.closed + {waiters[0]})
      else k.(records := k.records - {p})
  }

  lemma {:induction false} RemovedAt(waiters: seq<Caller>, i: nat)
    requires i < |waiters| && waiters[i] !in waiters[..i]
    ensures Removed(waiters, waiters[i]) == waiters[..i] + waiters[i + 1..]
    decreases i
  {
    if i > 0 {
      assert waiters[0] in waiters[..i];
      assert waiters[1..][i - 1] == waiters[i] && waiters[1..][..i - 1] == waiters[..i][1..];
      RemovedAt(waiters[1..], i - 1);
      assert waiters[1..][i..] == waiters[i + 1..];
      assert waiters[..i] == [waiters[0]] + waiters[..i][1..];
    }
  }

  lemma {:induction false} RemovedNothing(waiters: seq<Caller>, c: Caller)
    requires c !in waiters
    ensures Removed(waiters, c) == waiters
    decreases |waiters|
  {
    if waiters != [] {
      assert waiters[0] in waiters && forall d | d in waiters[1..] :: d in waiters;
      RemovedNothing(waiters[1..], c);
    }
  }

  class LockSet {
    var records: map<string, Record>
    var closed: set<Caller>

    function State(): Locks
      reads this
    {
      Locks(records, closed)
    }

    constructor ()
      ensures State() == Locks(map[], {})
    {
      records, closed := map[], {};
    }

    /** The critical section of acquireLock. */
    method Enter(p: string, wait: Caller) returns (taken: bool)
      modifies this`records
      ensures (State(), taken) == Entered(old(State()), p, wait)
    {
      if p !in records {
        records := records[p := Record(false, [])];
      }
      var l := records[p];
      if !l.held {
        records := records[p := l.(held := true)];
        assert records == old(records)[p := l.(held := true)];
        return true;
      }
      records := records[p := l.(waiters := l.waiters + [wait])];
      return false;
    }

    /** The critical section of a caller that gives up waiting. */
    method Leave(p: string, wait: Caller)
      modifies this`records
      ensures State() == Left(old(State()), p, wait)
    {
      if p !in records {
        return;
      }
      var waiters := records[p].waiters;
      for i := 0 to |waiters|
        invariant records == old(records) && wait !in waiters[..i]
      {
        if waiters[i] == wait {
          RemovedAt(waiters, i);
          records := records[p := records[p].(waiters := waiters[..i] + waiters[i + 1..])];
          return;
        }
      }
      assert waiters[..|waiters|] == waiters;
      RemovedNothing(waiters, wait);
      assert records[p := records[p]] == records;
    }

    method Release(p: string)
      modifies this
      ensures State() == Released(old(State()), p)
    {
      if p !in records {
        return;
      }
      var l := records[p];
      if |l.waiters| > 0 {
        var next := l.waiters[0];
        records := records[p := l.(waiters := l.waiters[1..])];
        closed := closed + {next};
        return;
      }
      records := records - {p};
    }
  }

  // ----------------------------------------------------------- the protocol

  datatype Phase = Waiting | Owning | Finished | Canceled

  datatype Client = Client(path: string, phase: Phase)

  datatype System = System(locks: Locks, clients: map<Caller, Client>)

  datatype Step =
    | Arrive(caller: Caller, path: string)
    | Proceed(caller: Caller)
    | Cancel(caller: Caller)
    | Finish(caller: Caller)

  const START := System(Locks(map[], {}), map[])

  predicate InPhase(s: System, c: Caller, phase: Phase) {
    c in s.clients && s.clients[c].phase == phase
  }

  /** Callers arrive in the order of their numbers; a woken caller may still prefer its context. */
  ghost predicate Enabled(s: System, step: Step) {
    match step
    case Arrive(c, _) => forall d | d in s.clients :: d < c
    case Proceed(c) => InPhase(s, c, Waiting) && c in s.locks.closed
    case Cancel(c) => InPhase(s, c, Waiting)
    case Finish(c) => InPhase(s, c, Owning)
  }

  function Next(s: System, step: Step): System
    requires step.Arrive? || step.caller in s.clients
  {
    var c := step.caller;
    match step
    case Arrive(_, p) =>
      var (locks, taken) := Entered(s.locks, p, c);
      System(locks, s.clients[c := Client(p, if taken then Owning else Waiting)])
    case Proceed(_) => s.(clients := s.clients[c := s.clients[c].(phase := Owning)])
    case Cancel(_) =>
      System(Left(s.locks, s.clients[c].path, c), s.clients[c := s.clients[c].(phase := Canceled)])
    case Finish(_) =>
      System(Released(s.locks, s.clients[c].path), s.clients[c := s.clients[c].(phase := Finished)])
  }

  /** In the queue. */
  predicate Queued(s: System, c: Caller, p: string) {
    InPhase(s, c, Waiting) && s.clients[c].path == p && c !in s.locks.closed
  }

  /** Owning the lock, or woken to own it. */
  predicate Claims(s: System, c: Caller, p: string) {
    c in s.clients && s.clients[c].path == p
    && (s.clients[c].phase == Owning || (s.clients[c].phase == Waiting && c in s.locks.closed))
  }

  predicate Served(s: System, c: Caller, p: string) {
    Claims(s, c, p) || (InPhase(s, c, Finished) && s.clients[c].path == p)
  }

  ghost predicate Increasing(waiters: seq<Caller>) {
    forall i, j | 0 <= i < j < |waiters| :: waiters[i] < waiters[j]
  }

  /** A record stands for a held lock, and its queue is exactly the callers waiting for it, in order. */
  ghost predicate RecordAgrees(s: System, p: string) {
    p in s.locks.records ==>
      var r := s.locks.records[p];
      r.held && Increasing(r.waiters) && forall c :: c in r.waiters <==> Queued(s, c, p)
  }

  ghost predicate HasRecord(s: System, c: Caller, p: string) {
    Queued(s, c, p) || Claims(s, c, p) ==> p in s.locks.records
  }

  ghost predicate OneOwner(s: System, c: Caller, d: Caller, p: string) {
    Claims(s, c, p) && Claims(s, d, p) ==> c == d
  }

  /** Whoever was served arrived before everyone still in the queue. */
  ghost predicate InOrder(s: System, c: Caller, d: Caller, p: string) {
    Served(s, c, p) && Queued(s, d, p) ==> c < d
  }

  ghost predicate Safe(s: System) {
    && s.locks.closed <= s.clients.Keys
    && (forall p {:trigger RecordAgrees(s, p)} :: RecordAgrees(s, p))
    && (forall c, p {:trigger HasRecord(s, c, p)} :: HasRecord(s, c, p))
    && (forall c, d, p {:trigger OneOwner(s, c, d, p)} :: OneOwner(s, c, d, p))
    && (forall c, d, p {:trigger InOrder(s, c, d, p)} :: InOrder(s, c, d, p))
  }

  lemma SafeStart()
    ensures Safe(START)
  {
  }

  lemma FirstIncreasing(first: Caller, rest: seq<Caller>)
    requires Increasing(rest) && forall d | d in rest :: first < d
    ensures Increasing([first] + rest)
  {
    var all := [first] + rest;
    assert forall k | 0 < k < |all| :: all[k] == rest[k - 1] && rest[k - 1] in rest;
  }

  lemma {:induction false} RemovedOf(waiters: seq<Caller>, c: Caller)
    requires Increasing(waiters)
    ensures Increasing(Removed(waiters, c)) && forall d :: d in Removed(waiters, c) <==> d in waiters && d != c
    decreases |waiters|
  {
    if waiters != [] {
      var first, rest := waiters[0], waiters[1..];
      assert forall d :: d in waiters <==> d == first || d in rest;
      assert forall d | d in rest :: first < d;
      RemovedOf(rest, c);
      FirstIncreasing(first, Removed(rest, c));
    }
  }

  /** Who is in the queue and who claims the lock once a caller arrived. */
  lemma ArriveMoves(s: System, c: Caller, p: string, d: Caller, q: string)
    requires Safe(s) && Enabled(s, Arrive(c, p))
    ensures var t, busy := Next(s, Arrive(c, p)), p in s.locks.records;
      && (Queued(t, d, q) <==> Queued(s, d, q) || (d == c && q == p && busy))
      && (Claims(t, d, q) <==> Claims(s, d, q) || (d == c && q == p && !busy))
      && (Served(t, d, q) <==> Served(s, d, q) || (d == c && q == p && !busy))
      && (Queued(s, d, q) || Served(s, d, q) ==> d < c)
  {
    assert RecordAgrees(s, p);
  }

  lemma ArriveSafe(s: System, c: Caller, p: string)
    requires Safe(s) && Enabled(s, Arrive(c, p))
    ensures Safe(Next(s, Arrive(c, p)))
  {
    var t := Next(s, Arrive(c, p));
    assert RecordAgrees(s, p);
    forall q ensures RecordAgrees(t, q) {
      assert RecordAgrees(s, q);
      forall d ensures Queued(t, d, q) <==> Queued(s, d, q) || (d == c && q == p && p in s.locks.records) {
        ArriveMoves(s, c, p, d, q);
        assert HasRecord(s, d, q);
      }
      assert forall d | Queued(s, d, q) :: HasRecord(s, d, q);
      if q == p && p in s.locks.records {
        var waiters := s.locks.records[p].waiters;
        assert forall d :: d in waiters + [c] <==> d in waiters || d == c;
        forall i | 0 <= i < |waiters| ensures waiters[i] < c {
          assert waiters[i] in waiters && Queued(s, waiters[i], p);
        }
      }
    }
    hide Queued, Claims, Served;
    forall d, q ensures HasRecord(t, d, q) {
      ArriveMoves(s, c, p, d, q);
      assert HasRecord(s, d, q);
    }
    forall d, e, q ensures OneOwner(t, d, e, q) {
      ArriveMoves(s, c, p, d, q);
      ArriveMoves(s, c, p, e, q);
      assert OneOwner(s, d, e, q) && HasRecord(s, d, q) && HasRecord(s, e, q);
    }
    forall d, e, q ensures InOrder(t, d, e, q) {
      ArriveMoves(s, c, p, d, q);
      ArriveMoves(s, c, p, e, q);
      assert InOrder(s, d, e, q) && HasRecord(s, e, q);
    }
  }

  lemma ProceedSafe(s: System, c: Caller)
    requires Safe(s) && Enabled(s, Proceed(c))
    ensures Safe(Next(s, Proceed(c)))
  {
    var t := Next(s, Proceed(c));
    assert forall d, p :: Queued(t, d, p) == Queued(s, d, p) && Claims(t, d, p) == Claims(s, d, p);
    forall q ensures RecordAgrees(t, q) { assert RecordAgrees(s, q); }
    forall d, q ensures HasRecord(t, d, q) { assert HasRecord(s, d, q); }
    forall d, e, q ensures OneOwner(t, d, e, q) { assert OneOwner(s, d, e, q); }
    forall d, e, q ensures InOrder(t, d, e, q) { assert InOrder(s, d, e, q); }
  }

  lemma CancelSafe(s: System, c: Caller)
    requires Safe(s) && Enabled(s, Cancel(c))
    ensures Safe(Next(s, Cancel(c)))
  {
    var t, p := Next(s, Cancel(c)), s.clients[c].path;
    assert forall d, q ::
      Queued(t, d, q) == (Queued(s, d, q) && d != c) && Claims(t, d, q) == (Claims(s, d, q) && d != c);
    forall q ensures RecordAgrees(t, q) {
      assert RecordAgrees(s, q);
      if q in s.locks.records {
        RemovedOf(s.locks.records[q].waiters, c);
      }
    }
    forall d, q ensures HasRecord(t, d, q) { assert HasRecord(s, d, q); }
    forall d, e, q ensures OneOwner(t, d, e, q) { assert OneOwner(s, d, e, q); }
    forall d, e, q ensures InOrder(t, d, e, q) { assert InOrder(s, d, e, q); }
  }

  /** Who is in the queue and who claims the lock once its owner is done. */
  lemma FinishMoves(s: System, c: Caller, d: Caller, q: string)
    requires Safe(s) && Enabled(s, Finish(c))
    ensures var t, p := Next(s, Finish(c)), s.clients[c].path;
      && p in s.locks.records
      && var waiters := s.locks.records[p].waiters;
        && (Queued(t, d, q) <==> Queued(s, d, q) && !(waiters != [] && d == waiters[0]))
        && (Claims(t, d, q) <==> (Claims(s, d, q) && d != c) || (q == p && waiters != [] && d == waiters[0]))
  {
    var p := s.clients[c].path;
    assert HasRecord(s, c, p) && Claims(s, c, p);
    assert RecordAgrees(s, p);
    var waiters := s.locks.records[p].waiters;
    assert waiters != [] ==> waiters[0] in waiters;
  }

  lemma FinishSafe(s: System, c: Caller)
    requires Safe(s) && Enabled(s, Finish(c))
    ensures Safe(Next(s, Finish(c)))
  {
    var t, p := Next(s, Finish(c)), s.clients[c].path;
    FinishMoves(s, c, c, p);
    var waiters := s.locks.records[p].waiters;
    assert RecordAgrees(s, p);
    assert waiters != [] ==> waiters[0] in waiters && Queued(s, waiters[0], p);
    forall q ensures RecordAgrees(t, q) {
      assert RecordAgrees(s, q);
      forall d
        ensures Queued(t, d, q) <==> Queued(s, d, q) && !(waiters != [] && d == waiters[0])
      {
        FinishMoves(s, c, d, q);
      }
      if q == p && waiters != [] {
        assert forall d :: d in waiters <==> d == waiters[0] || d in waiters[1..];
      }
    }
    forall d, q ensures HasRecord(t, d, q) {
      FinishMoves(s, c, d, q);
      assert HasRecord(s, d, q) && OneOwner(s, c, d, q);
    }
    forall d, e, q ensures OneOwner(t, d, e, q) {
      FinishMoves(s, c, d, q);
      FinishMoves(s, c, e, q);
      assert OneOwner(s, d, e, q) && OneOwner(s, c, d, q) && OneOwner(s, c, e, q);
    }
    forall d, e, q ensures InOrder(t, d, e, q) {
      FinishMoves(s, c, d, q);
      FinishMoves(s, c, e, q);
      assert InOrder(s, d, e, q) && InOrder(s, c, e, q);
    }
  }

  // --------------------------------------------------------------------- runs

  ghost predicate Run(s: System, steps: seq<Step>, t: System)
    decreases |steps|
  {
    if steps == [] then s == t
    else Enabled(s, steps[0]) && Run(Next(s, steps[0]), steps[1..], t)
  }

  lemma StepSafe(s: System, step: Step)
    requires Safe(s) && Enabled(s, step)
    ensures Safe(Next(s, step))
  {
    match step
    case Arrive(c, p) => ArriveSafe(s, c, p);
    case Proceed(c) => ProceedSafe(s, c);
    case Cancel(c) => CancelSafe(s, c);
    case Finish(c) => FinishSafe(s, c);
  }

  lemma {:induction false} RunSafe(s: System, steps: seq<Step>, t: System)
    requires Safe(s) && Run(s, steps, t)
    ensures Safe(t)
    decreases |steps|
  {
    if steps != [] {
      StepSafe(s, steps[0]);
      RunSafe(Next(s, steps[0]), steps[1..], t);
    }
  }

  /** Over every interleaving a file has one owner at most, and nobody is served before an earlier arrival
      that is still waiting. */
  lemma OneOwnerInArrivalOrder(steps: seq<Step>, t: System, c: Caller, d: Caller, p: string)
    requires Run(START, steps, t)
    ensures Claims(t, c, p) && Claims(t, d, p) ==> c == d
    ensures Served(t, c, p) && Queued(t, d, p) ==> c < d
    ensures p in t.locks.records ==> forall e :: e in t.locks.records[p].waiters <==> Queued(t, e, p)
  {
    SafeStart();
    RunSafe(START, steps, t);
    assert RecordAgrees(t, p) && OneOwner(t, c, d, p) && InOrder(t, c, d, p);
  }

  // ------------------------------------------------- when the record is exact

  /** The lock was handed over to a caller that then takes the branch of its context. */
  predicate DropsLock(s: System, step: Step) {
    step.Cancel? && step.caller in s.locks.closed
  }

  /** A record is there exactly while someone owns the lock. */
  ghost predicate Exact(s: System, p: string) {
    p in s.locks.records <==> exists c :: Claims(s, c, p)
  }

  /** A lock nobody owns and nobody will: its record stays, so every later caller queues up. */
  ghost predicate Stuck(s: System, p: string) {
    p in s.locks.records && forall c :: !Claims(s, c, p)
  }

  lemma ExactIsNotStuck(s: System, p: string)
    requires Safe(s)
    ensures Exact(s, p) <==> !Stuck(s, p)
  {
    if c :| Claims(s, c, p) {
      assert HasRecord(s, c, p);
    }
  }

  /** Exactly the dropped hand-over breaks it. */
  lemma StepExact(s: System, step: Step, p: string)
    requires Safe(s) && Enabled(s, step) && Exact(s, p)
    ensures Exact(Next(s, step), p) <==> !(DropsLock(s, step) && s.clients[step.caller].path == p)
  {
    var t, c := Next(s, step), step.caller;
    assert RecordAgrees(s, p);
    StepSafe(s, step);
    ExactIsNotStuck(t, p);
    assert DropsLock(s, step) && s.clients[c].path == p ==> Claims(s, c, p);
    if exists d :: Claims(s, d, p) {
      var d :| Claims(s, d, p);
      match step
      case Arrive(_, q) => ArriveMoves(s, c, q, d, p);
      case Proceed(_) => assert Claims(t, d, p);
      case Cancel(_) =>
        forall e ensures (Claims(t, e, p) <==> Claims(s, e, p) && e != c) && OneOwner(s, c, e, p) {}
        assert p in s.locks.records ==> p in t.locks.records;
      case Finish(_) => FinishKeepsExact(s, c, d, p);
    } else {
      if step.Arrive? && step.path == p {
        assert Claims(t, c, p);
      }
    }
  }

  lemma FinishKeepsExact(s: System, c: Caller, d: Caller, p: string)
    requires Safe(s) && Enabled(s, Finish(c)) && Claims(s, d, p)
    ensures var t := Next(s, Finish(c)); p in t.locks.records ==> exists e :: Claims(t, e, p)
  {
    var t, q := Next(s, Finish(c)), s.clients[c].path;
    FinishMoves(s, c, d, p);
    assert OneOwner(s, c, d, p);
    if d == c {
      var waiters := s.locks.records[p].waiters;
      if waiters != [] {
        FinishMoves(s, c, waiters[0], p);
      }
    }
  }

  lemma StuckStays(s: System, step: Step, p: string)
    requires Safe(s) && Enabled(s, step) && Stuck(s, p)
    ensures Stuck(Next(s, step), p)
  {
    var t, c := Next(s, step), step.caller;
    assert RecordAgrees(s, p);
    match step
    case Arrive(_, q) =>
      forall d ensures !Claims(t, d, p) { ArriveMoves(s, c, q, d, p); }
    case Proceed(_) =>
      forall d ensures !Claims(t, d, p) { assert !Claims(s, d, p); }
    case Cancel(_) =>
      forall d ensures !Claims(t, d, p) { assert !Claims(s, d, p); }
    case Finish(_) =>
      assert !Claims(s, c, p);
      forall d ensures !Claims(t, d, p) { FinishMoves(s, c, d, p); }
      FinishMoves(s, c, c, p);
  }

  /** A dropped hand-over is for good: nobody owns the lock of that file ever again. */
  lemma {:induction false} DroppedForever(s: System, steps: seq<Step>, t: System, p: string)
    requires Safe(s) && Stuck(s, p) && Run(s, steps, t)
    ensures Stuck(t, p)
    decreases |steps|
  {
    if steps != [] {
      StepSafe(s, steps[0]);
      StuckStays(s, steps[0], p);
      DroppedForever(Next(s, steps[0]), steps[1..], t, p);
    }
  }

  /** No caller drops the lock of p when it was handed it. */
  ghost predicate NoDropOn(s: System, steps: seq<Step>, p: string)
    decreases |steps|
  {
    steps == [] ||
    (Enabled(s, steps[0]) ==>
      !(DropsLock(s, steps[0]) && s.clients[steps[0].caller].path == p) && NoDropOn(Next(s, steps[0]), steps[1..], p))
  }

  /** A record exists exactly while the lock is owned, so that nobody waits for a lock that is free, at the
      end of exactly those runs on which no caller drops the lock of that file. */
  lemma {:induction false} RunExact(s: System, steps: seq<Step>, t: System, p: string)
    requires Safe(s) && Run(s, steps, t) && Exact(s, p)
    ensures Exact(t, p) <==> NoDropOn(s, steps, p)
    ensures Exact(t, p) ==> forall c | Queued(t, c, p) :: exists d :: Claims(t, d, p)
    decreases |steps|
  {
    if steps != [] {
      var u := Next(s, steps[0]);
      StepSafe(s, steps[0]);
      StepExact(s, steps[0], p);
      if Exact(u, p) {
        RunExact(u, steps[1..], t, p);
      } else {
        ExactIsNotStuck(u, p);
        DroppedForever(u, steps[1..], t, p);
        RunSafe(u, steps[1..], t);
        ExactIsNotStuck(t, p);
      }
    } else {
      forall c | Queued(t, c, p) ensures Exact(t, p) ==> exists d :: Claims(t, d, p) { assert HasRecord(t, c, p); }
    }
  }

  /** The lock is passed on: when its owner is done the first caller in the queue can go on, and then owns it;
      with nobody in the queue the next one to arrive owns it at once. */
  lemma HandOver(s: System, c: Caller, d: Caller)
    requires Safe(s) && Enabled(s, Finish(c))
    ensures var t, p := Next(s, Finish(c)), s.clients[c].path;
      && (Queued(s, d, p) && (forall e | Queued(s, e, p) :: d <= e) ==>
            Enabled(t, Proceed(d)) && InPhase(Next(t, Proceed(d)), d, Owning))
      && ((forall e :: !Queued(s, e, p)) && Enabled(t, Arrive(d, p)) ==> InPhase(Next(t, Arrive(d, p)), d, Owning))
  {
    var p := s.clients[c].path;
    assert HasRecord(s, c, p) && RecordAgrees(s, p);
    var waiters := s.locks.records[p].waiters;
    if waiters != [] {
      assert waiters[0] in waiters;
      if d in waiters {
        var i :| 0 <= i < |waiters| && waiters[i] == d;
        assert waiters[0] <= d;
      }
    }
  }

  /** Every caller that is not done can take a step: an owner can finish, and who waits can give up. */
  lemma CallersProceed(s: System, c: Caller)
    requires c in s.clients
    ensures (exists step: Step :: !step.Arrive? && step.caller == c && Enabled(s, step))
      <==> InPhase(s, c, Waiting) || InPhase(s, c, Owning)
  {
    assert InPhase(s, c, Owning) ==> Enabled(s, Finish(c));
    assert InPhase(s, c, Waiting) ==> Enabled(s, Cancel(c));
  }

  /** Two callers are enough: the second is woken when the first is done, and then gives up. */
  lemma DropExample()
    ensures var s := Next(Next(START, Arrive(0, "d")), Arrive(1, "d"));
      var t := Next(Next(s, Finish(0)), Cancel(1));
      Run(START, [Arrive(0, "d"), Arrive(1, "d"), Finish(0), Cancel(1)], t) && Stuck(t, "d")
  {
  }
}

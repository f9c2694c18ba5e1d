/** The lock-free output budget of pkg/gash/limits.go and the buffers of pkg/gash/output.go that draw on it. */
module OutputBudget {

  function Least(a: int, b: int): (least: int)
    ensures least <= a && least <= b && (least == a || least == b)
  {
    if a < b then a else b
  }

  // ------------------------------------------------------------ one at a time

  class Budget {
    const maximum: nat
    var used: nat
    var exceeded: bool

    constructor (maximum: nat)
      ensures this.maximum == maximum && used == 0 && !exceeded
    {
      this.maximum, used, exceeded := maximum, 0, false;
    }

    ghost predicate Valid()
      reads this
    {
      used <= maximum && (exceeded ==> used == maximum)
    }

    method CompareAndSwap(expected: nat, replacement: nat) returns (swapped: bool)
      modifies this`used
      ensures swapped == (old(used) == expected)
      ensures used == if swapped then replacement else old(used)
    {
      if used != expected {
        return false;
      }
      used := replacement;
      return true;
    }

    /** Undisturbed, a call is granted what is asked for or what is left. */
    method Take(n: int) returns (granted: nat)
      requires Valid()
      modifies this`used, this`exceeded
      ensures Valid()
      ensures granted == if n <= 0 then 0 else Least(n, maximum - old(used))
      ensures used == old(used) + granted
      ensures exceeded <==> old(exceeded) || granted < n
    {
      if n <= 0 {
        return 0;
      }
      var retry := true;
      granted := 0;
      while retry
        invariant retry ==> used == old(used) && exceeded == old(exceeded)
        invariant !retry ==> granted == Least(n, maximum - old(used)) && granted > 0
        invariant !retry ==> used == old(used) + granted && (exceeded <==> old(exceeded) || granted < n)
        decreases retry
      {
        var loaded := used;
        var remaining := maximum - loaded;
        if remaining <= 0 {
          exceeded := true;
          return 0;
        }
        var take := Least(n, remaining);
        var swapped := CompareAndSwap(loaded, loaded + take);
        if swapped {
          if take < n {
            exceeded := true;
          }
          granted, retry := take, false;
        }
      }
    }
  }

  /** A writer that keeps what the budget grants and claims to have written all of it. */
  class BoundedBuffer {
    const budget: Budget
    var data: seq<bv8>

    constructor (budget: Budget)
      ensures this.budget == budget && data == []
    {
      this.budget, data := budget, [];
    }

    method Write(p: seq<bv8>) returns (written: nat)
      requires budget.Valid()
      modifies this`data, budget`used, budget`exceeded
      ensures budget.Valid() && written == |p|
      ensures var kept := Least(|p|, budget.maximum - old(budget.used));
        data == old(data) + p[..kept] && budget.used == old(budget.used) + kept
      ensures budget.exceeded <==> old(budget.exceeded) || old(budget.used) + |p| > budget.maximum
    {
      var allowed := budget.Take(|p|);
      data := data + p[..allowed];
      written := |p|;
    }
  }

  const TIMED_OUT: seq<bv8> := Octets("bash: execution timed out\n")
  const EXCEEDED: seq<bv8> := Octets("bash: output size limit exceeded\n")

  function Octets(text: string): seq<bv8> {
    seq(|text|, i requires 0 <= i < |text| => (text[i] as int % 256) as bv8)
  }

  /** What a text is as bytes, one for one. */
  ghost predicate Spells(bytes: seq<bv8>, text: string) {
    |bytes| == |text| && forall i | 0 <= i < |text| :: bytes[i] as int == text[i] as int
  }

  lemma OctetsSpell(text: string)
    requires forall i | 0 <= i < |text| :: text[i] as int < 128
    ensures Spells(Octets(text), text)
  {
    forall i | 0 <= i < |text| ensures Octets(text)[i] as int == text[i] as int {
      assert 0 <= text[i] as int < 128;
    }
  }

  lemma DiagnosticsSpell()
    ensures Spells(TIMED_OUT, "bash: execution timed out\n")
    ensures Spells(EXCEEDED, "bash: output size limit exceeded\n")
  {
    OctetsSpell("bash: execution timed out\n");
    OctetsSpell("bash: output size limit exceeded\n");
  }

  /** The end of an execution: its last diagnostics are paid from the budget too, so both outputs together
      stay within it, and an overdrawn budget decides the exit code. */
  method Conclude(out: BoundedBuffer, errout: BoundedBuffer, code: int, timedOut: bool) returns (exit: int)
    requires out != errout && out.budget == errout.budget && out.budget.Valid()
    modifies errout`data, errout.budget`used, errout.budget`exceeded
    ensures |errout.data| - old(|errout.data|) == out.budget.used - old(out.budget.used)
    ensures old(|out.data| + |errout.data| == out.budget.used) ==>
      |out.data| + |errout.data| == out.budget.used <= out.budget.maximum
    ensures var room := out.budget.maximum - old(out.budget.used);
      var cut := if timedOut then TIMED_OUT[..Least(|TIMED_OUT|, room)] else [];
      errout.data == old(errout.data) + cut +
        if out.budget.exceeded then EXCEEDED[..Least(|EXCEEDED|, room - |cut|)] else []
    ensures var late := timedOut && old(out.budget.used) + |TIMED_OUT| > out.budget.maximum;
      exit == if old(out.budget.exceeded) || late then 126 else if timedOut then 124 else code
  {
    exit := code;
    if timedOut {
      var _ := errout.Write(TIMED_OUT);
      exit := 124;
    }
    if out.budget.exceeded {
      var _ := errout.Write(EXCEEDED);
      exit := 126;
    }
  }

  // ------------------------------------------------------- all interleavings

  /** Where a call stands between its atomic steps. */
  datatype Phase =
    | Ready
    | Loaded(snapshot: nat)
    | Marking(taken: nat)
    | Returned(granted: nat)

  datatype Call = Call(request: int, phase: Phase)

  datatype System = System(maximum: nat, used: nat, exceeded: bool, calls: seq<Call>)

  /** The steps a call takes: it loads the counter, gives up on a full budget or tries to swap its share in,
      and raises the flag when that share is short. */
  datatype Step = Load(call: nat) | GiveUp(call: nat) | Swap(call: nat) | Raise(call: nat)

  predicate Enabled(s: System, step: Step) {
    step.call < |s.calls| &&
    var c := s.calls[step.call];
    match step
    case Load(_) => c.phase.Ready?
    case GiveUp(_) => c.phase.Loaded? && s.maximum - c.phase.snapshot <= 0
    case Swap(_) => c.phase.Loaded? && s.maximum - c.phase.snapshot > 0
    case Raise(_) => c.phase.Marking?
  }

  function Moved(s: System, i: nat, phase: Phase): System
    requires i < |s.calls|
  {
    s.(calls := s.calls[i := s.calls[i].(phase := phase)])
  }

  function Next(s: System, step: Step): System
    requires Enabled(s, step)
  {
    var i := step.call;
    var c := s.calls[i];
    match step
    case Load(_) => Moved(s, i, if c.request <= 0 then Returned(0) else Loaded(s.used))
    case GiveUp(_) => Moved(s, i, Returned(0)).(exceeded := true)
    case Swap(_) =>
      var take := Least(Positive(c.request), s.maximum - c.phase.snapshot);
      if s.used != c.phase.snapshot then Moved(s, i, Ready)
      else Moved(s, i, if take < c.request then Marking(take) else Returned(take)).(used := s.used + take)
    case Raise(_) => Moved(s, i, Returned(c.phase.taken)).(exceeded := true)
  }

  function Granted(c: Call): nat {
    match c.phase
    case Marking(taken) => taken
    case Returned(granted) => granted
    case _ => 0
  }

  function AllGranted(calls: seq<Call>): nat {
    if calls == [] then 0 else Granted(calls[0]) + AllGranted(calls[1..])
  }

  function Positive(n: int): nat {
    if n > 0 then n else 0
  }

  function AllRequested(calls: seq<Call>): nat {
    if calls == [] then 0 else Positive(calls[0].request) + AllRequested(calls[1..])
  }

  /** What is granted never exceeds what was asked for; a short grant fills the budget and raises the flag. */
  ghost predicate CallAgrees(s: System, c: Call) {
    match c.phase
    case Ready => true
    case Loaded(snapshot) => c.request > 0 && snapshot <= s.used
    case Marking(taken) => taken < c.request && s.used == s.maximum
    case Returned(granted) => granted <= Positive(c.request) && (granted < Positive(c.request) ==> s.exceeded)
  }

  predicate CutShort(c: Call) {
    c.phase.Returned? && c.phase.granted < Positive(c.request)
  }

  ghost predicate Safe(s: System) {
    && s.used == AllGranted(s.calls) && s.used <= s.maximum
    && (s.exceeded ==> s.used == s.maximum && exists i :: 0 <= i < |s.calls| && CutShort(s.calls[i]))
    && forall i | 0 <= i < |s.calls| :: CallAgrees(s, s.calls[i])
  }

  lemma {:induction false} GrantedUpdate(calls: seq<Call>, i: nat, c: Call)
    requires i < |calls|
    ensures AllGranted(calls[i := c]) == AllGranted(calls) - Granted(calls[i]) + Granted(c)
    decreases i
  {
    if i == 0 {
      assert calls[0 := c][1..] == calls[1..];
    } else {
      assert calls[i := c][1..] == calls[1..][i - 1 := c];
      GrantedUpdate(calls[1..], i - 1, c);
    }
  }

  /** One call moves, in agreement with the budget it leaves behind. */
  lemma CallMoves(s: System, step: Step)
    requires Enabled(s, step) && s.used <= s.maximum && CallAgrees(s, s.calls[step.call])
    requires s.exceeded ==> s.used == s.maximum
    ensures var i, t := step.call, Next(s, step);
      && |t.calls| == |s.calls| && t.calls == s.calls[i := t.calls[i]] && t.maximum == s.maximum
      && t.used == s.used - Granted(s.calls[i]) + Granted(t.calls[i]) && s.used <= t.used <= t.maximum
      && (t.exceeded ==> t.used == t.maximum) && (s.exceeded ==> t.exceeded)
      && (t.exceeded ==> s.exceeded || CutShort(t.calls[i]))
      && CallAgrees(t, t.calls[i]) && !CutShort(s.calls[i])
  {
  }

  lemma StepSafe(s: System, step: Step)
    requires Safe(s) && Enabled(s, step)
    ensures Safe(Next(s, step)) && Next(s, step).maximum == s.maximum && s.used <= Next(s, step).used
  {
    var i, t := step.call, Next(s, step);
    CallMoves(s, step);
    GrantedUpdate(s.calls, i, t.calls[i]);
    hide AllGranted, Next;
    forall k | 0 <= k < |t.calls| ensures CallAgrees(t, t.calls[k]) { assert CallAgrees(s, s.calls[k]); }
    if s.exceeded {
      var k :| 0 <= k < |s.calls| && CutShort(s.calls[k]);
      assert t.calls[k] == s.calls[k];
    }
  }

  /** A run from a fresh budget with any number of calls. */
  ghost predicate Run(s: System, steps: seq<Step>, t: System)
    decreases |steps|
  {
    if steps == [] then s == t
    else Enabled(s, steps[0]) && Run(Next(s, steps[0]), steps[1..], t)
  }

  lemma {:induction false} RunSafe(s: System, steps: seq<Step>, t: System)
    requires Safe(s) && Run(s, steps, t)
    ensures Safe(t) && t.maximum == s.maximum
    decreases |steps|
  {
    if steps != [] {
      StepSafe(s, steps[0]);
      RunSafe(Next(s, steps[0]), steps[1..], t);
    }
  }

  function Fresh(maximum: nat, requests: seq<int>): System {
    System(maximum, 0, false, seq(|requests|, i requires 0 <= i < |requests| => Call(requests[i], Ready)))
  }

  lemma {:induction false} NothingGranted(calls: seq<Call>)
    requires forall i | 0 <= i < |calls| :: calls[i].phase == Ready
    ensures AllGranted(calls) == 0
    decreases |calls|
  {
    if calls != [] {
      NothingGranted(calls[1..]);
    }
  }

  /** Over every interleaving the grants add up to the counter and stay within the maximum, and the flag is
      only ever raised on a full budget. */
  lemma GrantsWithinMaximum(maximum: nat, requests: seq<int>, steps: seq<Step>, t: System)
    requires Run(Fresh(maximum, requests), steps, t)
    ensures AllGranted(t.calls) == t.used <= maximum && (t.exceeded ==> t.used == maximum)
  {
    NothingGranted(Fresh(maximum, requests).calls);
    RunSafe(Fresh(maximum, requests), steps, t);
  }

  lemma {:induction false} GrantsAndRequests(calls: seq<Call>)
    requires forall i | 0 <= i < |calls| ::
      calls[i].phase.Returned? && calls[i].phase.granted <= Positive(calls[i].request)
    ensures AllGranted(calls) <= AllRequested(calls)
    ensures AllGranted(calls) == AllRequested(calls) <==> forall i | 0 <= i < |calls| :: !CutShort(calls[i])
    decreases |calls|
  {
    if calls != [] {
      GrantsAndRequests(calls[1..]);
      assert forall i | 0 <= i < |calls| - 1 :: calls[1..][i] == calls[i + 1];
      if i :| 0 <= i < |calls| && CutShort(calls[i]) {
        if i > 0 {
          assert CutShort(calls[1..][i - 1]);
        }
      }
    }
  }

  lemma {:induction false} RequestsKept(s: System, steps: seq<Step>, t: System)
    requires Run(s, steps, t)
    ensures |t.calls| == |s.calls| && forall i | 0 <= i < |s.calls| :: t.calls[i].request == s.calls[i].request
    decreases |steps|
  {
    if steps != [] {
      RequestsKept(Next(s, steps[0]), steps[1..], t);
    }
  }

  /** Once all calls have returned, the flag tells exactly whether more was asked for than there was. */
  lemma FlagIsExact(maximum: nat, requests: seq<int>, steps: seq<Step>, t: System)
    requires Run(Fresh(maximum, requests), steps, t)
    requires forall i | 0 <= i < |t.calls| :: t.calls[i].phase.Returned?
    ensures t.exceeded <==> AllRequested(t.calls) > maximum
    ensures AllGranted(t.calls) == Least(AllRequested(t.calls), maximum)
    ensures |t.calls| == |requests| && forall i | 0 <= i < |requests| :: t.calls[i].request == requests[i]
  {
    NothingGranted(Fresh(maximum, requests).calls);
    RunSafe(Fresh(maximum, requests), steps, t);
    RequestsKept(Fresh(maximum, requests), steps, t);
    assert forall i | 0 <= i < |t.calls| :: CallAgrees(t, t.calls[i]);
    GrantsAndRequests(t.calls);
  }

  // --------------------------------------------------- both buffers, all writers

  /** One call of Write on one of the two buffers. */
  datatype Request = Request(toErrors: bool, payload: seq<bv8>)

  /** An execution under way: the calls on the budget, one per write, which of them hold the lock of their
      buffer, which have appended, and the two buffers. */
  datatype Output = Output(
    budget: System, requests: seq<Request>, holders: map<bool, nat>, stored: seq<bool>, out: seq<bv8>, errout: seq<bv8>)

  /** A write locks its buffer, takes from the budget step by step, and appends what it was granted and
      unlocks. */
  datatype Action = Enter(write: nat) | Draw(step: Step) | Append(write: nat)

  predicate Holds(o: Output, i: nat) {
    i < |o.requests| && o.requests[i].toErrors in o.holders && o.holders[o.requests[i].toErrors] == i
  }

  /** One call and one mark for every write, asking for as much as it has to write. */
  ghost predicate Shaped(o: Output) {
    && |o.requests| == |o.stored| == |o.budget.calls|
    && forall i | 0 <= i < |o.requests| :: o.budget.calls[i].request == |o.requests[i].payload|
  }

  predicate Unwritten(o: Output, i: nat) {
    i < |o.requests| && i < |o.stored| && !o.stored[i]
  }

  predicate Possible(o: Output, a: Action) {
    match a
    case Enter(i) => Unwritten(o, i) && o.requests[i].toErrors !in o.holders
    case Draw(step) => Enabled(o.budget, step) && Holds(o, step.call)
    case Append(i) => Unwritten(o, i) && Holds(o, i) && i < |o.budget.calls| && o.budget.calls[i].phase.Returned?
  }

  function Prefix(data: seq<bv8>, n: nat): seq<bv8> {
    if n <= |data| then data[..n] else data
  }

  function Act(o: Output, a: Action): Output
    requires Possible(o, a)
  {
    match a
    case Enter(i) => o.(holders := o.holders[o.requests[i].toErrors := i])
    case Draw(step) => o.(budget := Next(o.budget, step))
    case Append(i) =>
      var r := o.requests[i];
      var kept := Prefix(r.payload, Granted(o.budget.calls[i]));
      var unlocked := o.(holders := o.holders - {r.toErrors}, stored := o.stored[i := true]);
      if r.toErrors then unlocked.(errout := o.errout + kept) else unlocked.(out := o.out + kept)
  }

  /** The bytes granted to writes that have appended. */
  function StoredGrants(calls: seq<Call>, stored: seq<bool>): nat
    requires |calls| == |stored|
  {
    if calls == [] then 0 else (if stored[0] then Granted(calls[0]) else 0) + StoredGrants(calls[1..], stored[1..])
  }

  lemma {:induction false} StoredUpdate(calls: seq<Call>, stored: seq<bool>, i: nat, c: Call, mark: bool)
    requires |calls| == |stored| && i < |calls|
    ensures StoredGrants(calls[i := c], stored[i := mark]) ==
      StoredGrants(calls, stored) - (if stored[i] then Granted(calls[i]) else 0) + if mark then Granted(c) else 0
    decreases i
  {
    if i == 0 {
      assert calls[0 := c][1..] == calls[1..] && stored[0 := mark][1..] == stored[1..];
    } else {
      assert calls[i := c][1..] == calls[1..][i - 1 := c] && stored[i := mark][1..] == stored[1..][i - 1 := mark];
      StoredUpdate(calls[1..], stored[1..], i - 1, c, mark);
    }
  }

  lemma {:induction false} StoredIsGranted(calls: seq<Call>, stored: seq<bool>)
    requires |calls| == |stored|
    ensures StoredGrants(calls, stored) <= AllGranted(calls)
    ensures (forall i | 0 <= i < |stored| :: stored[i]) ==> StoredGrants(calls, stored) == AllGranted(calls)
    decreases |calls|
  {
    if calls != [] {
      StoredIsGranted(calls[1..], stored[1..]);
    }
  }

  /** What holds between any two actions: the buffers hold exactly the grants of the writes that have
      appended, and only returned calls have. */
  ghost predicate Sound(o: Output) {
    && Shaped(o) && Safe(o.budget)
    && |o.out| + |o.errout| == StoredGrants(o.budget.calls, o.stored)
    && forall i | 0 <= i < |o.stored| && o.stored[i] :: o.budget.calls[i].phase.Returned?
  }

  /** No write is granted more than it has to write. */
  lemma GrantFits(o: Output, i: nat)
    requires Sound(o) && i < |o.requests| && o.budget.calls[i].phase.Returned?
    ensures Granted(o.budget.calls[i]) <= |o.requests[i].payload|
  {
    assert CallAgrees(o.budget, o.budget.calls[i]);
  }

  /** A step of a call touches that call alone, which has not returned before. */
  lemma DrawMoves(s: System, step: Step)
    requires Enabled(s, step)
    ensures var i, t := step.call, Next(s, step);
      && !s.calls[i].phase.Returned? && |t.calls| == |s.calls| && t.calls == s.calls[i := t.calls[i]]
      && t.calls[i].request == s.calls[i].request
  {
  }

  lemma ActSound(o: Output, a: Action)
    requires Sound(o) && Possible(o, a)
    ensures Sound(Act(o, a)) && Act(o, a).budget.maximum == o.budget.maximum
  {
    hide Safe, AllGranted;
    match a
    case Enter(_) =>
    case Draw(step) =>
      var i, t := step.call, Next(o.budget, step);
      StepSafe(o.budget, step);
      DrawMoves(o.budget, step);
      StoredUpdate(o.budget.calls, o.stored, i, t.calls[i], false);
      assert o.stored[i := false] == o.stored;
    case Append(i) =>
      GrantFits(o, i);
      StoredUpdate(o.budget.calls, o.stored, i, o.budget.calls[i], true);
      assert o.budget.calls[i := o.budget.calls[i]] == o.budget.calls;
  }

  /** A run of any number of writes on two empty buffers. */
  ghost predicate Execution(o: Output, actions: seq<Action>, t: Output)
    decreases |actions|
  {
    if actions == [] then o == t
    else Possible(o, actions[0]) && Execution(Act(o, actions[0]), actions[1..], t)
  }

  lemma {:induction false} ExecutionSound(o: Output, actions: seq<Action>, t: Output)
    requires Sound(o) && Execution(o, actions, t)
    ensures Sound(t) && t.budget.maximum == o.budget.maximum
    decreases |actions|
  {
    if actions != [] {
      ActSound(o, actions[0]);
      ExecutionSound(Act(o, actions[0]), actions[1..], t);
      hide Sound, Act, Possible;
    }
  }

  function Opening(maximum: nat, requests: seq<Request>): Output {
    var sizes := seq(|requests|, i requires 0 <= i < |requests| => |requests[i].payload|);
    Output(Fresh(maximum, sizes), requests, map[], seq(|requests|, _ => false), [], [])
  }

  lemma {:induction false} NothingStored(calls: seq<Call>, stored: seq<bool>)
    requires |calls| == |stored| && forall i | 0 <= i < |stored| :: !stored[i]
    ensures StoredGrants(calls, stored) == 0
    decreases |calls|
  {
    if calls != [] {
      NothingStored(calls[1..], stored[1..]);
    }
  }

  lemma OutputIsSound(maximum: nat, requests: seq<Request>, actions: seq<Action>, t: Output)
    requires Execution(Opening(maximum, requests), actions, t)
    ensures Sound(t) && t.budget.maximum == maximum
  {
    var o := Opening(maximum, requests);
    NothingGranted(o.budget.calls);
    NothingStored(o.budget.calls, o.stored);
    assert Sound(o);
    ExecutionSound(o, actions, t);
  }

  /** Over every interleaving of writes, both outputs together never exceed the limit; and once every write
      has appended they hold exactly what the budget says is used. */
  lemma OutputWithinLimit(maximum: nat, requests: seq<Request>, actions: seq<Action>, t: Output)
    requires Execution(Opening(maximum, requests), actions, t)
    ensures |t.out| + |t.errout| <= t.budget.used <= maximum
    ensures |t.stored| == |t.requests|
    ensures (forall i | 0 <= i < |t.stored| :: t.stored[i]) ==> |t.out| + |t.errout| == t.budget.used
  {
    OutputIsSound(maximum, requests, actions, t);
    StoredIsGranted(t.budget.calls, t.stored);
  }

  // ----------------------------------------------------------------- contents

  /** What was written to one buffer: of every write to it, in the order in which they appended, as many first
      bytes as it was granted in the end. */
  function Written(actions: seq<Action>, t: Output, toErrors: bool): seq<bv8>
    requires |t.requests| == |t.budget.calls|
  {
    if actions == [] then []
    else (match actions[0]
      case Append(i) =>
        if i < |t.requests| && t.requests[i].toErrors == toErrors then
          var n := Granted(t.budget.calls[i]);
          if n <= |t.requests[i].payload| then t.requests[i].payload[..n] else []
        else []
      case _ => []) + Written(actions[1..], t, toErrors)
  }

  /** Writes are what they were, and a call that has returned is left alone. */
  lemma {:induction false} ReturnedStays(o: Output, actions: seq<Action>, t: Output)
    requires |o.requests| == |o.budget.calls| && Execution(o, actions, t)
    ensures t.requests == o.requests && |t.budget.calls| == |o.budget.calls|
    ensures forall i | 0 <= i < |o.budget.calls| && o.budget.calls[i].phase.Returned? ::
      t.budget.calls[i] == o.budget.calls[i]
    decreases |actions|
  {
    if actions != [] {
      if actions[0].Draw? {
        DrawMoves(o.budget, actions[0].step);
      }
      ReturnedStays(Act(o, actions[0]), actions[1..], t);
      hide Next, Enabled;
    }
  }

  /** One action adds to the buffers what the list of actions says. */
  lemma ActWrites(o: Output, a: Action, t: Output)
    requires Sound(o) && Possible(o, a) && t.requests == o.requests && |t.budget.calls| == |o.budget.calls|
    requires forall i | 0 <= i < |o.budget.calls| && o.budget.calls[i].phase.Returned? ::
      t.budget.calls[i] == o.budget.calls[i]
    ensures Act(o, a).out == o.out + Written([a], t, false) && Act(o, a).errout == o.errout + Written([a], t, true)
  {
    assert [a][1..] == [];
    if a.Append? {
      GrantFits(o, a.write);
    }
  }

  lemma WrittenFirst(a: Action, rest: seq<Action>, t: Output, toErrors: bool)
    requires |t.requests| == |t.budget.calls|
    ensures Written([a] + rest, t, toErrors) == Written([a], t, toErrors) + Written(rest, t, toErrors)
  {
    assert ([a] + rest)[1..] == rest && [a][1..] == [];
  }

  lemma WritesJoin(o: Output, u: Output, a: Action, rest: seq<Action>, t: Output)
    requires |t.requests| == |t.budget.calls|
    requires u.out == o.out + Written([a], t, false) && u.errout == o.errout + Written([a], t, true)
    requires t.out == u.out + Written(rest, t, false) && t.errout == u.errout + Written(rest, t, true)
    ensures t.out == o.out + Written([a] + rest, t, false) && t.errout == o.errout + Written([a] + rest, t, true)
  {
    WrittenFirst(a, rest, t, false);
    WrittenFirst(a, rest, t, true);
    hide Written;
  }

  lemma {:induction false} ExecutionWrites(o: Output, actions: seq<Action>, t: Output)
    requires Sound(o) && Execution(o, actions, t)
    ensures |t.requests| == |t.budget.calls|
    ensures t.out == o.out + Written(actions, t, false) && t.errout == o.errout + Written(actions, t, true)
    decreases |actions|
  {
    ReturnedStays(o, actions, t);
    if actions != [] {
      var a, rest := actions[0], actions[1..];
      ActSound(o, a);
      ActWrites(o, a, t);
      hide Written, Act, Sound, Possible;
      ExecutionWrites(Act(o, a), rest, t);
      WritesJoin(o, Act(o, a), a, rest, t);
      assert actions == [a] + rest;
    }
  }

  /** Over every interleaving each buffer holds its own writes one after the other, none of them torn apart,
      each cut to what it was granted. */
  lemma BuffersAreWritten(maximum: nat, requests: seq<Request>, actions: seq<Action>, t: Output)
    requires Execution(Opening(maximum, requests), actions, t)
    ensures t.requests == requests && |t.requests| == |t.budget.calls|
    ensures t.out == Written(actions, t, false) && t.errout == Written(actions, t, true)
  {
    var o := Opening(maximum, requests);
    OutputIsSound(maximum, requests, [], o);
    ExecutionWrites(o, actions, t);
    ReturnedStays(o, actions, t);
  }

  // ----------------------------------------------------------------- progress

  /** A call has a step to take exactly until it has returned. */
  lemma CallProceeds(s: System, i: nat)
    requires i < |s.calls|
    ensures (exists step: Step :: step.call == i && Enabled(s, step)) <==> !s.calls[i].phase.Returned?
  {
    var c := s.calls[i];
    match c.phase
    case Ready => assert Enabled(s, Load(i));
    case Loaded(snapshot) => assert Enabled(s, GiveUp(i)) || Enabled(s, Swap(i));
    case Marking(_) => assert Enabled(s, Raise(i));
    case Returned(_) =>
  }

  /** Lock-free: a swap fails only where some other call has been granted something since the load. */
  lemma SwapFailsOnProgress(s: System, i: nat)
    requires Safe(s) && Enabled(s, Swap(i))
    ensures Next(s, Swap(i)).calls[i].phase == Ready <==> s.calls[i].phase.snapshot < s.used
    ensures s.calls[i].phase.snapshot == s.used ==> Granted(Next(s, Swap(i)).calls[i]) > 0
  {
    assert CallAgrees(s, s.calls[i]);
  }

  /** Whoever holds the lock of a buffer writes to it and has not appended yet. */
  ghost predicate HoldersBusy(o: Output) {
    forall b | b in o.holders :: Unwritten(o, o.holders[b]) && o.requests[o.holders[b]].toErrors == b
  }

  lemma ActKeepsBusy(o: Output, a: Action)
    requires HoldersBusy(o) && Possible(o, a)
    ensures HoldersBusy(Act(o, a))
  {
    hide Next, Enabled;
  }

  lemma {:induction false} ExecutionBusy(o: Output, actions: seq<Action>, t: Output)
    requires HoldersBusy(o) && Execution(o, actions, t)
    ensures HoldersBusy(t)
    decreases |actions|
  {
    if actions != [] {
      ActKeepsBusy(o, actions[0]);
      ExecutionBusy(Act(o, actions[0]), actions[1..], t);
      hide HoldersBusy, Act, Possible;
    }
  }

  /** A write that holds the lock another one needs, or the write itself. */
  predicate Rival(o: Output, i: nat, h: nat)
    requires i < |o.requests|
  {
    Holds(o, h) && o.requests[h].toErrors == o.requests[i].toErrors
  }

  /** A write that may append, or whose call on the budget may take a step. */
  ghost predicate GoesOn(o: Output, h: nat) {
    Possible(o, Append(h)) || exists step: Step :: step.call == h && Possible(o, Draw(step))
  }

  /** No interleaving is stuck: as long as a write has not appended, some action is possible on its buffer. */
  lemma WritesProceed(maximum: nat, requests: seq<Request>, actions: seq<Action>, t: Output, i: nat)
    requires Execution(Opening(maximum, requests), actions, t) && Unwritten(t, i)
    ensures Possible(t, Enter(i)) || exists h: nat :: Rival(t, i, h) && GoesOn(t, h)
  {
    var o, b := Opening(maximum, requests), t.requests[i].toErrors;
    OutputIsSound(maximum, requests, actions, t);
    ExecutionBusy(o, actions, t);
    if b in t.holders {
      var h := t.holders[b];
      assert Rival(t, i, h);
      CallProceeds(t.budget, h);
      if step: Step :| step.call == h && Enabled(t.budget, step) {
        assert Possible(t, Draw(step));
      } else {
        assert Possible(t, Append(h));
      }
    }
  }
}

/** The background-job table of pkg/gash/jobs.go: its critical sections, and what holds of jobs over every
    interleaving of them. */
module Jobs {
  import opened Results

  // --------------------------------------------------------------- numerals

  function Digit(d: nat): char
    requires d < 10
  {
    "0123456789"[d]
  }

  /** strconv.Itoa on natural numbers. */
  function Decimal(n: nat): (s: string)
    ensures s != ""
  {
    if n < 10 then [Digit(n)] else Decimal(n / 10) + [Digit(n % 10)]
  }

  lemma {:induction false} DecimalInjective(m: nat, n: nat)
    requires Decimal(m) == Decimal(n)
    ensures m == n
    decreases m
  {
    var s, t := Decimal(m), Decimal(n);
    assert s[|s| - 1] == Digit(m % 10) && t[|t| - 1] == Digit(n % 10);
    if m >= 10 && n >= 10 {
      assert s[..|s| - 1] == Decimal(m / 10) && t[..|t| - 1] == Decimal(n / 10);
      DecimalInjective(m / 10, n / 10);
    }
  }

  // ------------------------------------------------------ reading numerals

  predicate IsDigit(c: char) {
    '0' <= c <= '9'
  }

  /** The value of a text of digits. */
  function Value(text: string): int {
    if text == "" then 0 else 10 * Value(text[..|text| - 1]) + (text[|text| - 1] as int - '0' as int)
  }

  /** A text of digits without leading zeros that has the value n. */
  predicate Reads(text: string, n: nat) {
    && text != "" && (forall i | 0 <= i < |text| :: IsDigit(text[i]))
    && (|text| > 1 ==> text[0] != '0') && Value(text) == n
  }

  lemma DigitReads(d: nat)
    requires d < 10
    ensures IsDigit(Digit(d)) && Digit(d) as int - '0' as int == d
  {
    var digits := "0123456789";
    assert digits[d] == Digit(d);
    assert digits[0] == '0' && digits[1] == '1' && digits[2] == '2' && digits[3] == '3' && digits[4] == '4';
    assert digits[5] == '5' && digits[6] == '6' && digits[7] == '7' && digits[8] == '8' && digits[9] == '9';
  }

  lemma ValueOf(head: string, c: char)
    ensures Value(head + [c]) == 10 * Value(head) + (c as int - '0' as int)
  {
    assert (head + [c])[..|head|] == head;
  }

  /** Numbers are written in decimal. */
  lemma {:induction false} DecimalReads(n: nat)
    ensures Reads(Decimal(n), n) && (n > 0 ==> Decimal(n)[0] != '0')
    decreases n
  {
    DigitReads(n % 10);
    if n < 10 {
      ValueOf("", Digit(n));
      assert "" + [Digit(n)] == [Digit(n)];
    } else {
      var head, s := Decimal(n / 10), Decimal(n);
      DecimalReads(n / 10);
      ValueOf(head, Digit(n % 10));
      forall i | 0 <= i < |s| ensures IsDigit(s[i]) { assert i < |head| ==> s[i] == head[i]; }
      assert s[0] == head[0];
    }
  }

  lemma {:induction false} LeadingDigit(text: string)
    requires text != "" && (forall i | 0 <= i < |text| :: IsDigit(text[i])) && text[0] != '0'
    ensures Value(text) > 0
    decreases |text|
  {
    if |text| > 1 {
      LeadingDigit(text[..|text| - 1]);
    } else {
      assert text[..0] == "";
    }
  }

  lemma LastDigit(n: nat, tens: int, d: nat)
    requires n == 10 * tens + d && d < 10
    ensures n / 10 == tens && n % 10 == d
  {
  }

  /** A text that reads as a number, but for its last digit. */
  lemma ShorterReads(text: string, n: nat) returns (head: string, d: nat)
    requires Reads(text, n)
    ensures text == head + [text[|text| - 1]] && d < 10 && text[|text| - 1] as int - '0' as int == d
    ensures n == 10 * Value(head) + d
    ensures if head == "" then Value(head) == 0 else Value(head) > 0 && Reads(head, Value(head))
  {
    var k := |text| - 1;
    head := text[..k];
    assert IsDigit(text[k]);
    d := text[k] as int - '0' as int;
    assert head != "" ==> head[0] == text[0];
    if head != "" {
      LeadingDigit(head);
    }
  }

  /** And there is no other way to write them. */
  lemma {:induction false} DecimalOnly(text: string, n: nat)
    requires Reads(text, n)
    ensures text == Decimal(n)
    decreases |text|
  {
    var head, d := ShorterReads(text, n);
    DigitReads(d);
    hide Value, Reads;
    LastDigit(n, Value(head), d);
    if head != "" {
      DecimalOnly(head, n / 10);
    }
  }

  lemma DecimalIff(text: string, n: nat)
    ensures Reads(text, n) <==> text == Decimal(n)
  {
    DecimalReads(n);
    if Reads(text, n) {
      DecimalOnly(text, n);
    }
  }

  lemma DecimalsDiffer(m: nat, n: nat)
    requires m != n
    ensures Decimal(m) != Decimal(n)
  {
    if Decimal(m) == Decimal(n) {
      DecimalInjective(m, n);
    }
  }

  // --------------------------------------------------------------- the table

  datatype Job = Job(id: nat, pid: string, command: string, started: bool, done: bool, status: int, forced: int)

  datatype Table = Table(nextId: nat, nextPid: nat, last: string, jobs: map<string, Job>)

  const EMPTY := Table(0, 2001, "", map[])

  /** A process id is the job number plus two thousand. */
  function PidOf(k: nat): string {
    Decimal(2000 + k)
  }

  function Allocated(t: Table, command: string): Table {
    var pid := Decimal(t.nextPid);
    Table(t.nextId + 1, t.nextPid + 1, pid, t.jobs[pid := Job(t.nextId + 1, pid, command, false, false, 0, 0)])
  }

  function Started(t: Table, pid: string): Table
    requires pid in t.jobs
  {
    t.(jobs := t.jobs[pid := t.jobs[pid].(started := true)])
  }

  predicate MayBeSignaled(t: Table, pid: string) {
    pid in t.jobs && !t.jobs[pid].done
  }

  function Signaled(t: Table, pid: string, status: int): Table {
    if MayBeSignaled(t, pid) then t.(jobs := t.jobs[pid := t.jobs[pid].(forced := status)]) else t
  }

  /** The end of a job's goroutine: a forced status takes the place of the one the script returned. */
  function Completed(t: Table, pid: string, status: int): Table
    requires pid in t.jobs
  {
    var job := t.jobs[pid];
    t.(jobs := t.jobs[pid := job.(done := true, status := if job.forced != 0 then job.forced else status)])
  }

  /** A process id given out before the next one. */
  ghost predicate InUse(pid: string, next: nat) {
    exists k: nat :: k < next && pid == Decimal(k)
  }

  lemma NextIsFree(next: nat)
    ensures !InUse(Decimal(next), next) && InUse(Decimal(next), next + 1)
    ensures forall p | InUse(p, next) :: InUse(p, next + 1)
  {
    if InUse(Decimal(next), next) {
      var k: nat :| k < next && Decimal(next) == Decimal(k);
      DecimalInjective(k, next);
    }
  }

  class VirtualJob {
    const id: nat
    const pid: string
    const command: string
    var started: bool
    var done: bool
    var status: int
    var forcedStatus: int

    constructor (id: nat, pid: string, command: string)
      ensures Value() == Job(id, pid, command, false, false, 0, 0)
    {
      this.id, this.pid, this.command := id, pid, command;
      started, done, status, forcedStatus := false, false, 0, 0;
    }

    function Value(): Job
      reads this
    {
      Job(id, pid, command, started, done, status, forcedStatus)
    }
  }

  ghost function ValuesOf(jobs: map<string, VirtualJob>): map<string, Job>
    reads jobs.Values
  {
    map p | p in jobs :: jobs[p].Value()
  }

  lemma ValuesInsert(jobs: map<string, VirtualJob>, p: string, job: VirtualJob)
    ensures ValuesOf(jobs[p := job]) == ValuesOf(jobs)[p := job.Value()]
  {
  }

  /** Every process id has a job object of its own. */
  ghost predicate Separate(jobs: map<string, VirtualJob>) {
    forall p, q | p in jobs && q in jobs && jobs[p] == jobs[q] :: p == q
  }

  lemma InsertSeparate(jobs: map<string, VirtualJob>, p: string, job: VirtualJob)
    requires Separate(jobs) && job !in jobs.Values
    ensures Separate(jobs[p := job])
  {
    assert forall q | q in jobs :: jobs[q] in jobs.Values;
  }

  class JobState {
    var nextId: nat
    var nextPid: nat
    var last: string
    var jobs: map<string, VirtualJob>

    ghost function Abs(): Table
      reads this, jobs.Values
    {
      Table(nextId, nextPid, last, ValuesOf(jobs))
    }

    /** Jobs are separate objects, and the next process id is not in use. */
    ghost predicate Valid()
      reads this, jobs.Values
    {
      && Separate(jobs)
      && forall p {:trigger InUse(p, nextPid)} | p in jobs :: InUse(p, nextPid)
    }

    constructor ()
      ensures Valid() && Abs() == EMPTY && fresh(jobs.Values)
    {
      nextId, nextPid, last, jobs := 0, 2001, "", map[];
    }

    /** Enters a new job under its process id. */
    method Register(job: VirtualJob)
      requires Valid() && job !in jobs.Values && job.pid == Decimal(nextPid)
      modifies this`jobs, this`last, this`nextPid
      ensures Valid() && jobs == old(jobs)[job.pid := job]
      ensures Abs() == Table(nextId, old(nextPid) + 1, job.pid, old(Abs()).jobs[job.pid := job.Value()])
    {
      NextIsFree(nextPid);
      assert forall p | p in jobs :: InUse(p, nextPid);
      InsertSeparate(jobs, job.pid, job);
      ValuesInsert(jobs, job.pid, job);
      hide InUse, Decimal, Separate, ValuesOf;
      nextPid := nextPid + 1;
      jobs := jobs[job.pid := job];
      last := job.pid;
    }

    method AllocateJob(command: string) returns (job: VirtualJob)
      requires Valid()
      modifies this
      ensures Valid() && fresh(job) && jobs == old(jobs)[job.pid := job]
      ensures Abs() == Allocated(old(Abs()), command)
    {
      hide InUse, Decimal;
      ghost var before := Abs().jobs;
      nextId := nextId + 1;
      job := new VirtualJob(nextId, Decimal(nextPid), command);
      assert Abs().jobs == before;
      assert Valid() && job !in jobs.Values;
      Register(job);
    }

    method LastPid() returns (pid: string)
      ensures pid == Abs().last
    {
      pid := last;
    }

    /** A job of this table. */
    ghost predicate Holds(job: VirtualJob)
      reads this
    {
      job.pid in jobs && jobs[job.pid] == job
    }

    /** The critical section of startJob, which keeps the function that cancels the job. */
    method StartJob(job: VirtualJob)
      requires Valid() && Holds(job)
      modifies job`started
      ensures Valid() && Abs() == Started(old(Abs()), job.pid)
    {
      hide InUse, Decimal;
      assert forall p | p in jobs :: InUse(p, nextPid);
      job.started := true;
    }

    /** The critical section at the end of the job's goroutine. */
    method CompleteJob(job: VirtualJob, run: int)
      requires Valid() && Holds(job)
      modifies job`status, job`done
      ensures Valid() && Abs() == Completed(old(Abs()), job.pid, run)
    {
      assert forall p | p in jobs && p != job.pid :: jobs[p] != job;
      hide InUse, Decimal, Separate;
      var status := run;
      if job.forcedStatus != 0 {
        status := job.forcedStatus;
      }
      job.status := status;
      job.done := true;
    }

    method SignalJob(pid: string, status: int) returns (sent: bool)
      requires Valid()
      modifies jobs.Values
      ensures Valid() && sent == MayBeSignaled(old(Abs()), pid)
      ensures Abs() == Signaled(old(Abs()), pid, status)
    {
      if pid !in jobs {
        return false;
      }
      var job := jobs[pid];
      if job.done {
        return false;
      }
      job.forcedStatus := status;
      return true;
    }

    /** One argument of wait: some job it names, by process id or by number. */
    method SelectJob(argument: string) returns (found: bool, pid: string)
      requires Valid()
      ensures found <==> exists p :: Names(Abs(), Stripped(argument), p)
      ensures found ==> Names(Abs(), Stripped(argument), pid)
    {
      var requested := Stripped(argument);
      var rest := jobs.Keys;
      while rest != {}
        invariant rest <= jobs.Keys && forall p | p in jobs.Keys - rest :: !Names(Abs(), requested, p)
        decreases rest
      {
        var p :| p in rest;
        rest := rest - {p};
        if jobs[p].pid == requested || Decimal(jobs[p].id) == requested {
          assert Names(Abs(), requested, p);
          return true, p;
        }
      }
      return false, "";
    }
  }

  /** strings.TrimPrefix(argument, "%"). */
  function Stripped(argument: string): string {
    if argument != "" && argument[0] == '%' then argument[1..] else argument
  }

  ghost predicate Names(t: Table, requested: string, p: string) {
    p in t.jobs && (t.jobs[p].pid == requested || Decimal(t.jobs[p].id) == requested)
  }

  // --------------------------------------------------------------------- runs

  /** The critical sections, as they may follow one another. */
  datatype Event =
    | Allocate(command: string)
    | Start(pid: string)
    | Signal(pid: string, status: int, sent: bool)
    | Complete(pid: string, run: int)

  /** A job is started once, its goroutine ends once, and a signal reports whether it was taken; the status
      kill passes on is 128 and the number of the signal, so never zero. */
  predicate Enabled(t: Table, e: Event) {
    match e
    case Allocate(_) => true
    case Start(pid) => pid in t.jobs && !t.jobs[pid].started
    case Signal(pid, status, sent) => status != 0 && sent == MayBeSignaled(t, pid)
    case Complete(pid, _) => pid in t.jobs && t.jobs[pid].started && !t.jobs[pid].done
  }

  function Next(t: Table, e: Event): Table
    requires Enabled(t, e)
  {
    match e
    case Allocate(command) => Allocated(t, command)
    case Start(pid) => Started(t, pid)
    case Signal(pid, status, _) => Signaled(t, pid, status)
    case Complete(pid, run) => Completed(t, pid, run)
  }

  /** The table after a run, if the run is one. */
  function After(events: seq<Event>): Option<Table> {
    if events == [] then Some(EMPTY)
    else
      var t := After(events[..|events| - 1]);
      if t.Some? && Enabled(t.value, events[|events| - 1]) then Some(Next(t.value, events[|events| - 1])) else None
  }

  /** The commands allocated so far. */
  function Commands(events: seq<Event>): seq<string> {
    if events == [] then []
    else
      var last := events[|events| - 1];
      Commands(events[..|events| - 1]) + if last.Allocate? then [last.command] else []
  }

  /** How often a job's goroutine has ended. */
  function Completions(events: seq<Event>, pid: string): nat {
    if events == [] then 0
    else
      var last := events[|events| - 1];
      Completions(events[..|events| - 1], pid) + if last.Complete? && last.pid == pid then 1 else 0
  }

  /** What its script returned. */
  function RunStatus(events: seq<Event>, pid: string): int {
    if events == [] then 0
    else
      var last := events[|events| - 1];
      if last.Complete? && last.pid == pid then last.run else RunStatus(events[..|events| - 1], pid)
  }

  /** The status of the last signal that was taken, if there was one. */
  function LastSent(events: seq<Event>, pid: string): Option<int> {
    if events == [] then None
    else
      var last := events[|events| - 1];
      if last.Signal? && last.pid == pid && last.sent then Some(last.status)
      else LastSent(events[..|events| - 1], pid)
  }

  /** What wait reports of a finished job: the last signal that was taken overrules the script. */
  function Published(events: seq<Event>, pid: string): int {
    match LastSent(events, pid)
    case Some(status) => status
    case None => RunStatus(events, pid)
  }

  ghost predicate Numbered(t: Table, commands: seq<string>, k: nat)
    requires 1 <= k <= |commands|
  {
    var p := PidOf(k);
    p in t.jobs && t.jobs[p].id == k && t.jobs[p].pid == p && t.jobs[p].command == commands[k - 1]
  }

  ghost predicate IsPid(n: nat, p: string) {
    exists k: nat :: 1 <= k <= n && p == PidOf(k)
  }

  /** The k-th allocated job has number k and process id 2000 + k; the variable names the newest one. */
  ghost predicate WellNumbered(t: Table, commands: seq<string>) {
    && t.nextId == |commands| && t.nextPid == 2001 + |commands|
    && t.last == (if commands == [] then "" else PidOf(|commands|))
    && (forall k: nat {:trigger Numbered(t, commands, k)} | 1 <= k <= |commands| :: Numbered(t, commands, k))
    && forall p {:trigger p in t.jobs} :: p in t.jobs ==> IsPid(|commands|, p)
  }

  lemma {:induction false} RunNumbers(events: seq<Event>)
    requires After(events).Some?
    ensures WellNumbered(After(events).value, Commands(events))
    decreases |events|
  {
    if events != [] {
      var front, last := events[..|events| - 1], events[|events| - 1];
      RunNumbers(front);
      var s, t, commands := After(front).value, After(events).value, Commands(front);
      if last.Allocate? {
        AllocateNumbers(s, commands, last.command);
      } else {
        OtherNumbers(s, commands, last);
      }
      assert Commands(events) == commands + if last.Allocate? then [last.command] else [];
      assert commands + [] == commands;
      hide WellNumbered, Commands;
    }
  }

  /** A job number with its process id. */
  lemma JobOf(t: Table, commands: seq<string>, p: string) returns (k: nat)
    requires WellNumbered(t, commands) && p in t.jobs
    ensures 1 <= k <= |commands| && t.jobs[p].id == k && t.jobs[p].pid == p == PidOf(k)
  {
    hide Decimal, PidOf;
    assert IsPid(|commands|, p);
    k :| 1 <= k <= |commands| && p == PidOf(k);
    assert Numbered(t, commands, k);
  }

  /** In characters: the k-th job has number k and a process id that reads as 2000 + k, the variable reads as
      that of the newest one, and there are no other jobs. */
  ghost predicate NumberedInText(t: Table, commands: seq<string>, k: nat, p: string)
    requires 1 <= k <= |commands|
  {
    && Reads(t.last, 2000 + |commands|)
    && (Reads(p, 2000 + k) ==>
          p in t.jobs && t.jobs[p].id == k && t.jobs[p].pid == p && t.jobs[p].command == commands[k - 1])
    && (p in t.jobs ==> 1 <= t.jobs[p].id <= |commands| && Reads(p, 2000 + t.jobs[p].id))
  }

  lemma TextNumbered(t: Table, commands: seq<string>, k: nat, p: string)
    requires WellNumbered(t, commands) && 1 <= k <= |commands|
    ensures NumberedInText(t, commands, k, p)
  {
    hide Decimal, Value, Reads, IsPid;
    assert Numbered(t, commands, k) && t.last == PidOf(|commands|);
    DecimalIff(t.last, 2000 + |commands|);
    DecimalIff(p, 2000 + k);
    hide WellNumbered;
    if p in t.jobs {
      var j := JobOf(t, commands, p);
      DecimalIff(p, 2000 + j);
    }
  }

  lemma NumbersRead(events: seq<Event>, k: nat, p: string)
    requires After(events).Some? && 1 <= k <= |Commands(events)|
    ensures NumberedInText(After(events).value, Commands(events), k, p)
  {
    RunNumbers(events);
    hide NumberedInText, WellNumbered, After, Commands;
    TextNumbered(After(events).value, Commands(events), k, p);
  }

  /** What an argument of wait names: a job whose process id or number it reads as, after a '%' if there is
      one. */
  lemma ArgumentReads(t: Table, commands: seq<string>, text: string, p: string)
    requires WellNumbered(t, commands)
    ensures Names(t, text, p) <==> p in t.jobs && (Reads(text, 2000 + t.jobs[p].id) || Reads(text, t.jobs[p].id))
  {
    if p in t.jobs {
      var j := JobOf(t, commands, p);
      hide Decimal, Value, Reads, WellNumbered;
      DecimalIff(text, 2000 + j);
      DecimalIff(text, j);
    }
  }

  lemma StrippedIs(text: string)
    ensures Stripped("%" + text) == text && (text == "" || text[0] != '%' ==> Stripped(text) == text)
  {
    assert ("%" + text)[1..] == text;
  }

  lemma OtherNumbers(s: Table, commands: seq<string>, e: Event)
    requires WellNumbered(s, commands) && Enabled(s, e) && !e.Allocate?
    ensures WellNumbered(Next(s, e), commands)
  {
    var t := Next(s, e);
    hide IsPid, Decimal;
    assert t.jobs.Keys == s.jobs.Keys;
    forall k: nat | 1 <= k <= |commands| ensures Numbered(t, commands, k) { assert Numbered(s, commands, k); }
  }

  lemma NextPidIsFree(s: Table, commands: seq<string>)
    requires WellNumbered(s, commands)
    ensures Decimal(s.nextPid) !in s.jobs
  {
    hide Decimal, Numbered;
    var pid := Decimal(s.nextPid);
    if pid in s.jobs {
      assert IsPid(|commands|, pid);
      var k: nat :| 1 <= k <= |commands| && pid == PidOf(k);
      DecimalInjective(2000 + k, s.nextPid);
    }
  }

  lemma AllocateNumbers(s: Table, commands: seq<string>, command: string)
    requires WellNumbered(s, commands)
    ensures WellNumbered(Allocated(s, command), commands + [command])
  {
    var t, more := Allocated(s, command), commands + [command];
    var n := |more|;
    forall k: nat | 1 <= k <= n ensures Numbered(t, more, k) {
      if k < n {
        assert Numbered(s, commands, k);
        if PidOf(k) == PidOf(n) {
          DecimalInjective(2000 + k, 2000 + n);
        }
      }
    }
    forall p | p in t.jobs ensures IsPid(n, p) {
      if p == PidOf(n) {
      } else {
        assert IsPid(n - 1, p);
        var k: nat :| 1 <= k <= n - 1 && p == PidOf(k);
      }
    }
  }

  /** Where a job stands, told from the run alone. */
  ghost predicate Told(t: Table, events: seq<Event>, pid: string) {
    var sent := LastSent(events, pid);
    if pid !in t.jobs then Completions(events, pid) == 0 && sent.None?
    else
      var job := t.jobs[pid];
      && (if sent.Some? then job.forced == sent.value != 0 else job.forced == 0)
      && Completions(events, pid) == (if job.done then 1 else 0)
      && (job.done ==> job.status == Published(events, pid))
  }

  /** Over every interleaving a job's status is published once: the one set by the last signal that was
      taken, whenever one was, and otherwise what the script returned. */
  lemma {:induction false} RunTells(events: seq<Event>, pid: string)
    requires After(events).Some?
    ensures Told(After(events).value, events, pid)
    decreases |events|
  {
    if events != [] {
      var front, last := events[..|events| - 1], events[|events| - 1];
      RunTells(front, pid);
      RunNumbers(front);
      var s := After(front).value;
      NextPidIsFree(s, Commands(front));
      hide Decimal, WellNumbered;
    }
  }

  lemma AfterLast(events: seq<Event>, last: Event)
    requires After(events + [last]).Some?
    ensures After(events).Some? && Enabled(After(events).value, last)
    ensures After(events + [last]).value == Next(After(events).value, last)
  {
    assert (events + [last])[..|events|] == events;
  }

  /** A published status is final, and no signal is taken afterwards. */
  lemma {:induction false} PublishedIsFinal(events: seq<Event>, more: seq<Event>, pid: string)
    requires After(events + more).Some?
    requires After(events).Some? && pid in After(events).value.jobs && After(events).value.jobs[pid].done
    ensures var t := After(events + more).value;
      pid in t.jobs && t.jobs[pid].done && t.jobs[pid].status == After(events).value.jobs[pid].status
    ensures forall i | 0 <= i < |more| && more[i].Signal? && more[i].pid == pid :: !more[i].sent
    decreases |more|
  {
    hide After, Decimal, WellNumbered, Enabled, Next;
    if more == [] {
      assert events + more == events;
    } else {
      var front, last := more[..|more| - 1], more[|more| - 1];
      assert events + more == events + front + [last];
      AfterLast(events + front, last);
      PublishedIsFinal(events, front, pid);
      RunNumbers(events + front);
      StaysPublished(After(events + front).value, Commands(events + front), last, pid);
      forall i | 0 <= i < |more| && more[i].Signal? && more[i].pid == pid ensures !more[i].sent {
        assert i < |front| ==> more[i] == front[i];
      }
    }
  }

  lemma StaysPublished(s: Table, commands: seq<string>, e: Event, pid: string)
    requires WellNumbered(s, commands) && Enabled(s, e) && pid in s.jobs && s.jobs[pid].done
    ensures var t := Next(s, e); pid in t.jobs && t.jobs[pid].done && t.jobs[pid].status == s.jobs[pid].status
    ensures e.Signal? && e.pid == pid ==> !e.sent
  {
    NextPidIsFree(s, commands);
    hide Decimal, WellNumbered;
  }

  /** An argument of wait means one job only, exactly as long as no job number reaches the process ids. */
  lemma ArgumentsUnambiguous(t: Table, commands: seq<string>)
    requires WellNumbered(t, commands)
    ensures (forall r, p, q | Names(t, r, p) && Names(t, r, q) :: p == q) <==> |commands| <= 2000
  {
    var n := |commands|;
    if n <= 2000 {
      forall r, p, q | Names(t, r, p) && Names(t, r, q) ensures p == q { SameName(t, commands, r, p, q); }
    } else {
      assert Numbered(t, commands, 1) && Numbered(t, commands, 2001);
      var r, p, q := Decimal(2001), PidOf(1), PidOf(2001);
      assert Names(t, r, p) && Names(t, r, q);
      DecimalsDiffer(2001, 4001);
    }
  }

  lemma SameName(t: Table, commands: seq<string>, r: string, p: string, q: string)
    requires WellNumbered(t, commands) && |commands| <= 2000 && Names(t, r, p) && Names(t, r, q)
    ensures p == q
  {
    var n := |commands|;
    assert IsPid(n, p) && IsPid(n, q);
    var j: nat :| 1 <= j <= n && p == PidOf(j);
    var k: nat :| 1 <= k <= n && q == PidOf(k);
    assert Numbered(t, commands, j) && Numbered(t, commands, k);
    hide Decimal;
    var x, y := if r == p then 2000 + j else j, if r == q then 2000 + k else k;
    assert r == Decimal(x) == Decimal(y);
    DecimalInjective(x, y);
  }

  /** Every job that is not done can go on, and a signal to it is then taken; one that is done cannot end
      again. */
  lemma JobsProceed(t: Table, pid: string, status: int)
    requires pid in t.jobs && status != 0
    ensures (exists e: Event :: (e.Start? || e.Complete?) && e.pid == pid && Enabled(t, e))
      <==> !t.jobs[pid].started || !t.jobs[pid].done
    ensures Enabled(t, Signal(pid, status, true)) <==> !t.jobs[pid].done
    ensures Enabled(t, Signal(pid, status, false)) <==> t.jobs[pid].done
  {
    assert !t.jobs[pid].started ==> Enabled(t, Start(pid));
    assert t.jobs[pid].started && !t.jobs[pid].done ==> Enabled(t, Complete(pid, 0));
  }
}

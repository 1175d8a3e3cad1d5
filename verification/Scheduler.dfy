/** The scheduler as a machine: jobs and user code issue commands, and one timer
    chain dispatches the jobs. */
module Scheduler {
  import opened Prelude
  import opened WorkQueues

  /** A call of the scheduler's interface. `Ask` stands for `numberOfJobs` and
      `queueEmpty`, which throw for an unknown label. */
  datatype Command<J> =
    | AddLabel(name: string, priority: int)
    | ClearLabel(name: string)
    | Add(name: string, work: J)
    | Clear(name: string)
    | Ask(name: string)

  /** The calls a job makes when it runs. They may depend on its identity and on
      what it finds in the scheduler; as a job runs once, any job has such a program. */
  type Program<!J> = (Job<J>, Table<J>) -> seq<Command<J>>

  /** `timeout` is the scheduler's field and `timers` the timers pending in the
      host. The rest is history: jobs run, jobs dropped by clearing, and whether
      a job has thrown. */
  datatype State<J> = State(
    table: Table<J>, timeout: Option<nat>, timers: seq<nat>, nextTimer: nat, stamps: nat, uids: nat,
    ran: seq<nat>, dropped: multiset<nat>, threw: bool)

  const NO_TIMERS: seq<nat> := []

  function Start<J>(): State<J> { State(Table([], []), None, NO_TIMERS, 0, 0, 0, [], multiset{}, false) }

  // ---- one command ----

  /** `doWork`: ask the host for a timer. */
  function Arm<J>(s: State<J>): State<J> {
    s.(timeout := Some(s.nextTimer), timers := s.timers + [s.nextTimer], nextTimer := s.nextTimer + 1)
  }

  function Uids<J>(q: seq<Job<J>>): multiset<nat> {
    if q == [] then multiset{} else multiset{q[0].uid} + Uids(q[1..])
  }

  function QueueOf<J>(t: Table<J>, name: string): seq<Job<J>>
    requires Parallel(t)
  {
    if Has(t, name) then t.queues[Find(t.labels, name, 0)] else []
  }

  /** The state after a command, and whether the command threw. */
  function Do<J>(s: State<J>, c: Command<J>): (State<J>, bool)
    requires Parallel(s.table)
  {
    match c
    case AddLabel(name, priority) =>
      (s.(table := WithLabel(s.table, Label(name, priority, s.stamps)), stamps := s.stamps + 1), false)
    case ClearLabel(name) =>
      (s.(table := WithoutLabel(s.table, name), dropped := s.dropped + Uids(QueueOf(s.table, name))), false)
    case Clear(name) =>
      (s.(table := Cleared(s.table, name), dropped := s.dropped + Uids(QueueOf(s.table, name))), false)
    case Ask(name) => (s, !Has(s.table, name))
    case Add(name, work) =>
      if !Has(s.table, name) then (s, true)
      else
        var s' := s.(table := WithJob(s.table, name, Job(s.uids, work)), uids := s.uids + 1);
        (if s.timeout.None? then Arm(s') else s', false)
  }

  /** Commands in turn, up to the first that throws. */
  function Exec<J>(s: State<J>, cs: seq<Command<J>>): (r: (State<J>, bool))
    requires Parallel(s.table)
    ensures Parallel(r.0.table)
    decreases |cs|
  {
    if cs == [] then (s, false)
    else
      var (s', threw) := Do(s, cs[0]);
      if threw then (s', true) else Exec(s', cs[1..])
  }

  // ---- events ----

  /** A timer fires: the callback dispatches one job and re-arms, unless the job
      threw, or there was none. */
  function Fire<J>(prog: Program<J>, s: State<J>): (s': State<J>)
    requires Parallel(s.table) && s.timers != []
    ensures Parallel(s'.table)
  {
    var s1 := s.(timers := s.timers[1..]);
    if !Busy(s1.table) then s1.(timeout := None)
    else
      var job := Next(s1.table);
      var s2 := s1.(table := WithoutNext(s1.table), ran := s1.ran + [job.uid]);
      var (s3, threw) := Exec(s2, prog(job, s2.table));
      if threw then s3.(threw := true) else Arm(s3)
  }

  /** User code runs between jobs; a timer fires only if one is pending. */
  datatype Event<J> = User(commands: seq<Command<J>>) | Timer

  function Step<J>(prog: Program<J>, s: State<J>, e: Event<J>): (s': State<J>)
    requires Parallel(s.table)
    ensures Parallel(s'.table)
  {
    match e
    case User(cs) => Exec(s, cs).0
    case Timer => if s.timers == [] then s else Fire(prog, s)
  }

  function Run<J>(prog: Program<J>, s: State<J>, es: seq<Event<J>>): (s': State<J>)
    requires Parallel(s.table)
    ensures Parallel(s'.table)
    decreases |es|
  {
    if es == [] then s else Run(prog, Step(prog, s, es[0]), es[1..])
  }

  // ---- the scheduler object ----

  /** The scheduler with its fields, and the host's pending timers. */
  class Scheduler<J> {
    const prog: Program<J>
    var timeout: Option<nat>
    var queues: seq<seq<Job<J>>>
    var labels: seq<Label>
    var timers: seq<nat>
    var nextTimer: nat
    var stamps: nat
    var uids: nat
    ghost var ran: seq<nat>
    ghost var dropped: multiset<nat>
    ghost var threw: bool

    constructor (prog: Program<J>)
      ensures this.prog == prog && Value() == Start()
    {
      this.prog := prog;
      timeout, queues, labels := None, [], [];
      timers, nextTimer, stamps, uids := [], 0, 0, 0;
      ran, dropped, threw := [], multiset{}, false;
    }

    ghost function Value(): State<J>
      reads this
    {
      State(Table(labels, queues), timeout, timers, nextTimer, stamps, uids, ran, dropped, threw)
    }

    ghost predicate Valid()
      reads this
    {
      |labels| == |queues|
    }

    method IndexOf(name: string) returns (k: int)
      requires Valid()
      ensures k == if Has(Value().table, name) then Find(labels, name, 0) else -1
    {
      var idx := 0;
      while idx < |labels| && labels[idx].name != name
        invariant idx <= |labels| && Find(labels, name, 0) == Find(labels, name, idx)
      {
        idx := idx + 1;
      }
      k := if idx < |queues| && labels[idx].name == name then idx else -1;
    }

    method AddLabel(name: string, priority: int)
      requires Valid()
      modifies this`labels, this`queues, this`stamps
      ensures Valid() && Value() == Do(old(Value()), Command.AddLabel(name, priority)).0
    {
      var idx := 0;
      while idx < |queues| && labels[idx].priority <= priority
        invariant idx <= |labels| && Slot(labels, priority, 0) == Slot(labels, priority, idx)
        invariant labels == old(labels) && queues == old(queues) && stamps == old(stamps)
      {
        idx := idx + 1;
      }
      labels := InsertAt(labels, idx, Label(name, priority, stamps));
      queues := InsertAt(queues, idx, []);
      stamps := stamps + 1;
    }

    method ClearLabel(name: string)
      requires Valid()
      modifies this`labels, this`queues, this`dropped
      ensures Valid() && Value() == Do(old(Value()), Command.ClearLabel(name)).0
    {
      dropped := dropped + Uids(QueueOf(Value().table, name));
      var idx := IndexOf(name);
      if idx != -1 {
        labels := RemoveAt(labels, idx);
        queues := RemoveAt(queues, idx);
      }
    }

    method NextWork() returns (job: Option<Job<J>>)
      requires Valid()
      modifies this`queues
      ensures Valid()
      ensures if Busy(old(Value().table))
              then job == Some(Next(old(Value().table))) && Value().table == WithoutNext(old(Value().table))
              else job == None && queues == old(queues)
    {
      var idx := 0;
      while idx < |queues| && |queues[idx]| == 0
        invariant idx <= |queues| && queues == old(queues) && FirstBusy(queues, 0) == FirstBusy(queues, idx)
      {
        idx := idx + 1;
      }
      job := None;
      if idx < |queues| && |queues[idx]| > 0 {
        job := Some(queues[idx][0]);
        queues := queues[idx := queues[idx][1..]];
      }
    }

    method DoWork()
      modifies this`timeout, this`timers, this`nextTimer
      ensures Value() == Arm(old(Value()))
    {
      timeout := Some(nextTimer);
      timers := timers + [nextTimer];
      nextTimer := nextTimer + 1;
    }

    method Add(name: string, work: J) returns (thrown: bool)
      requires Valid()
      modifies this`queues, this`uids, this`timeout, this`timers, this`nextTimer
      ensures Valid() && (Value(), thrown) == Do(old(Value()), Command.Add(name, work))
    {
      var idx := IndexOf(name);
      if idx == -1 {
        return true;
      }
      queues := queues[idx := queues[idx] + [Job(uids, work)]];
      uids := uids + 1;
      if timeout == None {
        DoWork();
      }
      thrown := false;
    }

    method Clear(name: string)
      requires Valid()
      modifies this`queues, this`dropped
      ensures Valid() && Value() == Do(old(Value()), Command.Clear(name)).0
    {
      dropped := dropped + Uids(QueueOf(Value().table, name));
      var idx := IndexOf(name);
      if idx != -1 {
        queues := queues[idx := []];
      }
    }

    /** `None` where the source throws. */
    method NumberOfJobs(name: string) returns (n: Option<nat>)
      requires Valid()
      ensures n == if Has(Value().table, name) then Some(|QueueOf(Value().table, name)|) else None
    {
      var idx := IndexOf(name);
      n := if idx == -1 then None else Some(|queues[idx]|);
    }

    method QueueEmpty(name: string) returns (empty: Option<bool>)
      requires Valid()
      ensures empty == if Has(Value().table, name) then Some(QueueOf(Value().table, name) == []) else None
    {
      var idx := IndexOf(name);
      empty := if idx == -1 then None else Some(|queues[idx]| == 0);
    }

    /** Runs a program's commands; stops where one throws. */
    method Execute(cs: seq<Command<J>>) returns (thrown: bool)
      requires Valid()
      modifies this`queues, this`labels, this`stamps, this`uids, this`timeout, this`timers, this`nextTimer, this`dropped
      ensures Valid() && (Value(), thrown) == Exec(old(Value()), cs)
    {
      for i := 0 to |cs|
        invariant Valid() && Exec(old(Value()), cs) == Exec(Value(), cs[i..])
      {
        assert cs[i..][0] == cs[i] && cs[i..][1..] == cs[i+1..];
        thrown := false;
        match cs[i] {
          case AddLabel(name, priority) => AddLabel(name, priority);
          case ClearLabel(name) => ClearLabel(name);
          case Clear(name) => Clear(name);
          case Add(name, work) => thrown := Add(name, work);
          case Ask(name) =>
            var n := NumberOfJobs(name);
            thrown := n.None?;
        }
        if thrown {
          return;
        }
      }
      thrown := false;
    }

    /** The timer callback. A job that throws leaves it at once, with `timeout`
        still set and no new timer. */
    method OnTimer()
      requires Valid() && timers != []
      modifies this
      ensures Valid() && Value() == Fire(prog, old(Value()))
    {
      hide Exec, Next, WithoutNext, Arm, Busy;
      timers := timers[1..];
      var work := NextWork();
      if work.Some? {
        ran := ran + [work.value.uid];
        var thrown := Execute(prog(work.value, Table(labels, queues)));
        if thrown {
          threw := true;
          return;
        }
        DoWork();
      } else {
        timeout := None;
      }
    }
  }
}

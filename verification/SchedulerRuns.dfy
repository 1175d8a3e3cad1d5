/** What holds in every state the scheduler can reach, and how a run ends. */
module SchedulerRuns {
  import opened Prelude
  import opened WorkQueues
  import opened Scheduler

  // ---- the books: where every job ever added is ----

  function Upto(n: nat): multiset<nat> {
    if n == 0 then multiset{} else Upto(n - 1) + multiset{n - 1}
  }

  lemma {:induction false} UptoCounts(n: nat, u: nat)
    ensures Upto(n)[u] == (if u < n then 1 else 0) && |Upto(n)| == n
  {
    if n > 0 { UptoCounts(n - 1, u); }
  }

  lemma {:induction false} UidsConcat<J>(a: seq<Job<J>>, b: seq<Job<J>>)
    ensures Uids(a + b) == Uids(a) + Uids(b)
  {
    if a == [] {
      assert a + b == b;
    } else {
      assert (a + b)[1..] == a[1..] + b;
      UidsConcat(a[1..], b);
    }
  }

  lemma {:induction false} UidsSize<J>(q: seq<Job<J>>)
    ensures |Uids(q)| == |q|
  {
    if q != [] { UidsSize(q[1..]); }
  }

  /** The jobs waiting in any queue. */
  function Waiting<J>(t: Table<J>): seq<Job<J>> { Concat(t.queues) }

  function Queued<J>(t: Table<J>): multiset<nat> { Uids(Waiting(t)) }

  /** Every identity handed out is run, waiting or dropped, and only once. */
  ghost predicate Accounts<J>(s: State<J>) {
    multiset(s.ran) + Queued(s.table) + s.dropped == Upto(s.uids)
  }

  lemma ConcatSplit<T>(a: seq<seq<T>>, x: seq<T>, b: seq<seq<T>>)
    ensures Concat(a + [x] + b) == Concat(a) + x + Concat(b)
  {
    ConcatAppend(a + [x], b);
    ConcatSnoc(a, x);
  }

  /** The waiting jobs, seen from the queue at index `k`. */
  lemma WaitingAround<J>(queues: seq<seq<Job<J>>>, k: nat)
    requires k < |queues|
    ensures Uids(Concat(queues)) == Uids(Concat(queues[..k])) + Uids(queues[k]) + Uids(Concat(queues[k+1..]))
  {
    hide *;
    var a, x, b := queues[..k], queues[k], queues[k+1..];
    assert queues == a + [x] + b;
    ConcatSplit(a, x, b);
    UidsConcat(Concat(a) + x, Concat(b));
    UidsConcat(Concat(a), x);
  }

  lemma WaitingAfterChange<J>(queues: seq<seq<Job<J>>>, k: nat, q: seq<Job<J>>)
    requires k < |queues|
    ensures Uids(Concat(queues[k := q])) + Uids(queues[k]) == Uids(Concat(queues)) + Uids(q)
  {
    var queues' := queues[k := q];
    WaitingAround(queues, k);
    WaitingAround(queues', k);
    assert queues'[..k] == queues[..k] && queues'[k+1..] == queues[k+1..];
  }

  lemma WaitingWithoutQueue<J>(queues: seq<seq<Job<J>>>, k: nat)
    requires k < |queues|
    ensures Uids(Concat(RemoveAt(queues, k))) + Uids(queues[k]) == Uids(Concat(queues))
  {
    WaitingAround(queues, k);
    ConcatAppend(queues[..k], queues[k+1..]);
    UidsConcat(Concat(queues[..k]), Concat(queues[k+1..]));
  }

  lemma WaitingWithQueue<J>(queues: seq<seq<Job<J>>>, k: nat)
    requires k <= |queues|
    ensures Concat(InsertAt(queues, k, [])) == Concat(queues)
  {
    hide Concat;
    var a, b := queues[..k], queues[k..];
    assert InsertAt(queues, k, []) == a + [[]] + b && a + b == queues;
    ConcatSplit(a, [], b);
    ConcatAppend(a, b);
    assert Concat(a) + [] == Concat(a);
  }

  // ---- what every command keeps ----

  lemma QueuedWithLabel<J>(t: Table<J>, l: Label)
    requires Parallel(t)
    ensures Queued(WithLabel(t, l)) == Queued(t)
  {
    hide InsertAt, Concat, Uids;
    WaitingWithQueue(t.queues, Slot(t.labels, l.priority, 0));
  }

  lemma QueuedWithoutLabel<J>(t: Table<J>, name: string)
    requires Parallel(t)
    ensures Queued(WithoutLabel(t, name)) + Uids(QueueOf(t, name)) == Queued(t)
  {
    hide RemoveAt, Concat;
    if Has(t, name) { WaitingWithoutQueue(t.queues, Find(t.labels, name, 0)); }
  }

  lemma QueuedCleared<J>(t: Table<J>, name: string)
    requires Parallel(t)
    ensures Queued(Cleared(t, name)) + Uids(QueueOf(t, name)) == Queued(t)
  {
    hide Concat;
    if Has(t, name) { WaitingAfterChange(t.queues, Find(t.labels, name, 0), []); }
  }

  lemma Cancel(a: multiset<nat>, b: multiset<nat>, x: multiset<nat>)
    requires a + x == b + x
    ensures a == b
  {
    forall u ensures a[u] == b[u] { assert (a + x)[u] == (b + x)[u]; }
  }

  lemma QueuedWithJob<J>(t: Table<J>, name: string, job: Job<J>)
    requires Parallel(t) && Has(t, name)
    ensures Queued(WithJob(t, name, job)) == Queued(t) + multiset{job.uid}
  {
    hide Concat;
    var k := Find(t.labels, name, 0);
    WaitingAfterChange(t.queues, k, t.queues[k] + [job]);
    UidsConcat(t.queues[k], [job]);
    assert Uids([job]) == multiset{job.uid} + Uids<J>([]);
    Cancel(Queued(WithJob(t, name, job)), Queued(t) + multiset{job.uid}, Uids(t.queues[k]));
  }

  lemma QueuedWithoutNext<J>(t: Table<J>)
    requires Busy(t)
    ensures Queued(WithoutNext(t)) + multiset{Next(t).uid} == Queued(t)
  {
    hide Concat;
    var k := FirstBusy(t.queues, 0);
    WaitingAfterChange(t.queues, k, t.queues[k][1..]);
    assert Uids(t.queues[k]) == multiset{Next(t).uid} + Uids(t.queues[k][1..]);
    Cancel(Queued(WithoutNext(t)) + multiset{Next(t).uid}, Queued(t), Uids(t.queues[k][1..]));
  }

  lemma DropBooks(ran: multiset<nat>, q: multiset<nat>, d: multiset<nat>, q': multiset<nat>, moved: multiset<nat>)
    requires q' + moved == q
    ensures ran + q' + (d + moved) == ran + q + d
  {}

  lemma AddBooks(ran: multiset<nat>, q: multiset<nat>, d: multiset<nat>, u: nat)
    requires ran + q + d == Upto(u)
    ensures ran + (q + multiset{u}) + d == Upto(u + 1)
  {}

  lemma DoAccounts<J>(s: State<J>, c: Command<J>)
    requires Parallel(s.table) && Accounts(s)
    ensures Accounts(Do(s, c).0)
  {
    hide WithLabel, WithoutLabel, Cleared, WithJob, Queued, Uids, QueueOf, Has, Upto;
    var t, ran := s.table, multiset(s.ran);
    match c
    case AddLabel(name, priority) => QueuedWithLabel(t, Label(name, priority, s.stamps));
    case ClearLabel(name) =>
      QueuedWithoutLabel(t, name);
      DropBooks(ran, Queued(t), s.dropped, Queued(WithoutLabel(t, name)), Uids(QueueOf(t, name)));
    case Clear(name) =>
      QueuedCleared(t, name);
      DropBooks(ran, Queued(t), s.dropped, Queued(Cleared(t, name)), Uids(QueueOf(t, name)));
    case Ask(_) =>
    case Add(name, work) =>
      if Has(t, name) {
        QueuedWithJob(t, name, Job(s.uids, work));
        AddBooks(ran, Queued(t), s.dropped, s.uids);
      }
  }

  predicate Ordered<J>(s: State<J>) { InOrder(s.table, s.stamps, s.uids) }

  lemma DoOrder<J>(s: State<J>, c: Command<J>)
    requires Ordered(s)
    ensures Ordered(Do(s, c).0)
  {
    hide InOrder;
    var t := s.table;
    assert Parallel(t) by { assert InOrder(t, s.stamps, s.uids); OrderedIsParallel(t, s.stamps, s.uids); }
    match c
    case AddLabel(name, priority) => WithLabelKeepsOrder(t, name, priority, s.stamps, s.uids);
    case ClearLabel(name) => WithoutLabelKeepsOrder(t, name, s.stamps, s.uids);
    case Clear(name) => ClearedKeepsOrder(t, name, s.stamps, s.uids);
    case Ask(_) =>
    case Add(name, work) => if Has(t, name) { WithJobKeepsOrder(t, name, work, s.stamps, s.uids); }
  }

  lemma OrderedIsParallel<J>(t: Table<J>, stamps: nat, uids: nat)
    requires InOrder(t, stamps, uids)
    ensures Parallel(t)
  {}

  /** No timeout: no timer and no work. A timeout: it is the one timer. */
  predicate Armed<J>(s: State<J>) {
    match s.timeout
    case None => s.timers == NO_TIMERS && !Busy(s.table)
    case Some(h) => s.timers == [h]
  }

  /** Labels come and go and queues are cleared without work turning up. */
  lemma IdleStays<J>(t: Table<J>, l: Label, name: string)
    requires Parallel(t) && !Busy(t)
    ensures !Busy(WithLabel(t, l)) && !Busy(WithoutLabel(t, name)) && !Busy(Cleared(t, name))
  {}

  lemma DoTimers<J>(s: State<J>, c: Command<J>)
    requires Parallel(s.table)
    ensures var s' := Do(s, c).0;
            && s'.ran == s.ran && s'.threw == s.threw && s'.uids >= s.uids
            && (s.timeout.Some? ==> s'.timeout == s.timeout && s'.timers == s.timers)
            && (Armed(s) ==> Armed(s'))
  {
    hide WithLabel, WithoutLabel, Cleared, WithJob, Uids, QueueOf, Busy;
    if !Busy(s.table) {
      match c
      case AddLabel(name, priority) => IdleStays(s.table, Label(name, priority, s.stamps), name);
      case _ => IdleStays(s.table, Label(c.name, 0, 0), c.name);
    }
  }

  // ---- what every step keeps ----

  ghost predicate Books<J>(s: State<J>) { Ordered(s) && Accounts(s) }

  lemma {:induction false} ExecKeeps<J>(s: State<J>, cs: seq<Command<J>>)
    requires Books(s)
    ensures var s' := Exec(s, cs).0;
            && Books(s') && s'.ran == s.ran && s'.threw == s.threw && s'.uids >= s.uids
            && (s.timeout.Some? ==> s'.timeout == s.timeout && s'.timers == s.timers)
            && (Armed(s) ==> Armed(s'))
    decreases |cs|
  {
    hide Do, InOrder, Armed, Accounts;
    OrderedIsParallel(s.table, s.stamps, s.uids);
    if cs != [] {
      DoOrder(s, cs[0]); DoAccounts(s, cs[0]); DoTimers(s, cs[0]);
      if !Do(s, cs[0]).1 { ExecKeeps(Do(s, cs[0]).0, cs[1..]); }
    }
  }

  lemma DispatchKeeps<J>(s: State<J>)
    requires Books(s) && Busy(s.table)
    ensures Books(s.(table := WithoutNext(s.table), ran := s.ran + [Next(s.table).uid]))
  {
    hide InOrder, Queued, WithoutNext, Next, Busy, Upto;
    DispatchOrder(s.table, s.stamps, s.uids);
    QueuedWithoutNext(s.table);
  }

  /** The invariant of the scheduler. A job that threw leaves the timeout set
      and no timer. */
  ghost predicate Invariant<J>(s: State<J>) {
    Books(s) && if s.threw then s.timeout.Some? && s.timers == NO_TIMERS else Armed(s)
  }

  lemma FireKeeps<J>(prog: Program<J>, s: State<J>)
    requires Invariant(s) && s.timers != []
    ensures Invariant(Fire(prog, s))
    ensures !Busy(s.table) ==> Fire(prog, s) == s.(timers := [], timeout := None)
    ensures Busy(s.table) ==> Fire(prog, s).timeout.Some? && Fire(prog, s).ran == s.ran + [Next(s.table).uid]
  {
    hide Exec, InOrder;
    OrderedIsParallel(s.table, s.stamps, s.uids);
    var s1 := s.(timers := s.timers[1..]);
    assert s1.timers == [];
    if Busy(s.table) {
      DispatchKeeps(s1);
      var s2 := s1.(table := WithoutNext(s1.table), ran := s1.ran + [Next(s1.table).uid]);
      ExecKeeps(s2, prog(Next(s1.table), s2.table));
    }
  }

  lemma StepKeeps<J>(prog: Program<J>, s: State<J>, e: Event<J>)
    requires Invariant(s)
    ensures Invariant(Step(prog, s, e))
  {
    hide InOrder, Accounts, Exec, Fire;
    OrderedIsParallel(s.table, s.stamps, s.uids);
    match e
    case User(cs) => ExecKeeps(s, cs);
    case Timer => if s.timers != [] { FireKeeps(prog, s); }
  }

  /** Whatever the jobs and the user code do, the invariant holds in every state
      they lead to. */
  lemma {:induction false} RunKeeps<J>(prog: Program<J>, s: State<J>, es: seq<Event<J>>)
    requires Invariant(s)
    ensures Invariant(Run(prog, s, es))
    decreases |es|
  {
    hide Step, InOrder, Accounts, Armed;
    OrderedIsParallel(s.table, s.stamps, s.uids);
    if es != [] {
      StepKeeps(prog, s, es[0]);
      RunKeeps(prog, Step(prog, s, es[0]), es[1..]);
    }
  }

  /** The fresh scheduler has the invariant, so every state it reaches does. */
  lemma StartKeeps<J>()
    ensures Invariant(Start<J>())
  {}

  // ---- what the invariant says ----

  /** Never two timers, and the one there is is the one remembered; waiting work
      has it if and only if no job has thrown. */
  lemma OneTimer<J>(prog: Program<J>, es: seq<Event<J>>)
    ensures var s := Run(prog, Start(), es);
            && |s.timers| <= 1
            && (s.timers != [] ==> s.timeout == Some(s.timers[0]))
            && (Busy(s.table) ==> (s.timers != [] <==> !s.threw))
  {
    hide Run, Accounts, InOrder;
    StartKeeps<J>();
    RunKeeps(prog, Start(), es);
  }

  /** Every job is run at most once, and only if it was added; it is in just one
      of three places; and once nothing waits, it has run unless it was dropped. */
  lemma EachJobOnce<J>(prog: Program<J>, es: seq<Event<J>>, u: nat)
    ensures var s := Run(prog, Start(), es);
            && multiset(s.ran)[u] + Queued(s.table)[u] + s.dropped[u] == (if u < s.uids then 1 else 0)
            && (!Busy(s.table) && u < s.uids && u !in s.dropped ==> multiset(s.ran)[u] == 1)
  {
    hide Run, InOrder, Armed;
    StartKeeps<J>();
    RunKeeps(prog, Start(), es);
    var s := Run(prog, Start(), es);
    assert Accounts(s);
    UptoCounts(s.uids, u);
    if !Busy(s.table) { NothingWaits(s.table.queues); }
  }

  lemma {:induction false} NothingWaits<J>(queues: seq<seq<Job<J>>>)
    requires forall i :: 0 <= i < |queues| ==> queues[i] == []
    ensures Concat(queues) == []
  {
    if queues != [] { NothingWaits(queues[1..]); }
  }

  /** A thrown job stops the scheduler for good: whatever is added later, no
      further job runs. */
  lemma {:induction false} ThrowStalls<J>(prog: Program<J>, s: State<J>, es: seq<Event<J>>)
    requires Invariant(s) && s.threw
    ensures Run(prog, s, es).ran == s.ran
    decreases |es|
  {
    hide InOrder, Accounts, Fire, Exec;
    OrderedIsParallel(s.table, s.stamps, s.uids);
    if es != [] {
      var s' := Step(prog, s, es[0]);
      StepKeeps(prog, s, es[0]);
      if es[0].User? { ExecKeeps(s, es[0].commands); }
      ThrowStalls(prog, s', es[1..]);
    }
  }

  // ---- a run that stalls ----

  lemma SlotLast(labels: seq<Label>, priority: int, i: nat)
    requires i <= |labels| && forall j :: i <= j < |labels| ==> labels[j].priority <= priority
    ensures Slot(labels, priority, i) == |labels|
  {}

  lemma LabelAtEnd<J>(s: State<J>, name: string, priority: int)
    requires Parallel(s.table) && forall j :: 0 <= j < |s.table.labels| ==> s.table.labels[j].priority <= priority
    ensures Do(s, AddLabel(name, priority)).0
         == s.(table := Table(s.table.labels + [Label(name, priority, s.stamps)], s.table.queues + [[]]), stamps := s.stamps + 1)
  {
    SlotLast(s.table.labels, priority, 0);
  }

  lemma ExecCons<J>(s: State<J>, c: Command<J>, cs: seq<Command<J>>)
    requires Parallel(s.table) && !Do(s, c).1
    ensures Parallel(Do(s, c).0.table) && Exec(s, [c] + cs) == Exec(Do(s, c).0, cs)
  {
    DoParallel(s, c);
    assert ([c] + cs)[1..] == cs;
  }

  /** The scheduler with one label and its first jobs. */
  function OneLabel<J>(name: string, works: seq<J>): State<J> {
    Start().(table := Table([Label(name, 1, 0)], [seq(|works|, i requires 0 <= i < |works| => Job(i, works[i]))]),
             stamps := 1, uids := |works|, timeout := if works == [] then None else Some(0),
             timers := if works == [] then [] else [0], nextTimer := if works == [] then 0 else 1)
  }

  lemma AddToOneLabel<J>(name: string, works: seq<J>, work: J)
    ensures Do(OneLabel(name, works), Add(name, work)) == (OneLabel(name, works + [work]), false)
  {
    var s, s' := OneLabel(name, works), OneLabel(name, works + [work]);
    assert s.table.labels[0].name == name && Find(s.table.labels, name, 0) == 0;
    assert s.table.queues[0] + [Job(|works|, work)] == s'.table.queues[0];
    assert WithJob(s.table, name, Job(s.uids, work)) == s'.table;
    assert works == [] ==> s.timers + [s.nextTimer] == s'.timers;
    assert s.(table := s'.table, uids := |works| + 1, timeout := s'.timeout, timers := s'.timers, nextTimer := s'.nextTimer) == s';
  }

  /** The calls that add a label and then jobs to it. */
  function Setup<J>(name: string, works: seq<J>): seq<Command<J>> {
    [AddLabel(name, 1)] + Adding(name, works)
  }

  function Adding<J>(name: string, works: seq<J>): seq<Command<J>> {
    seq(|works|, i requires 0 <= i < |works| => Add(name, works[i]))
  }

  lemma {:induction false} AddingReaches<J>(name: string, works: seq<J>, more: seq<J>)
    ensures Exec(OneLabel(name, works), Adding(name, more)) == (OneLabel(name, works + more), false)
    decreases |more|
  {
    hide Do;
    if more == [] {
      assert works + more == works;
    } else {
      AddToOneLabel(name, works, more[0]);
      ExecCons(OneLabel(name, works), Add(name, more[0]), Adding(name, more[1..]));
      assert Adding(name, more) == [Add(name, more[0])] + Adding(name, more[1..]);
      AddingReaches(name, works + [more[0]], more[1..]);
      assert works + [more[0]] + more[1..] == works + more;
    }
  }

  lemma SetupReaches<J>(prog: Program<J>, name: string, works: seq<J>)
    ensures Run(prog, Start(), [User(Setup(name, works))]) == OneLabel(name, works)
  {
    hide Do;
    var c: Command<J> := AddLabel(name, 1);
    LabelAtEnd(Start<J>(), name, 1);
    NeverThrows(Start<J>(), c);
    ExecCons(Start<J>(), c, Adding(name, works));
    var none: State<J> := OneLabel(name, []);
    assert none.table.queues[0] == [];
    assert none.table.queues == [[]] && [Label(name, 1, 0)] == [] + [Label(name, 1, 0)];
    assert Do(Start<J>(), c).0 == none;
    AddingReaches(name, [], works);
    assert [] + works == works;
    var es: seq<Event<J>> := [User(Setup(name, works))];
    assert es[1..] == [];
  }

  lemma NeverThrows<J>(s: State<J>, c: Command<J>)
    requires Parallel(s.table) && c.AddLabel?
    ensures !Do(s, c).1
  {}

  /** Jobs of which the true ones ask about a label that does not exist. */
  function Asking(): Program<bool> {
    (job: Job<bool>, t: Table<bool>) => if job.work then [Ask("b")] else []
  }

  /** A run from the fresh scheduler in which the first of two jobs throws: the other
      still waits, and no timer will ever come. */
  lemma ThrowReached()
    ensures var s := Run(Asking(), Start(), [User(Setup("a", [true, false])), Timer]);
            s.threw && Busy(s.table) && s.timers == [] && s.timeout.Some? && s.ran == [0]
  {
    hide Exec;
    var first: seq<Event<bool>>, last: seq<Event<bool>> := [User(Setup("a", [true, false]))], [Timer];
    SetupReaches(Asking(), "a", [true, false]);
    RunJoins(Asking(), Start(), first, last);
    assert first + last == [User(Setup("a", [true, false])), Timer];
    var s := OneLabel("a", [true, false]);
    assert last[1..] == [] && FirstBusy(s.table.queues, 0) == 0;
    var s2 := s.(timers := [], table := WithoutNext(s.table), ran := [0]);
    AskThrows(s2, "b");
    assert WithoutNext(s.table).queues[0] == [Job(1, false)];
    assert Next(s.table) == Job(0, true) && s.timers[1..] == [] && s.ran + [0] == [0];
    assert Asking()(Next(s.table), WithoutNext(s.table)) == [Ask("b")];
    assert Fire(Asking(), s) == s2.(threw := true);
  }

  lemma AskThrows<J>(s: State<J>, name: string)
    requires Parallel(s.table) && !Has(s.table, name)
    ensures Exec(s, [Ask(name)]) == (s, true)
  {}

  lemma {:induction false} RunJoins<J>(prog: Program<J>, s: State<J>, es: seq<Event<J>>, more: seq<Event<J>>)
    requires Parallel(s.table)
    ensures Run(prog, s, es + more) == Run(prog, Run(prog, s, es), more)
    decreases |es|
  {
    hide Step;
    if es == [] {
      assert es + more == more;
    } else {
      assert (es + more)[1..] == es[1..] + more;
      RunJoins(prog, Step(prog, s, es[0]), es[1..], more);
    }
  }

  // ---- draining ----

  function Ticks<J>(n: nat): seq<Event<J>> { seq(n, _ => Timer) }

  lemma TicksUnfold<J>(prog: Program<J>, s: State<J>, n: nat)
    requires Parallel(s.table) && n > 0
    ensures Run(prog, s, Ticks(n)) == Run(prog, Step(prog, s, Timer), Ticks(n - 1))
  {
    assert Ticks<J>(n)[0] == Timer && Ticks<J>(n)[1..] == Ticks<J>(n - 1);
  }

  /** How many jobs the commands can lead to, each counted with what it costs. */
  function Spawned<J>(cost: J -> nat, cs: seq<Command<J>>): nat {
    if cs == [] then 0
    else (if cs[0].Add? then 1 + cost(cs[0].work) else 0) + Spawned(cost, cs[1..])
  }

  /** Every job leads to finitely many others: `cost` bounds their number. */
  ghost predicate FinitelySpawning<J(!new)>(prog: Program<J>, cost: J -> nat) {
    forall job, t :: Spawned(cost, prog(job, t)) <= cost(job.work)
  }

  function Weight<J>(cost: J -> nat, q: seq<Job<J>>): nat {
    if q == [] then 0 else 1 + cost(q[0].work) + Weight(cost, q[1..])
  }

  lemma {:induction false} WeightConcat<J>(cost: J -> nat, a: seq<Job<J>>, b: seq<Job<J>>)
    ensures Weight(cost, a + b) == Weight(cost, a) + Weight(cost, b)
  {
    if a == [] {
      assert a + b == b;
    } else {
      assert (a + b)[1..] == a[1..] + b;
      WeightConcat(cost, a[1..], b);
    }
  }

  lemma WeightAround<J>(cost: J -> nat, queues: seq<seq<Job<J>>>, k: nat)
    requires k < |queues|
    ensures Weight(cost, Concat(queues))
         == Weight(cost, Concat(queues[..k])) + Weight(cost, queues[k]) + Weight(cost, Concat(queues[k+1..]))
  {
    hide *;
    var a, x, b := queues[..k], queues[k], queues[k+1..];
    assert queues == a + [x] + b;
    ConcatSplit(a, x, b);
    WeightConcat(cost, Concat(a) + x, Concat(b));
    WeightConcat(cost, Concat(a), x);
  }

  lemma WeightAfterChange<J>(cost: J -> nat, queues: seq<seq<Job<J>>>, k: nat, q: seq<Job<J>>)
    requires k < |queues|
    ensures Weight(cost, Concat(queues[k := q])) + Weight(cost, queues[k]) == Weight(cost, Concat(queues)) + Weight(cost, q)
  {
    var queues' := queues[k := q];
    WeightAround(cost, queues, k);
    WeightAround(cost, queues', k);
    assert queues'[..k] == queues[..k] && queues'[k+1..] == queues[k+1..];
  }

  lemma WeightWithoutQueue<J>(cost: J -> nat, queues: seq<seq<Job<J>>>, k: nat)
    requires k < |queues|
    ensures Weight(cost, Concat(RemoveAt(queues, k))) + Weight(cost, queues[k]) == Weight(cost, Concat(queues))
  {
    WeightAround(cost, queues, k);
    ConcatAppend(queues[..k], queues[k+1..]);
    WeightConcat(cost, Concat(queues[..k]), Concat(queues[k+1..]));
  }

  function Load<J>(cost: J -> nat, s: State<J>): nat { Weight(cost, Waiting(s.table)) }

  lemma DoLoad<J>(cost: J -> nat, s: State<J>, c: Command<J>)
    requires Parallel(s.table)
    ensures Load(cost, Do(s, c).0) <= Load(cost, s) + if c.Add? then 1 + cost(c.work) else 0
  {
    hide InsertAt, RemoveAt;
    var t := s.table;
    match c
    case AddLabel(name, priority) => WaitingWithQueue(t.queues, Slot(t.labels, priority, 0));
    case ClearLabel(name) => if Has(t, name) { WeightWithoutQueue(cost, t.queues, Find(t.labels, name, 0)); }
    case Clear(name) => if Has(t, name) { WeightAfterChange(cost, t.queues, Find(t.labels, name, 0), []); }
    case Ask(_) =>
    case Add(name, work) =>
      if Has(t, name) {
        var k, job := Find(t.labels, name, 0), Job(s.uids, work);
        WeightAfterChange(cost, t.queues, k, t.queues[k] + [job]);
        WeightConcat(cost, t.queues[k], [job]);
        assert Weight(cost, [job]) == 1 + cost(work);
      }
  }

  lemma {:induction false} ExecLoad<J>(cost: J -> nat, s: State<J>, cs: seq<Command<J>>)
    requires Parallel(s.table)
    ensures Load(cost, Exec(s, cs).0) <= Load(cost, s) + Spawned(cost, cs)
    decreases |cs|
  {
    hide Do, Load;
    if cs != [] {
      DoLoad(cost, s, cs[0]);
      assert Parallel(Do(s, cs[0]).0.table) by { assert Parallel(Exec(s, [cs[0]]).0.table); DoParallel(s, cs[0]); }
      if !Do(s, cs[0]).1 { ExecLoad(cost, Do(s, cs[0]).0, cs[1..]); }
    }
  }

  lemma DoParallel<J>(s: State<J>, c: Command<J>)
    requires Parallel(s.table)
    ensures Parallel(Do(s, c).0.table)
  {}

  lemma DispatchLoad<J>(cost: J -> nat, t: Table<J>)
    requires Busy(t)
    ensures Weight(cost, Waiting(WithoutNext(t))) + 1 + cost(Next(t).work) == Weight(cost, Waiting(t))
  {
    hide Concat;
    var k := FirstBusy(t.queues, 0);
    WeightAfterChange(cost, t.queues, k, t.queues[k][1..]);
  }

  /** Every dispatch lightens the load. */
  lemma FireLoad<J(!new)>(prog: Program<J>, cost: J -> nat, s: State<J>)
    requires FinitelySpawning(prog, cost) && Parallel(s.table) && s.timers != [] && Busy(s.table)
    ensures Load(cost, Fire(prog, s)) < Load(cost, s)
  {
    hide Exec, Weight, Waiting;
    var t := s.table;
    DispatchLoad(cost, t);
    var s2 := s.(timers := s.timers[1..], table := WithoutNext(t), ran := s.ran + [Next(t).uid]);
    ExecLoad(cost, s2, prog(Next(t), s2.table));
  }

  /** With finitely spawning jobs of which none throws, an armed scheduler left to
      itself becomes idle, at the firing after the last job: one firing a job and
      one more. Nothing waits then; every job that was waiting or has been added
      since has run, but for those that were dropped. */
  lemma {:induction false} Drains<J(!new)>(prog: Program<J>, cost: J -> nat, s: State<J>) returns (n: nat)
    requires Invariant(s) && s.timeout.Some? && FinitelySpawning(prog, cost)
    requires forall k: nat :: !Run(prog, s, Ticks(k)).threw
    ensures var e := Run(prog, s, Ticks(n));
            && Invariant(e) && e.timeout == None && !Busy(e.table)
            && n == |e.ran| - |s.ran| + 1
            && |e.ran| - |s.ran| == |Waiting(s.table)| + (e.uids - s.uids) - (|e.dropped| - |s.dropped|)
    ensures forall k :: 0 <= k < n ==> Run(prog, s, Ticks(k)).timeout.Some?
    decreases Load(cost, s)
  {
    hide Accounts, InOrder, Fire, Load, Exec, Armed;
    OrderedIsParallel(s.table, s.stamps, s.uids);
    assert s.timers == [s.timeout.value] by {
      assert Run(prog, s, Ticks(0)) == s;
      assert !Run(prog, s, Ticks(0)).threw;
      NotThrownMeans(s);
    }
    var s' := Fire(prog, s);
    assert Step(prog, s, Timer) == s';
    FireKeeps(prog, s);
    TicksUnfold(prog, s, 1);
    forall k: nat ensures Run(prog, s, Ticks(k + 1)) == Run(prog, s', Ticks(k)) { TicksUnfold(prog, s, k + 1); }
    if Busy(s.table) {
      FireLoad(prog, cost, s);
      forall k: nat ensures !Run(prog, s', Ticks(k)).threw { assert !Run(prog, s, Ticks(k + 1)).threw; }
      var m := Drains(prog, cost, s');
      n := m + 1;
      forall k | 0 <= k < n ensures Run(prog, s, Ticks(k)).timeout.Some? {
        if k > 0 { assert Run(prog, s, Ticks(k)) == Run(prog, s', Ticks(k - 1)); }
      }
    } else {
      n := 1;
    }
    RunKeeps(prog, s, Ticks(n));
    JobCount(s); JobCount(Run(prog, s, Ticks(n)));
    NothingWaitsWhenIdle(Run(prog, s, Ticks(n)).table);
  }

  lemma NotThrownMeans<J>(s: State<J>)
    requires Invariant(s) && !s.threw && s.timeout.Some?
    ensures s.timers == [s.timeout.value]
  {}

  lemma NothingWaitsWhenIdle<J>(t: Table<J>)
    requires !Busy(t)
    ensures Waiting(t) == []
  {
    NothingWaits(t.queues);
  }

  /** Jobs run, waiting and dropped add up to the jobs added. */
  lemma JobCount<J>(s: State<J>)
    requires Accounts(s)
    ensures |s.ran| + |Waiting(s.table)| + |s.dropped| == s.uids
  {
    UptoCounts(s.uids, 0);
    UidsSize(Waiting(s.table));
    assert |multiset(s.ran) + Queued(s.table) + s.dropped| == s.uids;
  }

  // ---- runs with user code in between ----

  /** What user code adds in a run, each job counted with what it costs. */
  function Demand<J>(cost: J -> nat, es: seq<Event<J>>): nat {
    if es == [] then 0
    else (if es[0].User? then Spawned(cost, es[0].commands) else 0) + Demand(cost, es[1..])
  }

  /** However user code and timers interleave, the jobs run are bounded by what
      user code asked for. */
  lemma {:induction false} JobsBounded<J(!new)>(prog: Program<J>, cost: J -> nat, s: State<J>, es: seq<Event<J>>)
    requires Invariant(s) && FinitelySpawning(prog, cost)
    ensures var e := Run(prog, s, es); |e.ran| + Load(cost, e) <= |s.ran| + Load(cost, s) + Demand(cost, es)
    decreases |es|
  {
    hide Accounts, InOrder, Fire, Load, Exec, Armed, FinitelySpawning;
    OrderedIsParallel(s.table, s.stamps, s.uids);
    if es != [] {
      var s' := Step(prog, s, es[0]);
      StepKeeps(prog, s, es[0]);
      match es[0] {
        case User(cs) => ExecLoad(cost, s, cs); ExecKeeps(s, cs);
        case Timer =>
          if s.timers != [] {
            FireKeeps(prog, s);
            if Busy(s.table) { FireLoad(prog, cost, s); } else { IdleFireLoad(cost, s, s'); }
          }
      }
      JobsBounded(prog, cost, s', es[1..]);
    }
  }

  lemma IdleFireLoad<J>(cost: J -> nat, s: State<J>, s': State<J>)
    requires s'.table == s.table
    ensures Load(cost, s') == Load(cost, s)
  {}

  // ---- what a command does ----

  /** The label that the name finds. */
  predicate Names<J>(t: Table<J>, name: string, l: Label)
    requires Parallel(t)
  {
    exists k :: 0 <= k < |t.labels| && t.labels[k] == l && l.name == name
                && forall j :: 0 <= j < k ==> t.labels[j].name != name
  }

  lemma FoundNames<J>(t: Table<J>, name: string, l: Label)
    requires Parallel(t)
    ensures Names(t, name, l) <==> Has(t, name) && l == t.labels[Find(t.labels, name, 0)]
  {
    var k := Find(t.labels, name, 0);
    if Has(t, name) && l == t.labels[k] { assert t.labels[k].name == name; }
  }

  /** A new label is there with an empty queue, a cleared one is gone, a job stands at the
      end of its label's queue, a cleared queue is empty; every other label has its
      queue. Only a first job asks for a timer, and an unknown name throws and changes
      nothing, except that clearing it does not throw. */
  lemma CommandMeans<J>(s: State<J>, c: Command<J>)
    requires InOrder(s.table, s.stamps, s.uids)
    ensures var (s', threw) := Do(s, c);
            var t, t' := s.table, s'.table;
            && Parallel(t) && Parallel(t')
            && (threw <==> (c.Add? || c.Ask?) && !Has(t, c.name))
            && (threw || c.Ask? ==> s' == s)
            && (c.Add? && !threw && s.timeout.None? ==>
                  s'.timers == s.timers + [s.nextTimer] && s'.timeout == Some(s.nextTimer))
            && (!c.Add? || threw || s.timeout.Some? ==> s'.timers == s.timers && s'.timeout == s.timeout)
            && (forall l, q :: Holds(t', l, q) <==>
                  match c
                  case AddLabel(name, priority) => Holds(t, l, q) || (l == Label(name, priority, s.stamps) && q == [])
                  case ClearLabel(name) => Holds(t, l, q) && !Names(t, name, l)
                  case Clear(name) => if Names(t, name, l) then q == [] else Holds(t, l, q)
                  case Add(name, work) =>
                    if Names(t, name, l) then q == QueueOf(t, name) + [Job(s.uids, work)] else Holds(t, l, q)
                  case Ask(_) => Holds(t, l, q))
  {
    hide Holds, WithLabel, WithoutLabel, WithJob, Cleared, Names, Uids;
    forall name, l ensures Names(s.table, name, l) <==> Has(s.table, name) && l == s.table.labels[Find(s.table.labels, name, 0)] {
      FoundNames(s.table, name, l);
    }
    match c {
      case AddLabel(name, priority) => WithLabelKeepsOrder(s.table, name, priority, s.stamps, s.uids);
      case ClearLabel(name) => WithoutLabelKeepsOrder(s.table, name, s.stamps, s.uids);
      case Clear(name) => ClearedKeepsOrder(s.table, name, s.stamps, s.uids);
      case Add(name, work) => if Has(s.table, name) { WithJobKeepsOrder(s.table, name, work, s.stamps, s.uids); }
      case Ask(_) =>
    }
  }

  /** Commands are executed in turn: behind some that did not throw comes the next, and if
      it throws, nothing behind it is executed. */
  lemma {:induction false} ExecInTurn<J>(s: State<J>, front: seq<Command<J>>, c: Command<J>, rest: seq<Command<J>>)
    requires Parallel(s.table) && !Exec(s, front).1
    ensures var s' := Exec(s, front).0;
            Exec(s, front + [c] + rest) == if Do(s', c).1 then (Do(s', c).0, true) else Exec(Do(s', c).0, rest)
    decreases |front|
  {
    hide Do;
    DoParallel(Exec(s, front).0, c);
    if front == [] {
      assert front + [c] + rest == [c] + rest && ([c] + rest)[1..] == rest;
    } else {
      var next := Do(s, front[0]);
      DoParallel(s, front[0]);
      assert !next.1 && Exec(s, front) == Exec(next.0, front[1..]);
      ExecInTurn(next.0, front[1..], c, rest);
      assert (front + [c] + rest)[0] == front[0] && (front + [c] + rest)[1..] == front[1..] + [c] + rest;
    }
  }
}

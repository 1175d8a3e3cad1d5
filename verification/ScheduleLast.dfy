/** `scheduleLast`: a request that calls its function once its label's queue is
    empty, and queues itself again as long as it is not. */
module ScheduleLast {
  import opened Prelude
  import opened WorkQueues
  import opened Scheduler
  import opened SchedulerRuns

  /** A queued job: an ordinary one, or a request waiting to be last. */
  datatype Work<J> = Plain(work: J) | Last(name: string, fn: J)

  /** The calls of the scheduler that an ordinary job or a requested function makes. */
  type Base<!J> = (J, Table<Work<J>>) -> seq<Command<Work<J>>>

  /** The calls a request makes: those of its function, or queueing itself again.
      An unknown label throws. */
  function Request<J>(base: Base<J>, t: Table<Work<J>>, name: string, fn: J): seq<Command<Work<J>>>
    requires Parallel(t)
  {
    if !Has(t, name) then [Ask(name)]
    else if QueueOf(t, name) == [] then base(fn, t)
    else [Add(name, Last(name, fn))]
  }

  function Prog<J>(base: Base<J>): Program<Work<J>> {
    (job: Job<Work<J>>, t: Table<Work<J>>) =>
      match job.work
      case Plain(work) => base(work, t)
      case Last(name, fn) => if Parallel(t) then Request(base, t, name, fn) else []
  }

  /** `scheduleLast` called by user code. */
  method Schedule<J>(base: Base<J>, sch: Scheduler<Work<J>>, name: string, fn: J) returns (thrown: bool)
    requires sch.Valid()
    modifies sch
    ensures sch.Valid()
    ensures (sch.Value(), thrown) == Exec(old(sch.Value()), Request(base, old(sch.Value().table), name, fn))
    ensures var s := old(sch.Value());
            && (!Has(s.table, name) ==> thrown && sch.Value() == s)
            && (Has(s.table, name) && QueueOf(s.table, name) == [] ==>
                  (sch.Value(), thrown) == Exec(s, base(fn, s.table)))
            && (Has(s.table, name) && QueueOf(s.table, name) != [] ==>
                  (sch.Value(), thrown) == Do(s, Add(name, Last(name, fn))))
  {
    ghost var s := sch.Value();
    var t := Table(sch.labels, sch.queues);
    var empty := sch.QueueEmpty(name);
    if empty == None {
      assert Request(base, t, name, fn)[1..] == [];
      return true;
    }
    if empty.value {
      thrown := sch.Execute(base(fn, t));
    } else {
      assert Request(base, t, name, fn)[1..] == [];
      thrown := sch.Add(name, Last(name, fn));
    }
  }

  // ---- which functions a run calls ----

  /** The state after a firing that takes the next job away and executes the function, and
      asks for the next timer unless the function has thrown. */
  ghost function AfterCall<J>(base: Base<J>, s: State<Work<J>>, fn: J): State<Work<J>>
    requires Parallel(s.table) && Busy(s.table) && s.timers != []
  {
    var t := WithoutNext(s.table);
    var (s', threw) := Exec(s.(timers := s.timers[1..], table := t, ran := s.ran + [Next(s.table).uid]), base(fn, t));
    if threw then s'.(threw := true)
    else s'.(timeout := Some(s'.nextTimer), timers := s'.timers + [s'.nextTimer], nextTimer := s'.nextTimer + 1)
  }

  /** The label and function of the request that the next firing takes away with its
      label's queue empty otherwise, and whose function it executes. */
  ghost function CallNow<J>(base: Base<J>, s: State<Work<J>>): Option<(string, J)>
    requires Parallel(s.table)
  {
    if s.timers == [] || !Busy(s.table) || Next(s.table).work.Plain? then None
    else
      var t, work := WithoutNext(s.table), Next(s.table).work;
      if Has(t, work.name) && QueueOf(t, work.name) == [] && Fire(Prog(base), s) == AfterCall(base, s, work.fn)
      then Some((work.name, work.fn)) else None
  }

  /** A request whose label's queue is empty executes its function. */
  lemma RequestExecutes<J>(base: Base<J>, s: State<Work<J>>, name: string, fn: J)
    requires Parallel(s.table) && s.timers != [] && Busy(s.table) && Next(s.table).work == Last(name, fn)
    requires Has(WithoutNext(s.table), name) && QueueOf(WithoutNext(s.table), name) == []
    ensures Fire(Prog(base), s) == AfterCall(base, s, fn) && CallNow(base, s) == Some((name, fn))
  {
    hide Exec;
    var t := WithoutNext(s.table);
    assert Parallel(t);
    assert Prog(base)(Next(s.table), t) == Request(base, t, name, fn) == base(fn, t);
  }

  /** An ordinary job executes itself, and a request whose label's queue is not empty only
      queues itself again. */
  lemma OthersExecute<J>(base: Base<J>, s: State<Work<J>>, work: Work<J>)
    requires Parallel(s.table) && s.timers != [] && Busy(s.table) && Next(s.table).work == work
    ensures work.Plain? ==> Fire(Prog(base), s) == AfterCall(base, s, work.work)
    ensures work.Last? && Has(WithoutNext(s.table), work.name) && QueueOf(WithoutNext(s.table), work.name) != [] ==>
              Fire(Prog(base), s) == AfterCall((_, _) => [Add(work.name, work)], s, work.fn)
  {
    hide Exec;
    var t := WithoutNext(s.table);
    assert Parallel(t);
    if work.Last? && Has(t, work.name) && QueueOf(t, work.name) != [] {
      assert Prog(base)(Next(s.table), t) == Request(base, t, work.name, work.fn) == [Add(work.name, work)];
    }
  }

  ghost function Calls<J>(base: Base<J>, s: State<Work<J>>, es: seq<Event<Work<J>>>): seq<(string, J)>
    requires Parallel(s.table)
    decreases |es|
  {
    if es == [] then []
    else
      (if es[0].Timer? && CallNow(base, s).Some? then [CallNow(base, s).value] else [])
      + Calls(base, Step(Prog(base), s, es[0]), es[1..])
  }

  // ---- two outstanding requests starve ----

  /** Commands that leave the label's queue in place. */
  predicate Gentle<J>(c: Command<Work<J>>, name: string) {
    c.Ask? || c.Add? || (c.Clear? && c.name != name)
  }

  predicate AllGentle<J>(cs: seq<Command<Work<J>>>, name: string) {
    forall i :: 0 <= i < |cs| ==> Gentle(cs[i], name)
  }

  ghost predicate GentleBase<J(!new)>(base: Base<J>, name: string) {
    forall work, t :: AllGentle(base(work, t), name)
  }

  ghost predicate GentleEvents<J>(es: seq<Event<Work<J>>>, name: string) {
    forall i :: 0 <= i < |es| && es[i].User? ==> AllGentle(es[i].commands, name)
  }

  /** The functions of the label's requests that stand in a queue. */
  function Fns<J(==)>(q: seq<Job<Work<J>>>, name: string): multiset<J> {
    if q == [] then multiset{}
    else (if q[0].work.Last? && q[0].work.name == name then multiset{q[0].work.fn} else multiset{}) + Fns(q[1..], name)
  }

  lemma {:induction false} FnsSnoc<J>(q: seq<Job<Work<J>>>, job: Job<Work<J>>, name: string)
    ensures Fns(q + [job], name) == Fns(q, name) + Fns([job], name)
  {
    if q == [] {
      assert q + [job] == [job];
    } else {
      assert (q + [job])[1..] == q[1..] + [job];
      FnsSnoc(q[1..], job, name);
    }
  }

  /** The functions the label's own queue holds requests for. */
  function Pending<J(==)>(t: Table<Work<J>>, name: string): multiset<J>
    requires Parallel(t)
  {
    Fns(QueueOf(t, name), name)
  }

  lemma DoPending<J>(s: State<Work<J>>, c: Command<Work<J>>, name: string)
    requires Parallel(s.table) && Has(s.table, name) && Gentle(c, name)
    ensures var t' := Do(s, c).0.table;
            Parallel(t') && Has(t', name) && Pending(s.table, name) <= Pending(t', name)
  {
    hide Fns;
    var t := s.table;
    if c.Add? && Has(t, c.name) { FnsSnoc(QueueOf(t, c.name), Job(s.uids, c.work), name); }
  }

  lemma {:induction false} ExecPending<J>(s: State<Work<J>>, cs: seq<Command<Work<J>>>, name: string)
    requires Parallel(s.table) && Has(s.table, name) && AllGentle(cs, name)
    ensures var t' := Exec(s, cs).0.table;
            Has(t', name) && Pending(s.table, name) <= Pending(t', name)
    decreases |cs|
  {
    hide Do, Has, Pending;
    if cs != [] {
      DoPending(s, cs[0], name);
      if !Do(s, cs[0]).1 { ExecPending(Do(s, cs[0]).0, cs[1..], name); }
    }
  }

  /** A dispatch leaves the requests alone, but for the one it dispatches. */
  lemma DispatchPending<J>(t: Table<Work<J>>, name: string)
    requires Parallel(t) && Has(t, name) && Busy(t)
    ensures var t', work := WithoutNext(t), Next(t).work;
            && Has(t', name) && Parallel(t')
            && (Pending(t', name) == Pending(t, name)
                || (work.Last? && work.name == name && Pending(t, name) == Pending(t', name) + multiset{work.fn}))
  {}

  lemma EmptyPending<J>(t: Table<Work<J>>, name: string)
    requires Parallel(t) && QueueOf(t, name) == []
    ensures Pending(t, name) == multiset{}
  {}

  lemma AddedAgain<J>(s: State<Work<J>>, name: string, fn: J)
    requires Parallel(s.table) && Has(s.table, name)
    ensures Exec(s, [Add(name, Last(name, fn))]).0.table == WithJob(s.table, name, Job(s.uids, Last(name, fn)))
  {
    hide WithJob;
    var c: Command<Work<J>> := Add(name, Last(name, fn));
    assert [c][1..] == [];
    assert Exec(s, [c]).0 == Do(s, c).0;
  }

  /** A request that finds another one queues itself again. */
  lemma RequeuePending<J>(s: State<Work<J>>, name: string, fn: J)
    requires Parallel(s.table) && Has(s.table, name)
    ensures var s' := Exec(s, [Add(name, Last(name, fn))]).0;
            Has(s'.table, name) && Pending(s'.table, name) == Pending(s.table, name) + multiset{fn}
  {
    hide Exec;
    AddedAgain(s, name, fn);
    var job := Job(s.uids, Last(name, fn));
    FnsSnoc(QueueOf(s.table, name), job, name);
    assert Fns([job], name) == multiset{fn} + Fns([], name);
  }

  /** While two requests for a label are outstanding, a firing calls neither and
      drops neither. */
  lemma FirePending<J(!new)>(base: Base<J>, s: State<Work<J>>, name: string)
    requires Parallel(s.table) && Has(s.table, name) && GentleBase(base, name) && s.timers != []
    requires |Pending(s.table, name)| >= 2
    ensures var s' := Fire(Prog(base), s);
            Has(s'.table, name) && Pending(s.table, name) <= Pending(s'.table, name)
    ensures CallNow(base, s).Some? ==> CallNow(base, s).value.0 != name
  {
    hide Exec, Pending, Has, WithoutNext, Next, Busy, Request;
    var t := s.table;
    if Busy(t) {
      var s2 := s.(timers := s.timers[1..], table := WithoutNext(t), ran := s.ran + [Next(t).uid]);
      DispatchPending(t, name);
      var cs := Prog(base)(Next(t), s2.table);
      if Pending(s2.table, name) == Pending(t, name) {
        ProgGentle(base, Next(t), s2.table, name);
        ExecPending(s2, cs, name);
        if QueueOf(s2.table, name) == [] { EmptyPending(s2.table, name); }
      } else {
        var fn := Next(t).work.fn;
        assert |Pending(t, name)| == |Pending(s2.table, name)| + 1;
        if QueueOf(s2.table, name) == [] { EmptyPending(s2.table, name); }
        RequestAgain(base, s2.table, name, fn);
        RequeuePending(s2, name, fn);
      }
    }
  }

  lemma ProgGentle<J(!new)>(base: Base<J>, job: Job<Work<J>>, t: Table<Work<J>>, name: string)
    requires GentleBase(base, name)
    ensures AllGentle(Prog(base)(job, t), name)
  {
    match job.work
    case Plain(work) => assert AllGentle(base(work, t), name);
    case Last(other, fn) =>
      assert AllGentle(base(fn, t), name);
      if Parallel(t) { assert Prog(base)(job, t) == Request(base, t, other, fn); }
  }

  lemma RequestAgain<J>(base: Base<J>, t: Table<Work<J>>, name: string, fn: J)
    requires Parallel(t) && Has(t, name) && QueueOf(t, name) != []
    ensures Request(base, t, name, fn) == [Add(name, Last(name, fn))]
  {}

  /** With two requests for a label outstanding, none of the label's requests is
      ever called, and both stay pending in every later state, whatever else is
      added: each always finds the other in the queue. */
  lemma {:induction false} TwoRequestsStarve<J(!new)>(base: Base<J>, s: State<Work<J>>, es: seq<Event<Work<J>>>, name: string)
    requires Parallel(s.table) && Has(s.table, name) && GentleBase(base, name) && GentleEvents(es, name)
    requires |Pending(s.table, name)| >= 2
    ensures var t := Run(Prog(base), s, es).table;
            Has(t, name) && Pending(s.table, name) <= Pending(t, name)
    ensures forall call :: call in Calls(base, s, es) ==> call.0 != name
    decreases |es|
  {
    hide Exec, Pending, Has, Fire, CallNow, GentleBase;
    if es != [] {
      var s' := Step(Prog(base), s, es[0]);
      match es[0] {
        case User(cs) => ExecPending(s, cs, name);
        case Timer =>
          if s.timers != [] { FirePending(base, s, name); } else { NoTimerNoCall(base, s); }
      }
      NotFewer(Pending(s.table, name), Pending(s'.table, name));
      TwoRequestsStarve(base, s', es[1..], name);
    }
  }

  lemma NoTimerNoCall<J>(base: Base<J>, s: State<Work<J>>)
    requires Parallel(s.table) && s.timers == []
    ensures CallNow(base, s) == None
  {}

  lemma NotFewer<T>(a: multiset<T>, b: multiset<T>)
    requires a <= b
    ensures |a| <= |b|
  {
    assert b == a + (b - a);
  }

  /** Two calls of `scheduleLast` for a busy label of a fresh scheduler reach such a
      state: neither finds the queue empty, so both are queued. */
  lemma TwoRequestsReached<J>(base: Base<J>, job: J, f: J, g: J)
    ensures var s1 := Run(Prog(base), Start(), [User(Setup("a", [Plain(job)]))]);
            var s2 := Run(Prog(base), s1, [User(Request(base, s1.table, "a", f))]);
            var s3 := Run(Prog(base), s2, [User(Request(base, s2.table, "a", g))]);
            Has(s3.table, "a") && Pending(s3.table, "a") == multiset{f, g}
  {
    hide Exec;
    var s1 := Run(Prog(base), Start(), [User(Setup("a", [Plain(job)]))]);
    SetupReaches(Prog(base), "a", [Plain(job)]);
    RequestAdds(base, [Plain(job)], f);
    RequestAdds(base, [Plain(job), Last("a", f)], g);
    var s3 := OneLabel("a", [Plain(job), Last("a", f)] + [Last("a", g)]);
    assert Find(s3.table.labels, "a", 0) == 0;
    var q := s3.table.queues[0];
    assert q == [Job(0, Plain(job)), Job(1, Last("a", f)), Job(2, Last("a", g))];
    assert q[1..] == [q[1], q[2]] && q[1..][1..] == [q[2]] && q[1..][1..][1..] == [];
    assert Fns([q[2]], "a") == multiset{g} + Fns<J>([], "a");
    assert Fns(q[1..], "a") == multiset{f} + multiset{g};
    assert Fns(q, "a") == multiset{f} + multiset{g};
    assert [Plain(job)] + [Last("a", f)] == [Plain(job), Last("a", f)];
  }

  lemma RequestAdds<J>(base: Base<J>, works: seq<Work<J>>, f: J)
    requires works != []
    ensures var s := OneLabel("a", works);
            Run(Prog(base), s, [User(Request(base, s.table, "a", f))]) == OneLabel("a", works + [Last("a", f)])
  {
    hide Do;
    var s := OneLabel("a", works);
    assert Find(s.table.labels, "a", 0) == 0;
    RequestAgain(base, s.table, "a", f);
    AddToOneLabel("a", works, Last("a", f));
    var cs: seq<Command<Work<J>>> := [Add("a", Last("a", f))];
    ExecCons(s, cs[0], []);
    assert [cs[0]] + [] == cs;
    var es: seq<Event<Work<J>>> := [User(cs)];
    assert es[1..] == [];
  }

  // ---- one request a label: each is called once ----

  /** Commands of jobs that make no requests themselves and clear no label that
      holds one. */
  predicate AllCalm<J>(cs: seq<Command<Work<J>>>, names: set<string>) {
    forall i :: 0 <= i < |cs| ==>
      cs[i].Ask? || (cs[i].Add? && cs[i].work.Plain?) || (cs[i].Clear? && cs[i].name !in names)
  }

  ghost predicate CalmBase<J(!new)>(base: Base<J>, names: set<string>) {
    forall work, t :: AllCalm(base(work, t), names)
  }

  /** Every request stands in its own label's queue, where `scheduleLast` puts it. */
  predicate InPlace<J>(t: Table<Work<J>>, names: set<string>) {
    Parallel(t) &&
    forall i, j :: 0 <= i < |t.queues| && 0 <= j < |t.queues[i]| && t.queues[i][j].work.Last? ==>
      t.queues[i][j].work.name in names && SlotOf(t, t.queues[i][j].work.name) == Some(i)
  }

  /** No label holds two requests. */
  predicate OneEach<J>(t: Table<Work<J>>) {
    forall i, j, k :: 0 <= i < |t.queues| && 0 <= j < k < |t.queues[i]| ==>
      t.queues[i][j].work.Plain? || t.queues[i][k].work.Plain?
  }

  /** The requests that stand in a queue. */
  function Asked<J(==)>(q: seq<Job<Work<J>>>): multiset<(string, J)> {
    if q == [] then multiset{}
    else (if q[0].work.Last? then multiset{(q[0].work.name, q[0].work.fn)} else multiset{}) + Asked(q[1..])
  }

  /** All outstanding requests. */
  function Outstanding<J(==)>(t: Table<Work<J>>): multiset<(string, J)> { Asked(Concat(t.queues)) }

  lemma {:induction false} AskedConcat<J>(a: seq<Job<Work<J>>>, b: seq<Job<Work<J>>>)
    ensures Asked(a + b) == Asked(a) + Asked(b)
  {
    if a == [] {
      assert a + b == b;
    } else {
      assert (a + b)[1..] == a[1..] + b;
      AskedConcat(a[1..], b);
    }
  }

  lemma AskedAround<J>(queues: seq<seq<Job<Work<J>>>>, k: nat)
    requires k < |queues|
    ensures Asked(Concat(queues)) == Asked(Concat(queues[..k])) + Asked(queues[k]) + Asked(Concat(queues[k+1..]))
  {
    hide *;
    var a, x, b := queues[..k], queues[k], queues[k+1..];
    assert queues == a + [x] + b;
    ConcatSplit(a, x, b);
    AskedConcat(Concat(a) + x, Concat(b));
    AskedConcat(Concat(a), x);
  }

  lemma AskedAfterChange<J>(queues: seq<seq<Job<Work<J>>>>, k: nat, q: seq<Job<Work<J>>>)
    requires k < |queues|
    ensures Asked(Concat(queues[k := q])) + Asked(queues[k]) == Asked(Concat(queues)) + Asked(q)
  {
    hide Asked, Concat;
    var queues' := queues[k := q];
    AskedAround(queues, k);
    AskedAround(queues', k);
    assert queues'[..k] == queues[..k] && queues'[k+1..] == queues[k+1..];
  }

  lemma {:induction false} AskedOfPlain<J>(q: seq<Job<Work<J>>>)
    requires forall j :: 0 <= j < |q| ==> q[j].work.Plain?
    ensures Asked(q) == multiset{}
  {
    if q != [] { AskedOfPlain(q[1..]); }
  }

  /** A queue that changes without its requests changing. */
  lemma SameAsked<J>(queues: seq<seq<Job<Work<J>>>>, k: nat, q: seq<Job<Work<J>>>)
    requires k < |queues| && Asked(q) == Asked(queues[k])
    ensures Asked(Concat(queues[k := q])) == Asked(Concat(queues))
  {
    AskedAfterChange(queues, k, q);
    CancelAny(Asked(Concat(queues[k := q])), Asked(Concat(queues)), Asked(q));
  }

  lemma CancelAny<T>(a: multiset<T>, b: multiset<T>, x: multiset<T>)
    requires a + x == b + x
    ensures a == b
  {
    forall u ensures a[u] == b[u] { assert (a + x)[u] == (b + x)[u]; }
  }

  lemma DoAsked<J>(s: State<Work<J>>, c: Command<Work<J>>, names: set<string>)
    requires InPlace(s.table, names) && AllCalm([c], names)
    ensures Outstanding(Do(s, c).0.table) == Outstanding(s.table)
  {
    hide WithLabel, WithoutLabel, Asked, Concat;
    assert [c][0] == c;
    var t := s.table;
    if c.Add? && Has(t, c.name) {
      var k, job := Find(t.labels, c.name, 0), Job(s.uids, c.work);
      AskedConcat(t.queues[k], [job]);
      AskedOfPlain([job]);
      SameAsked(t.queues, k, t.queues[k] + [job]);
    } else if c.Clear? && Has(t, c.name) {
      AskedOfPlain(t.queues[Find(t.labels, c.name, 0)]);
      AskedOfPlain<J>([]);
      SameAsked(t.queues, Find(t.labels, c.name, 0), []);
    }
  }

  lemma SlotsKept<J>(t: Table<J>, queues: seq<seq<Job<J>>>)
    requires |queues| == |t.queues|
    ensures forall name :: SlotOf(t.(queues := queues), name) == SlotOf(t, name)
  {}

  /** One queue changes to one that may stand there. */
  lemma QueueCalm<J>(t: Table<Work<J>>, k: nat, q: seq<Job<Work<J>>>, names: set<string>)
    requires InPlace(t, names) && OneEach(t) && k < |t.queues|
    requires forall j :: 0 <= j < |q| && q[j].work.Last? ==>
               q[j].work.name in names && SlotOf(t, q[j].work.name) == Some(k)
    requires forall j, l :: 0 <= j < l < |q| ==> q[j].work.Plain? || q[l].work.Plain?
    ensures var t' := t.(queues := t.queues[k := q]); InPlace(t', names) && OneEach(t')
  {
    hide SlotOf;
    SlotsKept(t, t.queues[k := q]);
  }

  lemma DoCalm<J>(s: State<Work<J>>, c: Command<Work<J>>, names: set<string>)
    requires InPlace(s.table, names) && OneEach(s.table) && AllCalm([c], names)
    ensures InPlace(Do(s, c).0.table, names) && OneEach(Do(s, c).0.table)
  {
    hide WithLabel, WithoutLabel, Uids, InPlace, OneEach;
    assert [c][0] == c;
    var t := s.table;
    ParallelIsIn(t, names);
    if !c.Ask? && SlotOf(t, c.name).Some? {
      var k := SlotOf(t, c.name).value;
      if c.Add? { AddPlainCalm(t, k, Job(s.uids, c.work), names); } else { QueueCalm(t, k, [], names); }
    }
  }

  lemma AddPlainCalm<J>(t: Table<Work<J>>, k: nat, job: Job<Work<J>>, names: set<string>)
    requires InPlace(t, names) && OneEach(t) && k < |t.queues| && job.work.Plain?
    ensures var t' := t.(queues := t.queues[k := t.queues[k] + [job]]); InPlace(t', names) && OneEach(t')
  {
    hide SlotOf;
    QueueCalm(t, k, t.queues[k] + [job], names);
  }

  lemma {:induction false} ExecCalm<J>(s: State<Work<J>>, cs: seq<Command<Work<J>>>, names: set<string>)
    requires InPlace(s.table, names) && OneEach(s.table) && AllCalm(cs, names)
    ensures var t' := Exec(s, cs).0.table; InPlace(t', names) && OneEach(t') && Outstanding(t') == Outstanding(s.table)
    decreases |cs|
  {
    hide Do, Outstanding, OneEach;
    if cs != [] {
      DoCalm(s, cs[0], names);
      DoAsked(s, cs[0], names);
      if !Do(s, cs[0]).1 { ExecCalm(Do(s, cs[0]).0, cs[1..], names); }
    }
  }

  lemma DispatchAsked<J>(t: Table<Work<J>>)
    requires Busy(t)
    ensures var work := Next(t).work;
            Outstanding(t) == Outstanding(WithoutNext(t)) + (if work.Last? then multiset{(work.name, work.fn)} else multiset{})
  {
    hide Concat;
    var k := FirstBusy(t.queues, 0);
    var q := t.queues[k];
    AskedAfterChange(t.queues, k, q[1..]);
    var one := if q[0].work.Last? then multiset{(q[0].work.name, q[0].work.fn)} else multiset{};
    assert Asked(q) == one + Asked(q[1..]);
    CancelAny(Outstanding(WithoutNext(t)) + one, Outstanding(t), Asked(q[1..]));
  }

  /** A dispatch takes at most one request away, that of the dispatched job. A
      request stands in the first busy queue, and nothing else there is one. */
  lemma DispatchCalm<J>(t: Table<Work<J>>, names: set<string>)
    requires InPlace(t, names) && OneEach(t) && Busy(t)
    ensures var t', work := WithoutNext(t), Next(t).work;
            && InPlace(t', names) && OneEach(t')
            && (work.Last? ==> Has(t', work.name) && work.name in names && Asked(QueueOf(t', work.name)) == multiset{})
            && (work.Last? ==> forall i :: 0 <= i < Find(t'.labels, work.name, 0) ==> t'.queues[i] == [])
  {
    hide Outstanding, Asked;
    var k := FirstBusy(t.queues, 0);
    var q := t.queues[k];
    QueueCalm(t, k, q[1..], names);
    if q[0].work.Last? {
      assert SlotOf(t, q[0].work.name) == Some(k);
      AskedOfPlain(q[1..]);
    }
  }

  /** The dispatched job is a request. */
  predicate HeadAsks<J>(t: Table<Work<J>>) { Busy(t) && Next(t).work.Last? }

  lemma RequeueAsked<J>(t: Table<Work<J>>, job: Job<Work<J>>)
    requires Parallel(t) && job.work.Last? && Has(t, job.work.name)
    ensures Outstanding(WithJob(t, job.work.name, job)) == Outstanding(t) + multiset{(job.work.name, job.work.fn)}
  {
    hide Concat;
    var k := Find(t.labels, job.work.name, 0);
    var q := t.queues[k];
    AskedConcat(q, [job]);
    assert Asked([job]) == multiset{(job.work.name, job.work.fn)} + Asked<J>([]);
    AskedAfterChange(t.queues, k, q + [job]);
    CancelAny(Outstanding(WithJob(t, job.work.name, job)), Outstanding(t) + multiset{(job.work.name, job.work.fn)}, Asked(q));
  }

  /** A request that is not called goes to the back of its queue, which is the
      first busy one; an ordinary job stands at the front of it then. */
  lemma RequeueCalm<J>(t: Table<Work<J>>, names: set<string>, job: Job<Work<J>>)
    requires InPlace(t, names) && OneEach(t) && job.work.Last? && job.work.name in names && Has(t, job.work.name)
    requires QueueOf(t, job.work.name) != [] && Asked(QueueOf(t, job.work.name)) == multiset{}
    requires forall i :: 0 <= i < Find(t.labels, job.work.name, 0) ==> t.queues[i] == []
    ensures var t' := WithJob(t, job.work.name, job); InPlace(t', names) && OneEach(t') && !HeadAsks(t')
  {
    hide Asked, InPlace, OneEach;
    assert Parallel(t) by { ParallelIsIn(t, names); }
    var k := Find(t.labels, job.work.name, 0);
    var q := t.queues[k];
    NoneAsked(q);
    QueueCalm(t, k, q + [job], names);
    var t' := WithJob(t, job.work.name, job);
    assert t'.queues[k][0] == q[0] && FirstBusy(t'.queues, 0) == k;
  }

  lemma ParallelIsIn<J>(t: Table<Work<J>>, names: set<string>)
    requires InPlace(t, names)
    ensures Parallel(t)
  {}

  lemma {:induction false} NoneAsked<J>(q: seq<Job<Work<J>>>)
    requires Asked(q) == multiset{}
    ensures forall j :: 0 <= j < |q| ==> q[j].work.Plain?
  {
    if q != [] {
      NoneAsked(q[1..]);
    }
  }

  /** The cost of a request is that of its function. */
  function WorkCost<J>(cost: J -> nat): Work<J> -> nat {
    (work: Work<J>) => match work case Plain(w) => cost(w) case Last(_, fn) => cost(fn)
  }

  ghost predicate FiniteBase<J(!new)>(base: Base<J>, cost: J -> nat) {
    forall work, t :: Spawned(WorkCost(cost), base(work, t)) <= cost(work)
  }

  lemma RequeueLoad<J>(cost: J -> nat, s: State<Work<J>>, name: string, fn: J)
    requires Parallel(s.table) && Has(s.table, name)
    ensures Load(WorkCost(cost), Exec(s, [Add(name, Last(name, fn))]).0) == Load(WorkCost(cost), s) + 1 + cost(fn)
  {
    hide Exec, Concat;
    AddedAgain(s, name, fn);
    var t, k, job := s.table, Find(s.table.labels, name, 0), Job(s.uids, Last(name, fn));
    WeightAfterChange(WorkCost(cost), t.queues, k, t.queues[k] + [job]);
    WeightConcat(WorkCost(cost), t.queues[k], [job]);
    assert Weight(WorkCost(cost), [job]) == 1 + cost(fn) + Weight(WorkCost(cost), []);
  }

  /** While no label holds two requests, a firing calls a request, which is then no
      longer outstanding, or leaves all outstanding and comes closer to calling one:
      the load falls, or a request moves behind the rest of its queue. */
  lemma FireCalm<J(!new)>(base: Base<J>, cost: J -> nat, s: State<Work<J>>, names: set<string>)
    requires InPlace(s.table, names) && OneEach(s.table) && Busy(s.table) && s.timers != []
    requires CalmBase(base, names) && FiniteBase(base, cost)
    ensures var s' := Fire(Prog(base), s);
            && InPlace(s'.table, names) && OneEach(s'.table)
            && Outstanding(s.table)
               == Outstanding(s'.table) + (if CallNow(base, s).Some? then multiset{CallNow(base, s).value} else multiset{})
            && (Load(WorkCost(cost), s') < Load(WorkCost(cost), s)
                || (Load(WorkCost(cost), s') == Load(WorkCost(cost), s) && HeadAsks(s.table) && !HeadAsks(s'.table)))
  {
    hide Exec, OneEach, Outstanding, Asked, WithoutNext, Next, Busy, Weight, Has, QueueOf, Spawned;
    var t := s.table;
    DispatchCalm(t, names);
    DispatchAsked(t);
    DispatchLoad(WorkCost(cost), t);
    var s2 := s.(timers := s.timers[1..], table := WithoutNext(t), ran := s.ran + [Next(t).uid]);
    match Next(t).work
    case Plain(work) =>
      ExecCalm(s2, base(work, s2.table), names);
      ExecLoad(WorkCost(cost), s2, base(work, s2.table));
    case Last(name, fn) =>
      assert Prog(base)(Next(t), s2.table) == Request(base, s2.table, name, fn);
      if QueueOf(s2.table, name) == [] {
        if Has(s2.table, name) { RequestExecutes(base, s, name, fn); }
        assert Request(base, s2.table, name, fn) == base(fn, s2.table);
        ExecCalm(s2, base(fn, s2.table), names);
        ExecLoad(WorkCost(cost), s2, base(fn, s2.table));
      } else {
        RequestAgain(base, s2.table, name, fn);
        AddedAgain(s2, name, fn);
        RequeueAsked(s2.table, Job(s2.uids, Next(t).work));
        RequeueCalm(s2.table, names, Job(s2.uids, Next(t).work));
        RequeueLoad(cost, s2, name, fn);
      }
  }

  lemma TicksTail<J>(n: nat)
    requires n > 0
    ensures Ticks<Work<J>>(n)[0] == Timer && Ticks<Work<J>>(n)[1..] == Ticks<Work<J>>(n - 1)
  {}

  /** With nothing waiting, the timer calls nothing. */
  lemma {:induction false} IdleCalls<J>(base: Base<J>, s: State<Work<J>>, m: nat)
    requires Parallel(s.table) && !Busy(s.table)
    ensures Calls(base, s, Ticks(m)) == [] && Outstanding(s.table) == multiset{}
    decreases m
  {
    NothingWaits(s.table.queues);
    hide Exec;
    if m > 0 {
      TicksTail<J>(m);
      IdleCalls(base, Step(Prog(base), s, Timer), m - 1);
    }
  }

  lemma CallsUnfold<J>(base: Base<J>, s: State<Work<J>>, m: nat)
    requires Parallel(s.table) && s.timers != []
    ensures Calls(base, s, Ticks(m)) == if m == 0 then []
              else (if CallNow(base, s).Some? then [CallNow(base, s).value] else []) + Calls(base, Fire(Prog(base), s), Ticks(m - 1))
  {
    hide CallNow, Fire;
    if m > 0 { TicksTail<J>(m); }
  }

  /** The requests that have been called are among those outstanding, and are all
      of them from some firing on. */
  ghost predicate AllCalledBy<J>(base: Base<J>, s: State<Work<J>>, n: nat)
    requires Parallel(s.table)
  {
    forall m: nat :: multiset(Calls(base, s, Ticks(m))) <= Outstanding(s.table)
                     && (m >= n ==> multiset(Calls(base, s, Ticks(m))) == Outstanding(s.table))
  }

  /** With at most one request for each label, jobs that spawn finitely many others
      and make no requests, and none that throws: the function of every request is
      called, once, and nothing else is. `CallNow` says that its queue is empty then. */
  lemma {:induction false} EachRequestCalledOnce<J(!new)>(base: Base<J>, cost: J -> nat, s: State<Work<J>>, names: set<string>)
    returns (n: nat)
    requires Invariant(s) && InPlace(s.table, names) && OneEach(s.table)
    requires CalmBase(base, names) && FiniteBase(base, cost)
    requires forall k: nat :: !Run(Prog(base), s, Ticks(k)).threw
    ensures AllCalledBy(base, s, n)
    decreases Load(WorkCost(cost), s), if HeadAsks(s.table) then 1 else 0
  {
    hide Invariant, OneEach, CalmBase, FiniteBase, Fire, CallNow, Load, Calls, Ticks, Busy, Next, HeadAsks, Outstanding;
    if !Busy(s.table) {
      n := 0;
      forall m: nat ensures Calls(base, s, Ticks(m)) == [] && Outstanding(s.table) == multiset{} { IdleCalls(base, s, m); }
    } else {
      BusyFires(base, s);
      assert !Run(Prog(base), s, Ticks(0)).threw;
      var s' := Fire(Prog(base), s);
      StepKeeps(Prog(base), s, Timer);
      forall k: nat ensures !Run(Prog(base), s', Ticks(k)).threw {
        assert !Run(Prog(base), s, Ticks(k + 1)).threw;
        TicksUnfold(Prog(base), s, k + 1);
      }
      FireCalm(base, cost, s, names);
      var n' := EachRequestCalledOnce(base, cost, s', names);
      n := n' + 1;
      forall m: nat
        ensures multiset(Calls(base, s, Ticks(m))) <= Outstanding(s.table)
        ensures m >= n ==> multiset(Calls(base, s, Ticks(m))) == Outstanding(s.table)
      {
        CallsUnfold(base, s, m);
        if m > 0 { assert multiset(Calls(base, s', Ticks(m - 1))) <= Outstanding(s'.table); }
      }
    }
  }

  lemma BusyFires<J>(base: Base<J>, s: State<Work<J>>)
    requires Invariant(s) && Busy(s.table)
    ensures Parallel(s.table) && (!Run(Prog(base), s, Ticks(0)).threw ==> s.timers != [])
  {
    assert Run(Prog(base), s, Ticks(0)) == s;
  }

  // ---- when every request is called ----

  lemma {:induction false} AskedHas<J>(q: seq<Job<Work<J>>>, j: nat)
    requires j < |q| && q[j].work.Last?
    ensures (q[j].work.name, q[j].work.fn) in Asked(q) && |Fns(q, q[j].work.name)| >= 1
  {
    if j > 0 { AskedHas(q[1..], j - 1); }
  }

  lemma {:induction false} TwoFns<J>(q: seq<Job<Work<J>>>, j: nat, k: nat)
    requires j < k < |q| && q[j].work.Last? && q[k].work.Last? && q[j].work.name == q[k].work.name
    ensures |Fns(q, q[j].work.name)| >= 2
  {
    if j == 0 { AskedHas(q[1..], k - 1); } else { TwoFns(q[1..], j - 1, k - 1); }
  }

  lemma CalmIsGentle<J(!new)>(base: Base<J>, names: set<string>, name: string)
    requires CalmBase(base, names) && name in names
    ensures GentleBase(base, name)
  {
    forall work, t ensures AllGentle(base(work, t), name) { assert AllCalm(base(work, t), names); }
  }

  /** A label that holds two requests has one that is never called. */
  lemma OneNeverCalled<J(!new)>(base: Base<J>, s: State<Work<J>>, names: set<string>) returns (r: (string, J))
    requires InPlace(s.table, names) && !OneEach(s.table) && CalmBase(base, names)
    ensures r in Outstanding(s.table) && forall m: nat :: r !in Calls(base, s, Ticks(m))
  {
    var queues: seq<seq<Job<Work<J>>>> := s.table.queues;
    var i, j, k :| 0 <= i < |queues| && 0 <= j < k < |queues[i]| && queues[i][j].work.Last? && queues[i][k].work.Last?;
    var name := queues[i][j].work.name;
    assert SlotOf(s.table, name) == Some(i) && SlotOf(s.table, queues[i][k].work.name) == Some(i);
    AskedHas(queues[i], j);
    AskedAround(queues, i);
    TwoFns(queues[i], j, k);
    CalmIsGentle(base, names, name);
    r := (name, queues[i][j].work.fn);
    forall m: nat ensures r !in Calls(base, s, Ticks(m)) { TwoRequestsStarve(base, s, Ticks(m), name); }
  }

  ghost predicate CalledSometime<J(!new)>(base: Base<J>, s: State<Work<J>>, r: (string, J))
    requires Parallel(s.table)
  {
    exists m: nat :: r in Calls(base, s, Ticks(m))
  }

  /** With jobs that spawn finitely many others and make no requests, and none that
      throws: every outstanding request is called if and only if no label holds two. */
  lemma AllCalledIffOneEach<J(!new)>(base: Base<J>, cost: J -> nat, s: State<Work<J>>, names: set<string>)
    requires Invariant(s) && InPlace(s.table, names) && CalmBase(base, names) && FiniteBase(base, cost)
    requires forall k: nat :: !Run(Prog(base), s, Ticks(k)).threw
    ensures (forall r :: r in Outstanding(s.table) ==> CalledSometime(base, s, r)) <==> OneEach(s.table)
  {
    hide Invariant, InPlace, OneEach, Outstanding, Calls, Ticks, Run;
    ParallelIsIn(s.table, names);
    if OneEach(s.table) {
      var n := EachRequestCalledOnce(base, cost, s, names);
      forall r | r in Outstanding(s.table) ensures CalledSometime(base, s, r) {
        assert r in multiset(Calls(base, s, Ticks(n)));
      }
    } else {
      var r := OneNeverCalled(base, s, names);
      assert !CalledSometime(base, s, r);
    }
  }
}

/** The search of the index page, cut into scheduler jobs: three for each package,
    restarted whenever the input changes. */
module ChunkedSearch {
  import opened Prelude
  import opened Texts
  import opened Sorting
  import opened WorkQueues
  import opened Scheduler
  import opened SchedulerRuns

  datatype Entity = Entity(name: Text, id: nat)

  /** One call of `searchAll`: its query, and the pattern object made for it. */
  datatype Search = Search(query: Text, no: nat)

  datatype Found = Found(pack: Text, matched: seq<Entity>)

  /** The jobs of a search, and any other job of the page. */
  datatype Work<W> =
    | Package(pack: Text, search: Search)
    | Members(pack: Text, search: Search)
    | Handle(found: Found, search: Search)
    | Other(work: W)

  /** The packages in the order of their keys, whether a query compiles, the test of a
      name against one that does, and what the page's other jobs do. */
  datatype World<!W> = World(
    keys: seq<Text>, packages: map<Text, seq<Entity>>, compiles: Text -> bool, test: (Text, Text) -> bool,
    base: (W, Table<Work<W>>) -> seq<Command<Work<W>>>)

  const SEARCH := "search"

  function Entities(w: World, pack: Text): seq<Entity> {
    if pack in w.packages then w.packages[pack] else []
  }

  function Matching(test: (Text, Text) -> bool, query: Text, es: seq<Entity>): (r: seq<Entity>) {
    if es == [] then []
    else (if test(query, es[0].name) then [es[0]] else []) + Matching(test, query, es[1..])
  }

  function FoundIn(w: World, pack: Text, search: Search): Found {
    Found(pack, Matching(w.test, search.query, Entities(w, pack)))
  }

  function SortedKeys(w: World): (r: seq<Text>) { Sort(TextLeq, w.keys) }

  // ---- the jobs ----

  function Prog<W>(w: World<W>): Program<Work<W>> {
    (job: Job<Work<W>>, t: Table<Work<W>>) =>
      match job.work
      case Package(pack, search) =>
        [Add(SEARCH, Members(pack, search)), Add(SEARCH, Handle(FoundIn(w, pack, search), search))]
      case Members(_, _) => []
      case Handle(_, _) => [Ask(SEARCH)]
      case Other(work) => w.base(work, t)
  }

  type Positive = n: int | n >= 1 witness 1

  /** What the page shows: entity results, member results, the progress shown so far. */
  datatype Page = Page(entities: seq<Found>, members: seq<Text>, maxJobs: Positive, shown: seq<real>)

  function SetProgress(p: Page, running: nat): Page {
    var most := if running > p.maxJobs then running else p.maxJobs;
    p.(maxJobs := most,
       shown := p.shown + [100.0 - running as real / most as real * 100.0])
  }

  /** What a job does to the page; `t` is the table it finds. */
  function PageAfter<W>(p: Page, work: Work<W>, t: Table<Work<W>>): Page
    requires Parallel(t)
  {
    match work
    case Package(_, _) => p
    case Members(pack, _) => p.(members := p.members + [pack])
    case Handle(found, _) => SetProgress(p.(entities := p.entities + [found]), |QueueOf(t, SEARCH)|)
    case Other(_) => p
  }

  // ---- the page as a machine ----

  /** `current` is the search in force, `done` the number of its jobs that have run. */
  datatype App<W> = App(sched: State<Work<W>>, page: Page, current: Option<Search>, searches: nat, done: nat)

  datatype AppEvent<W> = SearchAll(input: Text) | UserCode(commands: seq<Command<Work<W>>>) | Fires

  function Adds<W>(keys: seq<Text>, search: Search): seq<Command<Work<W>>> {
    seq(|keys|, i requires 0 <= i < |keys| => Add(SEARCH, Package(keys[i], search)))
  }

  function Searched<W>(w: World<W>, a: App<W>, input: Text): App<W>
    requires Parallel(a.sched.table)
  {
    var query := Trim(input);
    var cleared := Do(a.sched, Clear(SEARCH)).0;
    if query == [] then App(cleared, a.page.(maxJobs := 1), None, a.searches, 0)
    else if !w.compiles(query) then App(cleared, Page([], [], 1, []), None, a.searches, 0)
    else
      var search := Search(query, a.searches + 1);
      App(Exec(cleared, Adds(SortedKeys(w), search)).0, Page([], [], 1, []), Some(search), a.searches + 1, 0)
  }

  function AppStep<W>(w: World<W>, a: App<W>, e: AppEvent<W>): (a': App<W>)
    requires Parallel(a.sched.table)
    ensures Parallel(a'.sched.table)
  {
    match e
    case SearchAll(input) => Searched(w, a, input)
    case UserCode(cs) => a.(sched := Exec(a.sched, cs).0)
    case Fires =>
      if a.sched.timers == [] then a
      else if !Busy(a.sched.table) then a.(sched := Fire(Prog(w), a.sched))
      else
        var work, t := Next(a.sched.table).work, WithoutNext(a.sched.table);
        a.(sched := Fire(Prog(w), a.sched), page := PageAfter(a.page, work, t),
           done := if work.Other? then a.done else a.done + 1)
  }

  function AppRun<W>(w: World<W>, a: App<W>, es: seq<AppEvent<W>>): (a': App<W>)
    requires Parallel(a.sched.table)
    ensures Parallel(a'.sched.table)
    decreases |es|
  {
    if es == [] then a else AppRun(w, AppStep(w, a, es[0]), es[1..])
  }

  // ---- what waits and what is shown after so many jobs ----

  /** The member and result jobs of the first `k` packages, in their order. */
  function Later<W>(w: World<W>, search: Search, k: nat): seq<Work<W>>
    requires k <= |SortedKeys(w)|
  {
    var keys := SortedKeys(w);
    seq(2 * k, i requires 0 <= i < 2 * k =>
      if i % 2 == 0 then Members(keys[i / 2], search) else Handle(FoundIn(w, keys[i / 2], search), search))
  }

  /** The jobs left when `n` have run: packages first, then what they spawned. */
  function Left<W>(w: World<W>, search: Search, n: nat): seq<Work<W>>
    requires n <= 3 * |SortedKeys(w)|
  {
    var keys := SortedKeys(w);
    if n <= |keys| then
      seq(|keys| - n, i requires 0 <= i < |keys| - n => Package(keys[n + i], search)) + Later(w, search, n)
    else Later(w, search, |keys|)[n - |keys|..]
  }

  /** The percentage shown when the `k`-th of `p` packages is handled: 2(p-k) jobs
      are left of the most there were. */
  function Percent(p: nat, k: nat): real
    requires 1 <= k <= p
  {
    100.0 - (2 * (p - k)) as real / Max(1, 2 * p - 2) as real * 100.0
  }

  /** How many packages have been handled when `n` jobs have run. */
  function Handled(p: nat, n: nat): (k: nat)
    requires n <= 3 * p
    ensures k <= p
  {
    if n <= p then 0 else (n - p) / 2
  }

  function PageAt<W>(w: World<W>, search: Search, n: nat): Page
    requires n <= 3 * |SortedKeys(w)|
  {
    var keys := SortedKeys(w);
    var p, h := |keys|, Handled(|keys|, n);
    Page(seq(h, i requires 0 <= i < h => FoundIn(w, keys[i], search)),
         if n <= p then [] else keys[..(n - p + 1) / 2],
         if h == 0 then 1 else Max(1, 2 * p - 2),
         seq(h, i requires 0 <= i < h => Percent(p, i + 1)))
  }

  function Works<W>(q: seq<Job<Work<W>>>): (r: seq<Work<W>>)
    ensures |r| == |q| && forall i :: 0 <= i < |q| ==> r[i] == q[i].work
  {
    seq(|q|, i requires 0 <= i < |q| => q[i].work)
  }

  // ---- the invariant ----

  ghost predicate OnlyOther<W>(q: seq<Job<Work<W>>>) { forall i :: 0 <= i < |q| ==> q[i].work.Other? }

  /** The jobs in the search label's queue, if the other queues hold none of a search. */
  ghost function Searching<W>(t: Table<Work<W>>): Option<seq<Work<W>>> {
    match SlotOf(t, SEARCH)
    case None => None
    case Some(k) =>
      if forall i :: 0 <= i < |t.queues| && i != k ==> OnlyOther(t.queues[i]) then Some(Works(t.queues[k])) else None
  }

  ghost predicate SearchQueue<W>(t: Table<Work<W>>, works: seq<Work<W>>) { Searching(t) == Some(works) }

  /** The search in force, if any, has run `done` jobs of its plan: the rest of them
      waits, and the page shows what they found. */
  ghost predicate SearchInv<W>(w: World<W>, a: App<W>) {
    && a.done <= 3 * |SortedKeys(w)|
    && match a.current
       case None => SearchQueue(a.sched.table, [])
       case Some(search) =>
         SearchQueue(a.sched.table, Left(w, search, a.done))
         && (search.no, a.page) == (a.searches, PageAt(w, search, a.done))
  }

  // ---- how the commands change the search queue ----

  /** Commands of jobs and user code that have nothing to do with the search. */
  predicate Gentle<W>(c: Command<Work<W>>) {
    c.Ask? || (c.name != SEARCH && ((c.Add? && c.work.Other?) || c.Clear?))
  }

  predicate AllGentle<W>(cs: seq<Command<Work<W>>>) { forall i :: 0 <= i < |cs| ==> Gentle(cs[i]) }

  ghost predicate GentleWorld<W(!new)>(w: World<W>) { forall work, t :: AllGentle(w.base(work, t)) }

  ghost predicate GentleEvents<W>(es: seq<AppEvent<W>>) {
    forall i :: 0 <= i < |es| && es[i].UserCode? ==> AllGentle(es[i].commands)
  }

  lemma DoGentle<W>(s: State<Work<W>>, c: Command<Work<W>>, works: seq<Work<W>>)
    requires SearchQueue(s.table, works) && Gentle(c)
    ensures SearchQueue(Do(s, c).0.table, works)
  {
    hide WithLabel, WithoutLabel;
  }

  lemma {:induction false} ExecGentle<W>(s: State<Work<W>>, cs: seq<Command<Work<W>>>, works: seq<Work<W>>)
    requires SearchQueue(s.table, works) && AllGentle(cs)
    ensures SearchQueue(Exec(s, cs).0.table, works)
    decreases |cs|
  {
    hide Do, Works, OnlyOther, Has;
    if cs != [] {
      DoGentle(s, cs[0], works);
      if !Do(s, cs[0]).1 { ExecGentle(Do(s, cs[0]).0, cs[1..], works); }
    }
  }

  lemma DoSearch<W>(s: State<Work<W>>, work: Work<W>, works: seq<Work<W>>)
    requires SearchQueue(s.table, works)
    ensures var (s', threw) := Do(s, Add(SEARCH, work)); !threw && SearchQueue(s'.table, works + [work])
  {
    hide WithLabel, WithoutLabel;
    var q := QueueOf(s.table, SEARCH);
    assert Works(q + [Job(s.uids, work)]) == Works(q) + [work];
  }

  lemma DoClear<W>(s: State<Work<W>>, works: seq<Work<W>>)
    requires SearchQueue(s.table, works)
    ensures SearchQueue(Do(s, Clear(SEARCH)).0.table, [])
  {
    hide WithLabel, WithoutLabel;
  }

  function Packages<W>(keys: seq<Text>, search: Search): seq<Work<W>> {
    seq(|keys|, i requires 0 <= i < |keys| => Package(keys[i], search))
  }

  lemma {:induction false} ExecAdds<W>(s: State<Work<W>>, keys: seq<Text>, search: Search, works: seq<Work<W>>)
    requires SearchQueue(s.table, works)
    ensures SearchQueue(Exec(s, Adds(keys, search)).0.table, works + Packages(keys, search))
    decreases |keys|
  {
    hide Do, SearchQueue;
    if keys == [] {
      assert works + Packages(keys, search) == works;
      QueueParallel(s.table, works);
    } else {
      QueueParallel(s.table, works);
      DoSearch(s, Package(keys[0], search), works);
      assert Adds<W>(keys, search)[1..] == Adds(keys[1..], search);
      ExecAdds(Do(s, Add(SEARCH, Package(keys[0], search))).0, keys[1..], search, works + [Package(keys[0], search)]);
      assert works + [Package(keys[0], search)] + Packages(keys[1..], search) == works + Packages(keys, search);
    }
  }

  lemma QueueParallel<W>(t: Table<Work<W>>, works: seq<Work<W>>)
    requires SearchQueue(t, works)
    ensures Parallel(t) && Has(t, SEARCH) && |QueueOf(t, SEARCH)| == |works|
  {}

  /** The dispatched job is the first of the search queue, or not one of a search. */
  lemma Dispatched<W>(t: Table<Work<W>>, works: seq<Work<W>>)
    requires SearchQueue(t, works) && Busy(t)
    requires forall i :: 0 <= i < |works| ==> !works[i].Other?
    ensures var t', work := WithoutNext(t), Next(t).work;
            if work.Other? then SearchQueue(t', works)
            else works != [] && work == works[0] && SearchQueue(t', works[1..])
  {
    hide WithLabel, WithoutLabel;
    var k, i := Find(t.labels, SEARCH, 0), FirstBusy(t.queues, 0);
    if i == k {
      assert Works(t.queues[k])[0] == t.queues[k][0].work;
      assert Works(t.queues[k][1..]) == Works(t.queues[k])[1..];
    }
  }

  // ---- how the lists of work go on ----

  lemma LeftStep<W>(w: World<W>, search: Search, n: nat)
    requires n < 3 * |SortedKeys(w)|
    ensures var keys, left := SortedKeys(w), Left(w, search, n);
            && left != []
            && (if n < |keys| then
                  left[0] == Package(keys[n], search)
                  && Left(w, search, n + 1)
                     == left[1..] + [Members(keys[n], search)] + [Handle(FoundIn(w, keys[n], search), search)]
                else
                  && |left| == 3 * |keys| - n
                  && left[0] == Later(w, search, |keys|)[n - |keys|]
                  && Left(w, search, n + 1) == left[1..])
  {
    hide SortedKeys, FoundIn;
  }

  lemma LeftHasNoOther<W>(w: World<W>, search: Search, n: nat)
    requires n <= 3 * |SortedKeys(w)|
    ensures forall i :: 0 <= i < |Left(w, search, n)| ==> !Left(w, search, n)[i].Other?
  {
    hide SortedKeys, FoundIn;
  }

  /** Every job in the queue belongs to the search. */
  function SearchOf<W>(work: Work<W>): Search
    requires !work.Other?
  {
    match work
    case Package(_, search) => search
    case Members(_, search) => search
    case Handle(_, search) => search
  }

  lemma LeftIsOfSearch<W>(w: World<W>, search: Search, n: nat)
    requires n <= 3 * |SortedKeys(w)|
    ensures forall i :: 0 <= i < |Left(w, search, n)| ==>
              !Left(w, search, n)[i].Other? && SearchOf(Left(w, search, n)[i]) == search
  {
    hide SortedKeys, FoundIn;
  }

  lemma SetProgressAt(page: Page, p: nat, k: nat)
    requires 1 <= k <= p && page.maxJobs == if k == 1 then 1 else Max(1, 2 * p - 2)
    ensures SetProgress(page, 2 * (p - k)) == page.(maxJobs := Max(1, 2 * p - 2), shown := page.shown + [Percent(p, k)])
  {}

  lemma HandleStep<W>(w: World<W>, search: Search, k: nat)
    requires 1 <= k <= |SortedKeys(w)|
    ensures var p := |SortedKeys(w)|;
            SetProgress(PageAt(w, search, p + 2 * k - 1).(entities := PageAt(w, search, p + 2 * k).entities), 2 * (p - k))
              == PageAt(w, search, p + 2 * k)
    ensures var p := |SortedKeys(w)|;
            PageAt(w, search, p + 2 * k).entities
              == PageAt(w, search, p + 2 * k - 1).entities + [FoundIn(w, SortedKeys(w)[k - 1], search)]
  {
    hide SortedKeys, FoundIn, Percent, SetProgress;
    var p := |SortedKeys(w)|;
    var page, page' := PageAt(w, search, p + 2 * k - 1), PageAt(w, search, p + 2 * k);
    assert Handled(p, p + 2 * k - 1) == k - 1 && Handled(p, p + 2 * k) == k;
    assert page'.shown == page.shown + [Percent(p, k)];
    SetProgressAt(page.(entities := page'.entities), p, k);
  }

  lemma MemberStep<W>(w: World<W>, search: Search, m: nat)
    requires m < |SortedKeys(w)|
    ensures var keys, p := SortedKeys(w), |SortedKeys(w)|;
            PageAt(w, search, p + 2 * m + 1)
              == PageAt(w, search, p + 2 * m).(members := PageAt(w, search, p + 2 * m).members + [keys[m]])
  {
    hide SortedKeys, FoundIn;
    var keys := SortedKeys(w);
    assert Handled(|keys|, |keys| + 2 * m) == Handled(|keys|, |keys| + 2 * m + 1) == m;
    assert keys[..m] + [keys[m]] == keys[..m + 1];
  }

  /** What the page shows when one more job has run. */
  lemma PageStep<W>(w: World<W>, search: Search, n: nat, t: Table<Work<W>>)
    requires n < 3 * |SortedKeys(w)| && Parallel(t)
    requires n >= |SortedKeys(w)| ==> |QueueOf(t, SEARCH)| == 3 * |SortedKeys(w)| - n - 1
    requires Left(w, search, n) != []
    ensures PageAfter(PageAt(w, search, n), Left(w, search, n)[0], t) == PageAt(w, search, n + 1)
  {
    hide SortedKeys, FoundIn, QueueOf, SetProgress, PageAt;
    LeftStep(w, search, n);
    var p := |SortedKeys(w)|;
    if n < p {
      NothingShown(w, search, n);
    } else {
      var m := (n - p) / 2;
      if (n - p) % 2 == 0 { MemberStep(w, search, m); } else { HandleStep(w, search, m + 1); }
    }
  }

  lemma NothingShown<W>(w: World<W>, search: Search, n: nat)
    requires n < |SortedKeys(w)|
    ensures PageAt(w, search, n) == PageAt(w, search, n + 1)
  {
    hide SortedKeys, FoundIn;
  }

  // ---- the invariant over runs ----

  /** The dispatch of a search job: its commands and its effect make one step of
      the plan. */
  lemma SearchJob<W>(w: World<W>, s: State<Work<W>>, search: Search, n: nat)
    requires n <= 3 * |SortedKeys(w)| && SearchQueue(s.table, Left(w, search, n))
    requires Busy(s.table) && !Next(s.table).work.Other? && s.timers != []
    ensures n < 3 * |SortedKeys(w)|
    ensures SearchQueue(Fire(Prog(w), s).table, Left(w, search, n + 1))
    ensures PageAfter(PageAt(w, search, n), Next(s.table).work, WithoutNext(s.table)) == PageAt(w, search, n + 1)
  {
    hide SortedKeys, FoundIn, PageAfter, PageAt, SearchQueue, Busy, Next, WithoutNext, Do, Has;
    var left, t := Left(w, search, n), WithoutNext(s.table);
    QueueParallel(s.table, left);
    LeftHasNoOther(w, search, n);
    Dispatched(s.table, left);
    LeftStep(w, search, n);
    QueueParallel(t, left[1..]);
    PageStep(w, search, n, t);
    var s2 := s.(timers := s.timers[1..], table := t, ran := s.ran + [Next(s.table).uid]);
    var keys := SortedKeys(w);
    if n < |keys| {
      AddTwo(s2, Members(keys[n], search), Handle(FoundIn(w, keys[n], search), search), left[1..]);
    } else {
      ExecGentle(s2, Prog(w)(Next(s.table), t), left[1..]);
    }
  }

  lemma AddTwo<W>(s: State<Work<W>>, m: Work<W>, h: Work<W>, works: seq<Work<W>>)
    requires SearchQueue(s.table, works)
    ensures Parallel(s.table)
    ensures var r := Exec(s, [Add(SEARCH, m), Add(SEARCH, h)]); !r.1 && SearchQueue(r.0.table, works + [m] + [h])
  {
    hide Do, SearchQueue;
    QueueParallel(s.table, works);
    var cs: seq<Command<Work<W>>> := [Add(SEARCH, m), Add(SEARCH, h)];
    DoSearch(s, m, works);
    var s' := Do(s, cs[0]).0;
    QueueParallel(s'.table, works + [m]);
    DoSearch(s', h, works + [m]);
    assert cs[1..][0] == cs[1] && cs[1..][1..] == [];
    assert Exec(s', cs[1..]) == Do(s', cs[1]);
  }

  /** The dispatch of any other job leaves the search alone. */
  lemma OtherJob<W(!new)>(w: World<W>, s: State<Work<W>>, works: seq<Work<W>>)
    requires SearchQueue(s.table, works) && GentleWorld(w)
    requires forall i :: 0 <= i < |works| ==> !works[i].Other?
    requires Busy(s.table) && Next(s.table).work.Other? && s.timers != []
    ensures SearchQueue(Fire(Prog(w), s).table, works)
  {
    hide SearchQueue, Busy, Next, WithoutNext, Do, Exec;
    QueueParallel(s.table, works);
    Dispatched(s.table, works);
    var t := WithoutNext(s.table);
    QueueParallel(t, works);
    var s2 := s.(timers := s.timers[1..], table := t, ran := s.ran + [Next(s.table).uid]);
    ExecGentle(s2, w.base(Next(s.table).work.work, t), works);
  }

  lemma SearchedKeeps<W>(w: World<W>, a: App<W>, input: Text, works: seq<Work<W>>)
    requires SearchQueue(a.sched.table, works)
    ensures Parallel(a.sched.table) && SearchInv(w, Searched(w, a, input))
  {
    hide SearchQueue, Do, Exec, Trim, SortedKeys;
    QueueParallel(a.sched.table, works);
    DoClear(a.sched, works);
    var query := Trim(input);
    if query != [] {
      var search, s := Search(query, a.searches + 1), Do(a.sched, Clear(SEARCH)).0;
      ExecAdds(s, SortedKeys(w), search, []);
      assert Page([], [], 1, []) == PageAt(w, search, 0);
      assert [] + Packages<W>(SortedKeys(w), search) == Left(w, search, 0);
    }
  }

  lemma AppStepKeeps<W(!new)>(w: World<W>, a: App<W>, e: AppEvent<W>)
    requires SearchInv(w, a) && GentleWorld(w) && (e.UserCode? ==> AllGentle(e.commands))
    ensures SearchInv(w, AppStep(w, a, e))
  {
    hide SearchQueue, Do, Exec, Fire, PageAt, Searched, GentleWorld, SortedKeys, Busy, Next;
    var works := Waits(w, a);
    QueueParallel(a.sched.table, works);
    match e
    case SearchAll(input) => SearchedKeeps(w, a, input, works);
    case UserCode(cs) => ExecGentle(a.sched, cs, works);
    case Fires =>
      if a.sched.timers != [] {
        if !Busy(a.sched.table) {
          IdleFire(w, a.sched);
        } else if Next(a.sched.table).work.Other? {
          if a.current.Some? { LeftHasNoOther(w, a.current.value, a.done); }
          OtherJob(w, a.sched, works);
        } else {
          if a.current.None? { Dispatched(a.sched.table, works); }
          SearchJob(w, a.sched, a.current.value, a.done);
        }
      }
  }

  function Waits<W>(w: World<W>, a: App<W>): seq<Work<W>>
    requires a.done <= 3 * |SortedKeys(w)|
  {
    match a.current
    case None => []
    case Some(search) => Left(w, search, a.done)
  }

  lemma IdleFire<W>(w: World<W>, s: State<Work<W>>)
    requires Parallel(s.table) && s.timers != [] && !Busy(s.table)
    ensures Fire(Prog(w), s).table == s.table
  {}

  lemma {:induction false} AppRunKeeps<W(!new)>(w: World<W>, a: App<W>, es: seq<AppEvent<W>>)
    requires SearchInv(w, a) && Invariant(a.sched) && GentleWorld(w) && GentleEvents(es)
    ensures SearchInv(w, AppRun(w, a, es)) && Invariant(AppRun(w, a, es).sched)
    decreases |es|
  {
    hide SearchInv, Invariant, AppStep, GentleWorld;
    InvParallel(w, a);
    if es != [] {
      AppStepKeeps(w, a, es[0]);
      AppStepSched(w, a, es[0]);
      AppRunKeeps(w, AppStep(w, a, es[0]), es[1..]);
    }
  }

  lemma InvParallel<W>(w: World<W>, a: App<W>)
    requires SearchInv(w, a)
    ensures Parallel(a.sched.table) && a.done <= 3 * |SortedKeys(w)| && SearchQueue(a.sched.table, Waits(w, a))
  {}

  lemma AppStepSched<W>(w: World<W>, a: App<W>, e: AppEvent<W>)
    requires Invariant(a.sched) && Parallel(a.sched.table)
    ensures Invariant(AppStep(w, a, e).sched)
  {
    hide Invariant, Fire, Do, Exec, Trim, SortedKeys;
    match e
    case SearchAll(input) =>
      var c: Command<Work<W>> := Clear(SEARCH);
      assert Exec(a.sched, [c]).0 == Do(a.sched, c).0 by { OneCommand(a.sched, c); }
      StepKeeps(Prog(w), a.sched, User([c]));
      if Trim(input) != [] {
        StepKeeps(Prog(w), Do(a.sched, c).0, User(Adds(SortedKeys(w), Search(Trim(input), a.searches + 1))));
      }
    case UserCode(cs) => StepKeeps(Prog(w), a.sched, User(cs));
    case Fires => StepKeeps(Prog(w), a.sched, Timer);
  }

  lemma OneCommand<J>(s: State<J>, c: Command<J>)
    requires Parallel(s.table)
    ensures Exec(s, [c]).0 == Do(s, c).0
  {
    assert [c][1..] == [];
    DoParallel(s, c);
    assert Exec(Do(s, c).0, []) == (Do(s, c).0, false);
  }
}

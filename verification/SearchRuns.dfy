/** What the search shows in every run of the page: the direct search, its progress,
    and nothing of a search given up. */
module SearchRuns {
  import opened Prelude
  import opened Texts
  import opened Sorting
  import opened WorkQueues
  import opened Scheduler
  import opened SchedulerRuns
  import opened ChunkedSearch
  import MiniRegex
  import QueryCompilers
  import SearchPattern
  import PlainQueries

  // ---- the fresh page ----

  /** The scheduler of the fresh page: its four labels, and the jobs that set the page up. */
  function Opening<W>(setup: seq<W>): seq<Command<Work<W>>> {
    [AddLabel("init", 1), AddLabel("focus", 2), AddLabel("filter", 4), AddLabel(SEARCH, 5)]
    + seq(|setup|, i requires 0 <= i < |setup| => Add("init", Other(setup[i])))
  }

  function Open<W>(setup: seq<W>): (a: App<W>)
    ensures Parallel(a.sched.table)
  {
    App(Exec(Start(), Opening(setup)).0, Page([], [], 1, []), None, 0, 0)
  }

  function Labels(): seq<Label> {
    [Label("init", 1, 0), Label("focus", 2, 1), Label("filter", 4, 2), Label(SEARCH, 5, 3)]
  }

  lemma EmptySearch<W>()
    ensures SearchQueue<W>(Labelled(4).table, [])
  {
    assert Labelled<Work<W>>(4).table.labels[3].name == SEARCH;
  }

  /** The scheduler when the first `k` labels have been added. */
  function Labelled<J>(k: nat): State<J>
    requires k <= 4
  {
    Start().(table := Table(Labels()[..k], seq(k, _ => [])), stamps := k)
  }

  lemma OneLabel<J>(k: nat, cs: seq<Command<J>>)
    requires k < 4
    ensures Exec(Labelled<J>(k), [AddLabel(Labels()[k].name, Labels()[k].priority)] + cs) == Exec(Labelled(k + 1), cs)
  {
    hide Do, Exec;
    var c := Command<J>.AddLabel(Labels()[k].name, Labels()[k].priority);
    LabelAtEnd(Labelled<J>(k), c.name, c.priority);
    assert Labelled<J>(k + 1).table.queues == Labelled<J>(k).table.queues + [[]];
    assert Labelled<J>(k + 1).table.labels == Labelled<J>(k).table.labels + [Labels()[k]];
    NeverThrows(Labelled<J>(k), c);
    ExecCons(Labelled<J>(k), c, cs);
  }

  lemma FourLabels<J>(cs: seq<Command<J>>)
    ensures Exec(Start(), [AddLabel("init", 1), AddLabel("focus", 2), AddLabel("filter", 4), AddLabel(SEARCH, 5)] + cs)
         == Exec(Labelled(4), cs)
  {
    hide Exec;
    var c2, c3, c4 := Command<J>.AddLabel("focus", 2), Command<J>.AddLabel("filter", 4), Command<J>.AddLabel(SEARCH, 5);
    assert Labelled<J>(0).table == Start<J>().table;
    OneLabel<J>(0, [c2] + ([c3] + ([c4] + cs)));
    OneLabel<J>(1, [c3] + ([c4] + cs));
    OneLabel<J>(2, [c4] + cs);
    OneLabel<J>(3, cs);
    assert [AddLabel("init", 1), c2, c3, c4] + cs == [AddLabel("init", 1)] + ([c2] + ([c3] + ([c4] + cs)));
  }

  /** In every state the page can reach, the search queue holds just the jobs that
      the search in force still has to run, and the page shows what those that
      have run found. */
  lemma EverySearchRun<W(!new)>(w: World<W>, setup: seq<W>, es: seq<AppEvent<W>>)
    requires GentleWorld(w) && GentleEvents(es)
    ensures SearchInv(w, AppRun(w, Open(setup), es)) && Invariant(AppRun(w, Open(setup), es).sched)
  {
    hide Do, Exec, SearchQueue, Invariant, AppRun;
    var adds: seq<Command<Work<W>>> := seq(|setup|, i requires 0 <= i < |setup| => Add("init", Other(setup[i])));
    FourLabels(adds);
    assert Opening(setup) == [AddLabel("init", 1), AddLabel("focus", 2), AddLabel("filter", 4), AddLabel(SEARCH, 5)] + adds;
    EmptySearch<W>();
    ExecGentle(Labelled(4), adds, []);
    StartKeeps<Work<W>>();
    StepKeeps(Prog(w), Start(), User(Opening(setup)));
    AppRunKeeps(w, Open(setup), es);
  }

  // ---- the search jobs refine the direct search ----

  /** The search in one go: for every package, in the order of the sorted keys, its
      matching entities. */
  function DirectSearch<W>(w: World<W>, query: Text): (r: seq<Found>) {
    var keys := SortedKeys(w);
    seq(|keys|, i requires 0 <= i < |keys| => Found(keys[i], Matching(w.test, query, Entities(w, keys[i]))))
  }

  lemma {:induction false} MatchingMeans(test: (Text, Text) -> bool, query: Text, es: seq<Entity>, e: Entity)
    ensures multiset(Matching(test, query, es))[e] == if test(query, e.name) then multiset(es)[e] else 0
  {
    if es != [] {
      MatchingMeans(test, query, es[1..], e);
      assert es == [es[0]] + es[1..];
    }
  }

  /** The places in a list, counted from `at`, of the entities that match. */
  function Places(test: (Text, Text) -> bool, query: Text, es: seq<Entity>, at: nat): seq<nat> {
    if es == [] then []
    else (if test(query, es[0].name) then [at] else []) + Places(test, query, es[1..], at + 1)
  }

  lemma PlacesStep(test: (Text, Text) -> bool, query: Text, es: seq<Entity>, at: nat)
    requires es != []
    ensures Matching(test, query, es) == (if test(query, es[0].name) then [es[0]] else []) + Matching(test, query, es[1..])
    ensures Places(test, query, es, at) == (if test(query, es[0].name) then [at] else []) + Places(test, query, es[1..], at + 1)
  {}

  lemma {:induction false} PlacesHold(test: (Text, Text) -> bool, query: Text, es: seq<Entity>, at: nat)
    ensures var found, places := Matching(test, query, es), Places(test, query, es, at);
            && |places| == |found|
            && forall j :: 0 <= j < |places| ==> at <= places[j] < at + |es| && found[j] == es[places[j] - at]
  {
    if es != [] {
      hide Matching, Places;
      PlacesStep(test, query, es, at);
      PlacesHold(test, query, es[1..], at + 1);
      var rest, places := Matching(test, query, es[1..]), Places(test, query, es[1..], at + 1);
      forall j | 0 <= j < |places| ensures at < places[j] < at + |es| && rest[j] == es[places[j] - at] {
        assert es[1..][places[j] - (at + 1)] == es[places[j] - at];
      }
    }
  }

  lemma {:induction false} PlacesAscend(test: (Text, Text) -> bool, query: Text, es: seq<Entity>, at: nat)
    ensures var places := Places(test, query, es, at); forall j, k :: 0 <= j < k < |places| ==> places[j] < places[k]
  {
    if es != [] {
      PlacesHold(test, query, es[1..], at + 1);
      PlacesAscend(test, query, es[1..], at + 1);
    }
  }

  lemma {:induction false} PlacesAreAll(test: (Text, Text) -> bool, query: Text, es: seq<Entity>, at: nat, n: nat)
    requires n < |es|
    ensures at + n in Places(test, query, es, at) <==> test(query, es[n].name)
  {
    PlacesHold(test, query, es[1..], at + 1);
    if n > 0 { PlacesAreAll(test, query, es[1..], at + 1, n - 1); }
  }

  /** The places are those of the matching entities, in the order of the list, and the
      entities found are those that stand there. */
  ghost predicate FoundInOrder(test: (Text, Text) -> bool, query: Text, es: seq<Entity>, found: seq<Entity>) {
    var places := Places(test, query, es, 0);
    && |places| == |found|
    && (forall j :: 0 <= j < |places| ==> places[j] < |es| && found[j] == es[places[j]])
    && (forall j, k :: 0 <= j < k < |places| ==> places[j] < places[k])
    && (forall n :: 0 <= n < |es| ==> (n in places <==> test(query, es[n].name)))
  }

  /** The direct search visits every key, sorted, and finds for each exactly the
      entities whose name matches, in the order in which the package has them. */
  lemma DirectSearchMeans<W>(w: World<W>, query: Text)
    ensures Sorting.Sorted(TextLeq, SortedKeys(w)) && multiset(SortedKeys(w)) == multiset(w.keys)
    ensures |DirectSearch(w, query)| == |SortedKeys(w)|
    ensures forall i :: 0 <= i < |SortedKeys(w)| ==>
              var found := DirectSearch(w, query)[i];
              && found.pack == SortedKeys(w)[i]
              && FoundInOrder(w.test, query, Entities(w, found.pack), found.matched)
  {
    hide Sorting.Sorted, SortedKeys, Matching, Places;
    TextLeqIsTotalOrder();
    SortedKeysSort(w);
    forall i | 0 <= i < |SortedKeys(w)|
      ensures FoundInOrder(w.test, query, Entities(w, SortedKeys(w)[i]), DirectSearch(w, query)[i].matched)
    {
      var es := Entities(w, SortedKeys(w)[i]);
      PlacesHold(w.test, query, es, 0);
      PlacesAscend(w.test, query, es, 0);
      forall n | 0 <= n < |es| ensures n in Places(w.test, query, es, 0) <==> w.test(query, es[n].name) {
        PlacesAreAll(w.test, query, es, 0, n);
      }
    }
  }

  lemma SortedKeysSort<W>(w: World<W>)
    requires TotalOrder(TextLeq)
    ensures Sorting.Sorted(TextLeq, SortedKeys(w)) && multiset(SortedKeys(w)) == multiset(w.keys)
  {
    SortSorts(TextLeq, w.keys);
  }

  /** The query is in the name: anywhere and whatever the case for a lower-case query,
      with lower-case letters inserted in front of its capitals for any other. */
  ghost predicate Contains(canon: CodeUnit -> CodeUnit, lower: Text -> Text, query: Text, name: Text) {
    if lower(query) == query then MiniRegex.Within(canon, query, name) else PlainQueries.OccursSpread(query, name)
  }

  /** With the compiled pattern as the test, an entity is found in a package just if it
      is one of the package's and the query is in its name, for a plain query; for any
      other there is a name with which an entity is wrongly found or wrongly missed. */
  lemma DirectSearchFinds<W>(w: World<W>, canon: CodeUnit -> CodeUnit, lower: Text -> Text, query: Text, i: nat, e: Entity)
    requires forall q, name :: w.test(q, name) <==> SearchPattern.Accepts(canon, SearchPattern.CompilePattern(lower, q), name)
    requires PlainQueries.KeepsMarks(canon) && i < |SortedKeys(w)|
    ensures SearchPattern.IsPlainQuery(query) ==>
              (e in DirectSearch(w, query)[i].matched <==>
                 e in Entities(w, SortedKeys(w)[i]) && Contains(canon, lower, query, e.name))
    ensures !SearchPattern.IsPlainQuery(query) ==>
              exists name :: w.test(query, name) != Contains(canon, lower, query, name)
  {
    hide SearchPattern.Accepts, SearchPattern.CompilePattern, SearchPattern.IsPlainQuery, PlainQueries.KeepsMarks, SortedKeys, Matching;
    var es := Entities(w, SortedKeys(w)[i]);
    MatchingMeans(w.test, query, es, e);
    assert e in Matching(w.test, query, es) <==> e in multiset(Matching(w.test, query, es));
    assert e in es <==> e in multiset(es);
    if lower(query) == query {
      PlainQueries.LowerCaseSearch(canon, lower, query);
    } else {
      PlainQueries.MixedCaseSearch(canon, lower, query);
    }
  }

  // ---- what was typed ----

  /** What was typed at the last `searchAll`. */
  function LastTyped<W>(es: seq<AppEvent<W>>): Option<Text> {
    if es == [] then None
    else if es[|es|-1].SearchAll? then Some(es[|es|-1].input)
    else LastTyped(es[..|es|-1])
  }

  /** The text to search for, if any: trimmed, not empty, and one that compiles. */
  function SearchText<W>(w: World<W>, es: seq<AppEvent<W>>): Option<Text> {
    var typed := LastTyped(es);
    if typed.None? || Trim(typed.value) == [] || !w.compiles(Trim(typed.value)) then None else Some(Trim(typed.value))
  }

  lemma AppRunSnoc<W>(w: World<W>, a: App<W>, es: seq<AppEvent<W>>, e: AppEvent<W>)
    requires Parallel(a.sched.table)
    ensures AppRun(w, a, es + [e]) == AppStep(w, AppRun(w, a, es), e)
  {
    hide AppStep;
    AppRunJoins(w, a, es, [e]);
    assert [e][1..] == [];
  }

  lemma StepTyped<W>(w: World<W>, a: App<W>, e: AppEvent<W>)
    requires Parallel(a.sched.table)
    ensures var q := if e.SearchAll? then Trim(e.input) else [];
            var c := AppStep(w, a, e).current;
            if !e.SearchAll? then c == a.current
            else if q == [] || !w.compiles(q) then c == None
            else c.Some? && c.value.query == q
  {
    hide Exec, Do, Fire, PageAfter;
  }

  /** In every run a search is in force just if the text typed last is one to search for,
      and then for that text. */
  lemma {:induction false} TypedIsInForce<W>(w: World<W>, setup: seq<W>, es: seq<AppEvent<W>>)
    ensures var c, q := AppRun(w, Open(setup), es).current, SearchText(w, es);
            if q.None? then c == None else c.Some? && c.value.query == q.value
    decreases |es|
  {
    hide AppStep, Trim;
    if es != [] {
      var front, e := es[..|es|-1], es[|es|-1];
      assert es == front + [e];
      TypedIsInForce(w, setup, front);
      AppRunSnoc(w, Open(setup), front, e);
      StepTyped(w, AppRun(w, Open(setup), front), e);
    }
  }

  /** Whenever the text typed last is one to search for, the results so far are those of
      the direct search for it, for the packages handled so far; once no search job
      waits, they are all of them, and every package's members have been searched. */
  lemma SearchRefinesDirect<W(!new)>(w: World<W>, setup: seq<W>, es: seq<AppEvent<W>>)
    requires GentleWorld(w) && GentleEvents(es)
    ensures var a, q := AppRun(w, Open(setup), es), SearchText(w, es);
            q.Some? ==>
              && a.page.entities <= DirectSearch(w, q.value)
              && (QueueOf(a.sched.table, SEARCH) == [] ==>
                    a.page.entities == DirectSearch(w, q.value) && a.page.members == SortedKeys(w))
  {
    hide SearchQueue, Invariant, AppRun, Open, SortedKeys, QueueOf, DirectSearch, SearchText;
    TypedIsInForce(w, setup, es);
    InForceIsDirect(w, setup, es);
  }

  /** The same for the search in force. */
  lemma InForceIsDirect<W(!new)>(w: World<W>, setup: seq<W>, es: seq<AppEvent<W>>)
    requires GentleWorld(w) && GentleEvents(es)
    ensures var a := AppRun(w, Open(setup), es);
            a.current.Some? ==>
              && a.page.entities <= DirectSearch(w, a.current.value.query)
              && (QueueOf(a.sched.table, SEARCH) == [] ==>
                    a.page.entities == DirectSearch(w, a.current.value.query) && a.page.members == SortedKeys(w))
  {
    hide SearchQueue, Invariant, AppRun, Open, SortedKeys, QueueOf;
    EverySearchRun(w, setup, es);
    var a := AppRun(w, Open(setup), es);
    if a.current.Some? {
      QueueParallel(a.sched.table, Left(w, a.current.value, a.done));
      ShownIsDirect(w, a.current.value, a.done);
    }
  }

  lemma ShownIsDirect<W>(w: World<W>, search: Search, n: nat)
    requires n <= 3 * |SortedKeys(w)|
    ensures PageAt(w, search, n).entities <= DirectSearch(w, search.query)
    ensures Left(w, search, n) == [] ==>
              PageAt(w, search, n).entities == DirectSearch(w, search.query) && PageAt(w, search, n).members == SortedKeys(w)
  {
    hide SortedKeys, Matching;
    var h := Handled(|SortedKeys(w)|, n);
    assert PageAt(w, search, n).entities == DirectSearch(w, search.query)[..h];
  }

  /** A restarted search leaves no trace of the old one: in every reachable state
      the next search job to run, if any, belongs to the last `searchAll` and searches
      for the text typed there; none is left after one without a text to search for. */
  lemma NoStaleJob<W(!new)>(w: World<W>, setup: seq<W>, es: seq<AppEvent<W>>)
    requires GentleWorld(w) && GentleEvents(es)
    ensures var a := AppRun(w, Open(setup), es);
            Busy(a.sched.table) && !Next(a.sched.table).work.Other? ==>
              a.current.Some? && SearchOf(Next(a.sched.table).work) == a.current.value
              && a.current.value.no == a.searches && Some(SearchOf(Next(a.sched.table).work).query) == SearchText(w, es)
  {
    hide SearchQueue, Invariant, AppRun, Open, SortedKeys, Busy, Next, SearchText;
    EverySearchRun(w, setup, es);
    TypedIsInForce(w, setup, es);
    var a := AppRun(w, Open(setup), es);
    if Busy(a.sched.table) && !Next(a.sched.table).work.Other? {
      if a.current.Some? { LeftIsOfSearch(w, a.current.value, a.done); }
      Dispatched(a.sched.table, Waits(w, a));
    }
  }

  /** The progress shown so far by a search of `p` packages: after the package at
      index `k` 2(p-k-1) jobs of at most max(1, 2p-2) are left. It rises, stays
      within 0..100, and says 100 for the last package only. */
  ghost predicate RightProgress(shown: seq<real>, p: nat) {
    && |shown| <= p
    && (forall k :: 0 <= k < |shown| ==>
          shown[k] == 100.0 - (2 * (p - k - 1)) as real / Max(1, 2 * p - 2) as real * 100.0)
    && (forall k :: 0 <= k < |shown| ==> 0.0 <= shown[k] <= 100.0 && (shown[k] == 100.0 <==> k == p - 1))
    && (forall i, k :: 0 <= i < k < |shown| ==> shown[i] < shown[k])
  }

  lemma PercentsProgress(shown: seq<real>, p: nat)
    requires |shown| <= p && forall k :: 0 <= k < |shown| ==> shown[k] == Percent(p, k + 1)
    ensures RightProgress(shown, p)
  {
    hide Percent;
    forall k | 0 <= k < |shown|
      ensures shown[k] == 100.0 - (2 * (p - k - 1)) as real / Max(1, 2 * p - 2) as real * 100.0
      ensures 0.0 <= shown[k] <= 100.0 && (shown[k] == 100.0 <==> k == p - 1)
    {
      PercentMeans(p, k + 1, k + 1);
    }
    forall i, k | 0 <= i < k < |shown| ensures shown[i] < shown[k] { PercentMeans(p, i + 1, k + 1); }
  }

  /** The progress bar of a search in force, in every reachable state; it has moved
      once for every package whose results are shown. */
  lemma ProgressShown<W(!new)>(w: World<W>, setup: seq<W>, es: seq<AppEvent<W>>)
    requires GentleWorld(w) && GentleEvents(es)
    ensures var a := AppRun(w, Open(setup), es);
            a.current.Some? ==> |a.page.shown| == |a.page.entities| && RightProgress(a.page.shown, |SortedKeys(w)|)
  {
    hide SearchQueue, Invariant, AppRun, Open, SortedKeys, Percent, RightProgress;
    EverySearchRun(w, setup, es);
    var a := AppRun(w, Open(setup), es);
    if a.current.Some? { PercentsProgress(a.page.shown, |SortedKeys(w)|); }
  }

  lemma PercentMeans(p: nat, i: nat, k: nat)
    requires 1 <= i <= k <= p
    ensures Percent(p, k) == 100.0 - (2 * (p - k)) as real / Max(1, 2 * p - 2) as real * 100.0
    ensures 0.0 <= Percent(p, k) <= 100.0 && (Percent(p, k) == 100.0 <==> k == p)
    ensures i < k ==> Percent(p, i) < Percent(p, k)
  {
    var most := Max(1, 2 * p - 2) as real;
    Fraction((2 * (p - k)) as real, most);
    if i < k {
      Fraction((2 * (p - i)) as real, most);
      FractionGrows((2 * (p - k)) as real, (2 * (p - i)) as real, most);
    }
  }

  lemma Fraction(a: real, b: real)
    requires 0.0 <= a <= b && b > 0.0
    ensures 0.0 <= a / b <= 1.0 && (a / b == 0.0 <==> a == 0.0)
  {
    assert a == a / b * b;
    if a / b < 0.0 || a / b > 1.0 { assert false; }
  }

  lemma FractionGrows(a: real, a': real, b: real)
    requires a < a' && b > 0.0
    ensures a / b < a' / b
  {}

  // ---- a search ends ----

  /** A package leads to two further jobs; the other search jobs to none. */
  function SearchCost<W>(cost: W -> nat): Work<W> -> nat {
    (work: Work<W>) => match work
      case Package(_, _) => 2
      case Members(_, _) => 0
      case Handle(_, _) => 0
      case Other(x) => cost(x)
  }

  lemma SearchIsFinite<W(!new)>(w: World<W>, cost: W -> nat)
    requires forall work, t :: Spawned(SearchCost(cost), w.base(work, t)) <= cost(work)
    ensures FinitelySpawning(Prog(w), SearchCost(cost))
  {
    forall job, t ensures Spawned(SearchCost(cost), Prog(w)(job, t)) <= SearchCost(cost)(job.work) {
      match job.work
      case Package(pack, search) => SpawnedTwo(SearchCost(cost), Members(pack, search), Handle(FoundIn(w, pack, search), search));
      case Members(_, _) =>
      case Handle(_, _) => assert Spawned(SearchCost(cost), [Ask(SEARCH)]) == 0 + Spawned(SearchCost(cost), []);
      case Other(_) =>
    }
  }

  lemma SpawnedTwo<W>(cost: Work<W> -> nat, x: Work<W>, y: Work<W>)
    ensures Spawned(cost, [Add(SEARCH, x), Add(SEARCH, y)]) == 2 + cost(x) + cost(y)
  {
    var cs: seq<Command<Work<W>>> := [Add(SEARCH, x), Add(SEARCH, y)];
    assert cs[1..][0] == cs[1] && cs[1..][1..] == [];
    assert Spawned(cost, cs) == 1 + cost(x) + Spawned(cost, cs[1..]);
    assert Spawned(cost, cs[1..]) == 1 + cost(y) + Spawned(cost, cs[1..][1..]);
  }

  function Firings<W>(n: nat): seq<AppEvent<W>> { seq(n, _ => Fires) }

  /** The timer alone drives the page as it drives the scheduler, and starts no search. */
  lemma {:induction false} FiringsRun<W>(w: World<W>, a: App<W>, n: nat)
    requires Parallel(a.sched.table)
    ensures AppRun(w, a, Firings(n)).sched == Run(Prog(w), a.sched, Ticks(n))
    ensures AppRun(w, a, Firings(n)).current == a.current
    decreases n
  {
    hide Fire, PageAfter;
    if n > 0 {
      TicksUnfold(Prog(w), a.sched, n);
      assert Firings<W>(n)[0] == Fires && Firings<W>(n)[1..] == Firings<W>(n - 1);
      FiringsRun(w, AppStep(w, a, Fires), n - 1);
    }
  }

  lemma {:induction false} AppRunJoins<W>(w: World<W>, a: App<W>, es: seq<AppEvent<W>>, more: seq<AppEvent<W>>)
    requires Parallel(a.sched.table)
    ensures AppRun(w, a, es + more) == AppRun(w, AppRun(w, a, es), more)
    decreases |es|
  {
    hide AppStep;
    if es == [] {
      assert es + more == more;
    } else {
      assert (es + more)[1..] == es[1..] + more;
      AppRunJoins(w, AppStep(w, a, es[0]), es[1..], more);
    }
  }

  lemma {:induction false} FiringsType<W>(es: seq<AppEvent<W>>, n: nat)
    ensures LastTyped(es + Firings(n)) == LastTyped(es)
    decreases n
  {
    var all := es + Firings<W>(n);
    if n > 0 {
      assert all[|all|-1] == Fires && all[..|all|-1] == es + Firings(n - 1);
      FiringsType(es, n - 1);
    } else {
      assert all == es;
    }
  }

  /** Left alone after its last `searchAll`, with other jobs that spawn finitely many
      and no job that throws, the page ends with the results of the direct search for
      the text typed there. */
  lemma SearchEnds<W(!new)>(w: World<W>, cost: W -> nat, setup: seq<W>, es: seq<AppEvent<W>>) returns (n: nat)
    requires GentleWorld(w) && GentleEvents(es)
    requires forall work, t :: Spawned(SearchCost(cost), w.base(work, t)) <= cost(work)
    requires SearchText(w, es).Some?
    requires forall k: nat :: !Run(Prog(w), AppRun(w, Open(setup), es).sched, Ticks(k)).threw
    ensures var a, e := AppRun(w, Open(setup), es), AppRun(w, Open(setup), es + Firings(n));
            && e.current == a.current && !Busy(e.sched.table)
            && e.page.entities == DirectSearch(w, SearchText(w, es).value)
  {
    hide SearchQueue, Invariant, AppRun, Open, SortedKeys, Run, Busy, DirectSearch, GentleWorld, LastTyped, Trim;
    var a := AppRun(w, Open(setup), es);
    EverySearchRun(w, setup, es);
    SearchIsFinite(w, cost);
    n := DrainsOrIdle(Prog(w), SearchCost(cost), a.sched);
    FiringsRun(w, a, n);
    AppRunJoins(w, Open(setup), es, Firings(n));
    FiringsType(es, n);
    SearchRefinesDirect(w, setup, es + Firings(n));
    IdleQueue(AppRun(w, a, Firings(n)).sched.table);
  }

  lemma DrainsOrIdle<J(!new)>(prog: Program<J>, cost: J -> nat, s: State<J>) returns (n: nat)
    requires Invariant(s) && FinitelySpawning(prog, cost) && Parallel(s.table)
    requires forall k: nat :: !Run(prog, s, Ticks(k)).threw
    ensures !Busy(Run(prog, s, Ticks(n)).table)
  {
    hide InOrder, Accounts, FinitelySpawning, Busy;
    assert Run(prog, s, Ticks(0)) == s;
    assert !Run(prog, s, Ticks(0)).threw;
    n := 0;
    if s.timeout.Some? { n := Drains(prog, cost, s); }
  }

  lemma IdleQueue<W>(t: Table<Work<W>>)
    requires Parallel(t) && !Busy(t)
    ensures QueueOf(t, SEARCH) == []
  {}
}

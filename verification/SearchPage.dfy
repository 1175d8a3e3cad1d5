/** The page's search functions, which update the result lists, the progress and
    the scheduler in place: each is proved against what the machine of the page
    says that it does, so that the properties of its runs are properties of them. */
module SearchPage {
  import opened Prelude
  import opened Texts
  import opened WorkQueues
  import opened Scheduler
  import opened SchedulerRuns
  import opened ChunkedSearch

  function Not(test: (Text, Text) -> bool): (Text, Text) -> bool { (query, name) => !test(query, name) }

  lemma MatchingStep(test: (Text, Text) -> bool, query: Text, es: seq<Entity>, i: nat)
    requires i <= |es|
    ensures i == 0 ==> es[i..] == es
    ensures i == |es| ==> Matching(test, query, es[i..]) == [] && Matching(Not(test), query, es[i..]) == []
    ensures i < |es| ==>
      var hit, rest := test(query, es[i].name), es[i+1..];
      && Matching(test, query, es[i..]) == (if hit then [es[i]] else []) + Matching(test, query, rest)
      && Matching(Not(test), query, es[i..]) == (if hit then [] else [es[i]]) + Matching(Not(test), query, rest)
  {
    if i < |es| { assert es[i..][0] == es[i] && es[i..][1..] == es[i+1..]; }
  }

  lemma ExecTwo<J>(s: State<J>, c: Command<J>, d: Command<J>)
    requires Parallel(s.table)
    ensures Exec(s, [c, d]) == if Do(s, c).1 then (Do(s, c).0, true) else Do(Do(s, c).0, d)
  {
    hide Do;
    DoParallel(s, c);
    assert [c, d][1..] == [d] && [d][1..] == [];
    if !Do(s, c).1 {
      var s' := Do(s, c).0;
      DoParallel(s', d);
      assert Exec(s', [d]) == (Do(s', d).0, Do(s', d).1);
    }
  }

  class SearchPage<W> {
    const w: World<W>
    const sched: Scheduler<Work<W>>
    var maxJobs: Positive
    var entities: seq<Found>
    var members: seq<Text>
    var shown: seq<real>
    ghost var current: Option<Search>
    var searches: nat
    ghost var done: nat

    constructor (w: World<W>, sched: Scheduler<Work<W>>)
      ensures this.w == w && this.sched == sched && ThePage() == Page([], [], 1, [])
      ensures current == None && searches == 0 && done == 0
    {
      this.w, this.sched := w, sched;
      maxJobs, entities, members, shown := 1, [], [], [];
      current, searches, done := None, 0, 0;
    }

    ghost function ThePage(): Page
      reads this
    {
      Page(entities, members, maxJobs, shown)
    }

    ghost function Value(): App<W>
      reads this, sched
    {
      App(sched.Value(), ThePage(), current, searches, done)
    }

    method SearchAll(input: Text)
      requires sched.Valid()
      modifies this, sched
      ensures sched.Valid() && Value() == Searched(w, old(Value()), input)
    {
      hide Do, Exec, Trim, Adds, SortedKeys, Parallel;
      sched.Clear(SEARCH);
      maxJobs := 1;
      current, done := None, 0;
      var query := Trim(input);
      if query == [] {
        return;
      }
      entities, members, shown := [], [], [];
      if !w.compiles(query) {
        return;
      }
      searches := searches + 1;
      var search := Search(query, searches);
      current := Some(search);
      SearchPackages(SortedKeys(w), search);
    }

    /** The loop over the sorted keys. A job that cannot be added ends it by throwing. */
    method SearchPackages(keys: seq<Text>, search: Search)
      requires sched.Valid()
      modifies sched
      ensures sched.Valid() && sched.Value() == Exec(old(sched.Value()), Adds(keys, search)).0
    {
      for i := 0 to |keys|
        invariant sched.Valid()
        invariant Exec(old(sched.Value()), Adds(keys, search)) == Exec(sched.Value(), Adds(keys[i..], search))
      {
        assert Adds<W>(keys[i..], search)[1..] == Adds(keys[i+1..], search);
        var thrown := SearchPackage(keys[i], search);
        if thrown {
          return;
        }
      }
    }

    method SearchPackage(pack: Text, search: Search) returns (thrown: bool)
      requires sched.Valid()
      modifies sched
      ensures sched.Valid() && (sched.Value(), thrown) == Do(old(sched.Value()), Add(SEARCH, Package(pack, search)))
    {
      thrown := sched.Add(SEARCH, Package(pack, search));
    }

    /** The loop that sorts a package's entities into matching and not matching. */
    method Partition(es: seq<Entity>, query: Text) returns (matched: seq<Entity>, notMatching: seq<Entity>)
      ensures matched == Matching(w.test, query, es)
      ensures notMatching == Matching(Not(w.test), query, es)
    {
      hide *;
      var test := w.test;
      ghost var all, none := Matching(test, query, es), Matching(Not(test), query, es);
      MatchingStep(test, query, es, 0);
      matched, notMatching := [], [];
      for i := 0 to |es|
        invariant all == matched + Matching(test, query, es[i..])
        invariant none == notMatching + Matching(Not(test), query, es[i..])
      {
        MatchingStep(test, query, es, i);
        if test(query, es[i].name) {
          matched := matched + [es[i]];
        } else {
          notMatching := notMatching + [es[i]];
        }
      }
      MatchingStep(test, query, es, |es|);
    }

    /** The job of a package: it adds the members' job before it looks at the names. */
    method PackageJob(job: Job<Work<W>>) returns (thrown: bool)
      requires sched.Valid() && job.work.Package?
      modifies sched
      ensures sched.Valid()
      ensures (sched.Value(), thrown) == Exec(old(sched.Value()), Prog(w)(job, old(sched.Value().table)))
    {
      var pack, search := job.work.pack, job.work.search;
      ExecTwo(sched.Value(), Add(SEARCH, Members(pack, search)), Add(SEARCH, Handle(FoundIn(w, pack, search), search)));
      thrown := sched.Add(SEARCH, Members(pack, search));
      if thrown {
        return;
      }
      var matched, notMatching := Partition(Entities(w, pack), search.query);
      thrown := sched.Add(SEARCH, Handle(Found(pack, matched), search));
    }

    method HandleSearchedPackage(found: Found)
      modifies this`entities
      ensures entities == old(entities) + [found]
    {
      entities := entities + [found];
    }

    method SetProgress() returns (thrown: bool)
      requires sched.Valid()
      modifies this`maxJobs, this`shown
      ensures thrown == !Has(sched.Value().table, SEARCH)
      ensures ThePage() == if thrown then old(ThePage())
                           else ChunkedSearch.SetProgress(old(ThePage()), |QueueOf(sched.Value().table, SEARCH)|)
    {
      var running := sched.NumberOfJobs(SEARCH);
      if running == None {
        return true;
      }
      if running.value > maxJobs {
        maxJobs := running.value;
      }
      shown := shown + [100.0 - running.value as real / maxJobs as real * 100.0];
      thrown := false;
    }

    /** The job that shows the results of a package. */
    method HandleJob(found: Found, search: Search) returns (thrown: bool)
      requires sched.Valid()
      modifies this`entities, this`maxJobs, this`shown
      ensures thrown == !Has(sched.Value().table, SEARCH)
      ensures !thrown ==> ThePage() == PageAfter<W>(old(ThePage()), Handle(found, search), sched.Value().table)
    {
      HandleSearchedPackage(found);
      thrown := SetProgress();
    }
  }
}

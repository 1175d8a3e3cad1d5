/** The scheduler's labels and queues: two parallel arrays sorted by priority,
    and the operations that read and change them. */
module WorkQueues {
  import opened Prelude

  /** A label object. `stamp` is its identity: labels are stamped as they are made. */
  datatype Label = Label(name: string, priority: int, stamp: nat)

  /** A work object: its identity and what it is to do. */
  datatype Job<J> = Job(uid: nat, work: J)

  datatype Table<J> = Table(labels: seq<Label>, queues: seq<seq<Job<J>>>)

  // ---- what the operations compute ----

  /** The first index from `i` on whose label has the name, or the length. */
  function Find(labels: seq<Label>, name: string, i: nat): (k: nat)
    requires i <= |labels|
    ensures i <= k <= |labels|
    ensures k < |labels| ==> labels[k].name == name
    ensures forall j :: i <= j < k ==> labels[j].name != name
    decreases |labels| - i
  {
    if i < |labels| && labels[i].name != name then Find(labels, name, i + 1) else i
  }

  predicate Has(t: Table, name: string) { Find(t.labels, name, 0) < |t.labels| }

  /** Where a new label goes: behind all labels of smaller or equal priority in front. */
  function Slot(labels: seq<Label>, priority: int, i: nat): (k: nat)
    requires i <= |labels|
    ensures i <= k <= |labels|
    ensures k < |labels| ==> labels[k].priority > priority
    ensures forall j :: i <= j < k ==> labels[j].priority <= priority
    decreases |labels| - i
  {
    if i < |labels| && labels[i].priority <= priority then Slot(labels, priority, i + 1) else i
  }

  function InsertAt<T>(s: seq<T>, i: nat, x: T): seq<T>
    requires i <= |s|
  {
    s[..i] + [x] + s[i..]
  }

  function RemoveAt<T>(s: seq<T>, i: nat): seq<T>
    requires i < |s|
  {
    s[..i] + s[i+1..]
  }

  predicate Parallel(t: Table) { |t.labels| == |t.queues| }

  /** Where the label of the name and its queue stand. */
  function SlotOf<J>(t: Table<J>, name: string): (k: Option<nat>)
    ensures k.Some? <==> Parallel(t) && Has(t, name)
    ensures k.Some? ==> k.value == Find(t.labels, name, 0) < |t.queues|
  {
    if Parallel(t) && Has(t, name) then Some(Find(t.labels, name, 0)) else None
  }

  function WithLabel<J>(t: Table<J>, l: Label): Table<J>
    requires Parallel(t)
  {
    var i := Slot(t.labels, l.priority, 0);
    Table(InsertAt(t.labels, i, l), InsertAt(t.queues, i, []))
  }

  function WithoutLabel<J>(t: Table<J>, name: string): Table<J>
    requires Parallel(t)
  {
    if Has(t, name) then
      var i := Find(t.labels, name, 0);
      Table(RemoveAt(t.labels, i), RemoveAt(t.queues, i))
    else t
  }

  function WithJob<J>(t: Table<J>, name: string, job: Job<J>): Table<J>
    requires Parallel(t) && Has(t, name)
  {
    var i := Find(t.labels, name, 0);
    t.(queues := t.queues[i := t.queues[i] + [job]])
  }

  /** Clearing an unknown label sets a property nobody reads. */
  function Cleared<J>(t: Table<J>, name: string): Table<J>
    requires Parallel(t)
  {
    if Has(t, name) then t.(queues := t.queues[Find(t.labels, name, 0) := []]) else t
  }

  /** The first index from `i` on with a nonempty queue, or the length. */
  function FirstBusy<J>(queues: seq<seq<Job<J>>>, i: nat): (k: nat)
    requires i <= |queues|
    ensures i <= k <= |queues|
    ensures k < |queues| ==> queues[k] != []
    ensures forall j :: i <= j < k ==> queues[j] == []
    decreases |queues| - i
  {
    if i < |queues| && queues[i] == [] then FirstBusy(queues, i + 1) else i
  }

  predicate Busy(t: Table) { FirstBusy(t.queues, 0) < |t.queues| }

  function Next<J>(t: Table<J>): Job<J>
    requires Busy(t)
  {
    t.queues[FirstBusy(t.queues, 0)][0]
  }

  function WithoutNext<J>(t: Table<J>): Table<J>
    requires Busy(t)
  {
    var i := FirstBusy(t.queues, 0);
    t.(queues := t.queues[i := t.queues[i][1..]])
  }

  // ---- the order the table keeps ----

  /** Sorted by priority, labels of one priority in the order they were made. */
  predicate Sorted(labels: seq<Label>) {
    forall i, j :: 0 <= i < j < |labels| ==>
      labels[i].priority < labels[j].priority
      || (labels[i].priority == labels[j].priority && labels[i].stamp < labels[j].stamp)
  }

  /** Jobs of one queue in the order they were added. */
  predicate Fifo<J>(q: seq<Job<J>>) { forall i, j :: 0 <= i < j < |q| ==> q[i].uid < q[j].uid }

  predicate InOrder<J>(t: Table<J>, stamps: nat, uids: nat) {
    && Parallel(t)
    && Sorted(t.labels)
    && (forall i :: 0 <= i < |t.labels| ==> t.labels[i].stamp < stamps)
    && (forall i :: 0 <= i < |t.queues| ==> Fifo(t.queues[i]))
    && (forall i, j :: 0 <= i < |t.queues| && 0 <= j < |t.queues[i]| ==> t.queues[i][j].uid < uids)
  }

  /** Label and queue stand at the same index. */
  ghost predicate Holds<J>(t: Table<J>, l: Label, q: seq<Job<J>>) {
    Parallel(t) && exists i :: 0 <= i < |t.labels| && t.labels[i] == l && t.queues[i] == q
  }

  /** The table with a label and its empty queue at index `k`, by index. */
  ghost predicate Inserted<J>(t: Table<J>, t': Table<J>, k: nat, l: Label) {
    && Parallel(t) && Parallel(t') && k <= |t.labels| && |t'.labels| == |t.labels| + 1
    && t'.labels[k] == l && t'.queues[k] == []
    && (forall i :: 0 <= i < k ==> t'.labels[i] == t.labels[i] && t'.queues[i] == t.queues[i])
    && (forall i :: k < i < |t'.labels| ==> t'.labels[i] == t.labels[i-1] && t'.queues[i] == t.queues[i-1])
  }

  lemma InsertedHolds<J>(t: Table<J>, t': Table<J>, k: nat, l: Label)
    requires Inserted(t, t', k, l)
    ensures forall m, q :: Holds(t', m, q) <==> Holds(t, m, q) || (m == l && q == [])
  {
    forall m, q | Holds(t, m, q) ensures Holds(t', m, q) {
      var i :| 0 <= i < |t.labels| && t.labels[i] == m && t.queues[i] == q;
      var j := if i < k then i else i + 1;
      assert t'.labels[j] == m && t'.queues[j] == q;
    }
  }

  lemma InsertedInOrder<J>(t: Table<J>, t': Table<J>, k: nat, l: Label, stamps: nat, uids: nat)
    requires Inserted(t, t', k, l) && InOrder(t, stamps, uids) && l.stamp == stamps
    requires forall i :: 0 <= i < k ==> t.labels[i].priority <= l.priority
    requires forall i :: k <= i < |t.labels| ==> t.labels[i].priority > l.priority
    ensures InOrder(t', stamps + 1, uids)
  {
    hide Holds;
    forall i, j | 0 <= i < j < |t'.labels|
      ensures t'.labels[i].priority < t'.labels[j].priority
              || (t'.labels[i].priority == t'.labels[j].priority && t'.labels[i].stamp < t'.labels[j].stamp)
    {
      var i0, j0 := if i < k then i else i - 1, if j < k then j else j - 1;
      if i != k && j != k {
        assert t'.labels[i] == t.labels[i0] && t'.labels[j] == t.labels[j0];
      }
    }
  }

  /** A new label gets an empty queue and its place in the order; every other label
      keeps its queue. */
  lemma WithLabelKeepsOrder<J>(t: Table<J>, name: string, priority: int, stamps: nat, uids: nat)
    requires InOrder(t, stamps, uids)
    ensures InOrder(WithLabel(t, Label(name, priority, stamps)), stamps + 1, uids)
    ensures forall l, q :: Holds(WithLabel(t, Label(name, priority, stamps)), l, q)
                      <==> Holds(t, l, q) || (l == Label(name, priority, stamps) && q == [])
  {
    hide Holds;
    var l := Label(name, priority, stamps);
    var k, t' := Slot(t.labels, priority, 0), WithLabel(t, l);
    forall i | k <= i < |t.labels| ensures t.labels[i].priority > priority {
      if i > k { assert t.labels[k].priority <= t.labels[i].priority; }
    }
    InsertedInOrder(t, t', k, l, stamps, uids);
    InsertedHolds(t, t', k, l);
  }

  /** The table without the label and the queue at index `k`, by index. */
  ghost predicate Removed<J>(t: Table<J>, t': Table<J>, k: nat) {
    && Parallel(t) && Parallel(t') && k < |t.labels| == |t'.labels| + 1
    && (forall i :: 0 <= i < k ==> t'.labels[i] == t.labels[i] && t'.queues[i] == t.queues[i])
    && (forall i :: k <= i < |t'.labels| ==> t'.labels[i] == t.labels[i+1] && t'.queues[i] == t.queues[i+1])
  }

  lemma RemovedHolds<J>(t: Table<J>, t': Table<J>, k: nat)
    requires Removed(t, t', k) && Sorted(t.labels)
    ensures forall l, q :: Holds(t', l, q) <==> Holds(t, l, q) && l != t.labels[k]
  {
    forall l, q | Holds(t, l, q) && l != t.labels[k] ensures Holds(t', l, q) {
      var i :| 0 <= i < |t.labels| && t.labels[i] == l && t.queues[i] == q;
      var j := if i < k then i else i - 1;
      assert t'.labels[j] == l && t'.queues[j] == q;
    }
    forall l, q | Holds(t', l, q) ensures Holds(t, l, q) && l != t.labels[k] {
      var j :| 0 <= j < |t'.labels| && t'.labels[j] == l && t'.queues[j] == q;
      var i := if j < k then j else j + 1;
      assert t.labels[i] == l && t.queues[i] == q;
    }
  }

  lemma RemovedInOrder<J>(t: Table<J>, t': Table<J>, k: nat, stamps: nat, uids: nat)
    requires Removed(t, t', k) && InOrder(t, stamps, uids)
    ensures InOrder(t', stamps, uids)
  {
    hide Holds;
    forall i, j | 0 <= i < j < |t'.labels|
      ensures t'.labels[i].priority < t'.labels[j].priority
              || (t'.labels[i].priority == t'.labels[j].priority && t'.labels[i].stamp < t'.labels[j].stamp)
    {
      var i1, j1 := if i < k then i else i + 1, if j < k then j else j + 1;
      assert t'.labels[i] == t.labels[i1] && t'.labels[j] == t.labels[j1];
    }
  }

  /** Removing a label removes its queue; every other label keeps its queue. */
  lemma WithoutLabelKeepsOrder<J>(t: Table<J>, name: string, stamps: nat, uids: nat)
    requires InOrder(t, stamps, uids)
    ensures InOrder(WithoutLabel(t, name), stamps, uids)
    ensures forall l, q :: Holds(WithoutLabel(t, name), l, q)
                      <==> Holds(t, l, q) && (Has(t, name) ==> l != t.labels[Find(t.labels, name, 0)])
  {
    hide Holds;
    if Has(t, name) {
      var k, t' := Find(t.labels, name, 0), WithoutLabel(t, name);
      RemovedInOrder(t, t', k, stamps, uids);
      RemovedHolds(t, t', k);
    }
  }

  /** Changing the queue of one index leaves the labels and the other queues alone. */
  lemma QueueChange<J>(t: Table<J>, k: nat, q: seq<Job<J>>)
    requires Parallel(t) && Sorted(t.labels) && k < |t.labels|
    ensures var t' := t.(queues := t.queues[k := q]);
            forall l, p :: Holds(t', l, p) <==> if l == t.labels[k] then p == q else Holds(t, l, p)
  {
    var t' := t.(queues := t.queues[k := q]);
    assert t'.labels[k] == t.labels[k] && t'.queues[k] == q;
    forall l, p | l != t.labels[k] && Holds(t, l, p) ensures Holds(t', l, p) {
      var i :| 0 <= i < |t.labels| && t.labels[i] == l && t.queues[i] == p;
      assert t'.labels[i] == l && t'.queues[i] == p;
    }
  }

  /** A new job, with the next identity, goes to the end of its label's queue. */
  lemma WithJobKeepsOrder<J>(t: Table<J>, name: string, work: J, stamps: nat, uids: nat)
    requires InOrder(t, stamps, uids) && Has(t, name)
    ensures InOrder(WithJob(t, name, Job(uids, work)), stamps, uids + 1)
    ensures var k := Find(t.labels, name, 0);
            forall l, q :: Holds(WithJob(t, name, Job(uids, work)), l, q)
                      <==> if l == t.labels[k] then q == t.queues[k] + [Job(uids, work)] else Holds(t, l, q)
  {
    var k := Find(t.labels, name, 0);
    QueueChange(t, k, t.queues[k] + [Job(uids, work)]);
  }

  lemma ClearedKeepsOrder<J>(t: Table<J>, name: string, stamps: nat, uids: nat)
    requires InOrder(t, stamps, uids)
    ensures InOrder(Cleared(t, name), stamps, uids)
    ensures forall l, q :: Holds(Cleared(t, name), l, q)
                      <==> if Has(t, name) && l == t.labels[Find(t.labels, name, 0)] then q == [] else Holds(t, l, q)
  {
    if Has(t, name) { QueueChange(t, Find(t.labels, name, 0), []); }
  }

  /** The dispatched job belongs to a label in front of which all queues are empty,
      is the oldest of its queue, and leaves it; nothing else moves. */
  lemma DispatchOrder<J>(t: Table<J>, stamps: nat, uids: nat)
    requires InOrder(t, stamps, uids) && Busy(t)
    ensures InOrder(WithoutNext(t), stamps, uids)
    ensures exists l, q :: Holds(t, l, q) && q != [] && Next(t) == q[0] && Holds(WithoutNext(t), l, q[1..])
              && (forall job :: job in q ==> Next(t).uid <= job.uid)
              && (forall m, p :: Holds(t, m, p) && p != [] ==>
                    l.priority < m.priority || (l.priority == m.priority && l.stamp <= m.stamp))
              && (forall m, p :: m != l ==> (Holds(WithoutNext(t), m, p) <==> Holds(t, m, p)))
  {
    var k := FirstBusy(t.queues, 0);
    var l, q := t.labels[k], t.queues[k];
    QueueChange(t, k, q[1..]);
    assert Holds(t, l, q);
    forall m, p | Holds(t, m, p) && p != []
      ensures l.priority < m.priority || (l.priority == m.priority && l.stamp <= m.stamp)
    {
      var i :| 0 <= i < |t.labels| && t.labels[i] == m && t.queues[i] == p;
      assert k <= i;
    }
  }
}

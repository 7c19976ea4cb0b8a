/** The worker's task queue: any thread may post, one thread reads and deletes. A poster
    signals the reader only when it finds the queue empty, so a lost wake-up would leave
    tasks in the queue for ever. */
module TaskQueue {
  import opened Common

  /** A task in the queue. Every accepted post has its own ticket. */
  datatype Item = Item(task: nat, ticket: nat)

  // ------------------------------------------------------------ the queue under its lock

  predicate Active(q: seq<Item>, task: nat) { exists k :: 0 <= k < |q| && q[k].task == task }

  /** The queue without a task. */
  function Without(q: seq<Item>, task: nat): seq<Item> {
    if q == [] then [] else if q[0].task == task then q[1..] else [q[0]] + Without(q[1..], task)
  }

  ghost predicate DistinctTasks(q: seq<Item>) {
    forall i, j :: 0 <= i < j < |q| ==> q[i].task != q[j].task
  }

  lemma {:induction false} WithoutDrops(q: seq<Item>, task: nat)
    requires DistinctTasks(q)
    ensures DistinctTasks(Without(q, task))
    ensures forall t :: Active(Without(q, task), t) <==> Active(q, t) && t != task
  {
    if q != [] {
      WithoutDrops(q[1..], task);
      var r := Without(q, task);
      assert forall t :: Active(q, t) <==> q[0].task == t || Active(q[1..], t) by {
        forall t | Active(q, t) && q[0].task != t ensures Active(q[1..], t) {
          var k :| 0 <= k < |q| && q[k].task == t;
          assert q[1..][k-1].task == t;
        }
        forall t | Active(q[1..], t) ensures Active(q, t) {
          var k :| 0 <= k < |q[1..]| && q[1..][k].task == t;
          assert q[k+1].task == t;
        }
      }
      if q[0].task == task {
        assert forall k :: 0 <= k < |q[1..]| ==> q[1..][k] == q[k+1];
      } else {
        WithoutHead(q, task, r);
      }
    }
  }

  lemma WithoutHead(q: seq<Item>, task: nat, r: seq<Item>)
    requires q != [] && q[0].task != task && DistinctTasks(q) && r == [q[0]] + Without(q[1..], task)
    requires DistinctTasks(Without(q[1..], task))
    requires forall t :: Active(Without(q[1..], task), t) <==> Active(q[1..], t) && t != task
    ensures DistinctTasks(r)
    ensures forall t :: Active(r, t) <==> q[0].task == t || Active(Without(q[1..], task), t)
  {
    var s := Without(q[1..], task);
    forall k | 0 <= k < |s| ensures s[k].task != q[0].task {
      assert Active(s, s[k].task);
      var j :| 0 <= j < |q[1..]| && q[1..][j].task == s[k].task;
      assert q[j+1].task == s[k].task;
    }
    forall t ensures Active(r, t) <==> q[0].task == t || Active(s, t) {
      if q[0].task == t { assert r[0].task == t; }
      if Active(s, t) {
        var k :| 0 <= k < |s| && s[k].task == t;
        assert r[k+1].task == t;
      }
      if Active(r, t) && q[0].task != t {
        var k :| 0 <= k < |r| && r[k].task == t;
        assert s[k-1].task == t;
      }
    }
  }

  lemma {:induction false} WithoutNothing(q: seq<Item>, task: nat)
    requires !Active(q, task)
    ensures Without(q, task) == q
  {
    if q != [] {
      assert q[0].task != task;
      forall k | 0 <= k < |q[1..]| ensures q[1..][k].task != task { assert q[k+1].task != task; }
      WithoutNothing(q[1..], task);
    }
  }

  // ------------------------------------------------------------ all threads together

  /** The reader: waiting for the kernel, told by it, about to look for the first task,
      holding the task it saw first, or running a task it has taken out. */
  datatype Reader = Waiting | Woken | Checking | Got(it: Item) | Handling(it: Item)

  /** `signalling` counts posters that found the queue empty and have not signalled yet.
      `accepted`, `done` and `deleted` are the history of posts, finished runs and deletions. */
  datatype World = World(
    q: seq<Item>, signalled: bool, signalling: nat, reader: Reader,
    accepted: seq<Item>, done: seq<Item>, deleted: set<nat>)

  const START := World([], false, 0, Waiting, [], [], {})

  datatype Event =
    | Post(task: nat)    // any thread: the locked part of a post
    | Signal             // a poster that found the queue empty signals the kernel
    | Wait               // the kernel hands the event to the reader
    | Consume            // the reader consumes the signal
    | Check              // the reader looks at the first task
    | Take               // the reader takes it out under the lock
    | Finish             // the task's handler returns
    | Delete(task: nat)  // the reader's thread deletes a task

  ghost predicate Enabled(w: World, e: Event) {
    match e
    case Post(t) => true
    case Signal => w.signalling > 0
    case Wait => w.reader.Waiting? && w.signalled
    case Consume => w.reader.Woken?
    case Check => w.reader.Checking?
    case Take => w.reader.Got?
    case Finish => w.reader.Handling?
    case Delete(t) => w.reader.Waiting? || w.reader.Handling?
  }

  ghost function Step(w: World, e: Event): World
    requires Enabled(w, e)
  {
    match e
    case Post(t) =>
      if Active(w.q, t) then w else
        var it := Item(t, |w.accepted|);
        w.(q := w.q + [it], accepted := w.accepted + [it], signalling := w.signalling + if w.q == [] then 1 else 0)
    case Signal => w.(signalling := w.signalling - 1, signalled := true)
    case Wait => w.(reader := Woken)
    case Consume => w.(reader := Checking, signalled := false)
    case Check => w.(reader := if w.q == [] then Waiting else Got(w.q[0]))
    case Take => w.(q := Without(w.q, w.reader.it.task), reader := Handling(w.reader.it))
    case Finish => w.(done := w.done + [w.reader.it], reader := Checking)
    case Delete(t) =>
      if Active(w.q, t) then w.(q := Without(w.q, t), deleted := w.deleted + {TicketOf(w.q, t)}) else w
  }

  ghost function TicketOf(q: seq<Item>, t: nat): nat
    requires Active(q, t)
  {
    var k :| 0 <= k < |q| && q[k].task == t; q[k].ticket
  }

  // ------------------------------------------------------------ what every run keeps

  /** Posts that were not deleted, in the order in which they were accepted. */
  ghost function Live(s: seq<Item>, deleted: set<nat>): seq<Item> {
    if s == [] then [] else
      var rest := Live(s[..|s|-1], deleted);
      if s[|s|-1].ticket in deleted then rest else rest + [s[|s|-1]]
  }

  ghost function InHand(r: Reader): seq<Item> { if r.Handling? then [r.it] else [] }

  ghost predicate Inv(w: World) {
    // no lost wake-up
    && (w.q != [] ==> w.signalled || w.signalling > 0 || !w.reader.Waiting?)
    && (w.reader.Woken? ==> w.signalled)
    // the task the reader saw first stays first until it is taken out
    && (w.reader.Got? ==> w.q != [] && w.q[0] == w.reader.it)
    // nothing is lost, nothing runs twice, and the order is that of the posts
    && Live(w.accepted, w.deleted) == w.done + InHand(w.reader) + w.q
    && (forall k :: 0 <= k < |w.accepted| ==> w.accepted[k].ticket == k)
    && DistinctTasks(w.q)
    && (forall t :: t in w.deleted ==> t < |w.accepted|)
  }

  lemma {:induction false} LiveExtend(s: seq<Item>, it: Item, deleted: set<nat>)
    requires it.ticket !in deleted
    ensures Live(s + [it], deleted) == Live(s, deleted) + [it]
  {
    assert (s + [it])[..|s|] == s;
  }

  /** Deleting one ticket drops its item and no other. */
  lemma {:induction false} LiveDelete(s: seq<Item>, deleted: set<nat>, t: nat)
    requires forall k :: 0 <= k < |s| ==> s[k].ticket == k
    ensures Live(s, deleted + {t}) == DropTicket(Live(s, deleted), t)
  {
    if s != [] {
      var n := |s| - 1;
      LiveDelete(s[..n], deleted, t);
      DropAppend(Live(s[..n], deleted), s[n], t);
    }
  }

  ghost function DropTicket(s: seq<Item>, t: nat): seq<Item> {
    if s == [] then [] else (if s[0].ticket == t then [] else [s[0]]) + DropTicket(s[1..], t)
  }

  lemma {:induction false} DropAppend(s: seq<Item>, it: Item, t: nat)
    ensures DropTicket(s + [it], t) == DropTicket(s, t) + if it.ticket == t then [] else [it]
  {
    if s != [] {
      DropAppend(s[1..], it, t);
      assert (s + [it])[1..] == s[1..] + [it];
    } else {
      assert s + [it] == [it] && [it][1..] == [];
    }
  }

  lemma {:induction false} DropConcat(a: seq<Item>, b: seq<Item>, t: nat)
    ensures DropTicket(a + b, t) == DropTicket(a, t) + DropTicket(b, t)
  {
    if a == [] {
      assert a + b == b;
    } else {
      DropConcat(a[1..], b, t);
      assert (a + b)[1..] == a[1..] + b;
      var x := if a[0].ticket == t then [] else [a[0]];
      assert DropTicket(a + b, t) == x + DropTicket(a[1..] + b, t);
      assert x + (DropTicket(a[1..], t) + DropTicket(b, t)) == x + DropTicket(a[1..], t) + DropTicket(b, t);
    }
  }

  lemma {:induction false} DropAbsent(s: seq<Item>, t: nat)
    requires forall k :: 0 <= k < |s| ==> s[k].ticket != t
    ensures DropTicket(s, t) == s
  {
    if s != [] { DropAbsent(s[1..], t); }
  }

  /** The tickets of live posts increase. */
  ghost predicate Increasing(s: seq<Item>) { forall i, j :: 0 <= i < j < |s| ==> s[i].ticket < s[j].ticket }

  lemma {:induction false} LiveIncreasing(s: seq<Item>, deleted: set<nat>)
    requires forall k :: 0 <= k < |s| ==> s[k].ticket == k
    ensures Increasing(Live(s, deleted))
    ensures forall k :: 0 <= k < |Live(s, deleted)| ==>
      Live(s, deleted)[k].ticket < |s| && Live(s, deleted)[k].ticket !in deleted
  {
    if s != [] { LiveIncreasing(s[..|s|-1], deleted); }
  }

  lemma {:induction false} WithoutAt(q: seq<Item>, k: nat)
    requires DistinctTasks(q) && k < |q|
    ensures Without(q, q[k].task) == q[..k] + q[k+1..]
  {
    if k > 0 {
      WithoutAt(q[1..], k - 1);
      assert q[1..][..k-1] == q[1..k] && [q[0]] + q[1..k] == q[..k];
    }
  }

  lemma {:induction false} DropAt(q: seq<Item>, k: nat)
    requires Increasing(q) && k < |q|
    ensures DropTicket(q, q[k].ticket) == q[..k] + q[k+1..]
  {
    if k == 0 {
      DropAbsent(q[1..], q[0].ticket);
    } else {
      DropAt(q[1..], k - 1);
      assert q[1..][..k-1] == q[1..k] && [q[0]] + q[1..k] == q[..k];
    }
  }

  lemma PostKeeps(w: World, t: nat)
    requires Inv(w)
    ensures Inv(Step(w, Post(t)))
  {
    if !Active(w.q, t) {
      var it := Item(t, |w.accepted|);
      LiveExtend(w.accepted, it, w.deleted);
      var w' := Step(w, Post(t));
      assert w'.done + InHand(w'.reader) + w'.q == w.done + InHand(w.reader) + w.q + [it];
    }
  }

  lemma QueueIncreasing(w: World)
    requires Inv(w)
    ensures Increasing(w.done + InHand(w.reader) + w.q) && Increasing(w.q)
  {
    LiveIncreasing(w.accepted, w.deleted);
    var h := w.done + InHand(w.reader);
    forall i, j | 0 <= i < j < |w.q| ensures w.q[i].ticket < w.q[j].ticket {
      assert (h + w.q)[|h| + i] == w.q[i] && (h + w.q)[|h| + j] == w.q[j];
    }
  }

  /** The live posts after the deletion of the task at index `k` of the queue. */
  lemma DeleteLive(w: World, k: nat)
    requires Inv(w) && k < |w.q|
    ensures Live(w.accepted, w.deleted + {w.q[k].ticket}) == w.done + InHand(w.reader) + (w.q[..k] + w.q[k+1..])
    ensures w.q[k].ticket < |w.accepted|
  {
    QueueIncreasing(w);
    DropAt(w.q, k);
    LiveIncreasing(w.accepted, w.deleted);
    var h, id := w.done + InHand(w.reader), w.q[k].ticket;
    assert (h + w.q)[|h| + k] == w.q[k];
    forall j | 0 <= j < |h| ensures h[j].ticket != id { assert (h + w.q)[j] == h[j]; }
    LiveDelete(w.accepted, w.deleted, id);
    DropConcat(h, w.q, id);
    DropAbsent(h, id);
  }

  lemma DeleteKeeps(w: World, t: nat)
    requires Inv(w) && Enabled(w, Delete(t))
    ensures Inv(Step(w, Delete(t)))
  {
    if Active(w.q, t) {
      var k :| 0 <= k < |w.q| && w.q[k].task == t && w.q[k].ticket == TicketOf(w.q, t);
      WithoutAt(w.q, k);
      DeleteAtKeeps(w, k);
    }
  }

  lemma DeleteAtKeeps(w: World, k: nat)
    requires Inv(w) && k < |w.q| && (w.reader.Waiting? || w.reader.Handling?)
    ensures Inv(w.(q := w.q[..k] + w.q[k+1..], deleted := w.deleted + {w.q[k].ticket}))
  {
    DeleteLive(w, k);
    var r := w.q[..k] + w.q[k+1..];
    assert forall j :: 0 <= j < |r| ==> r[j] == w.q[if j < k then j else j + 1];
  }

  lemma TakeKeeps(w: World)
    requires Inv(w) && Enabled(w, Take)
    ensures Inv(Step(w, Take))
  {
    var w' := Step(w, Take);
    assert w'.q == w.q[1..];
    assert w.done + InHand(w.reader) + w.q == w.done + InHand(w'.reader) + w'.q;
    assert DistinctTasks(w'.q);
  }

  lemma StepKeeps(w: World, e: Event)
    requires Inv(w) && Enabled(w, e)
    ensures Inv(Step(w, e))
  {
    match e
    case Post(t) => PostKeeps(w, t);
    case Delete(t) => DeleteKeeps(w, t);
    case Take => TakeKeeps(w);
    case Signal =>
    case Wait =>
    case Consume =>
    case Check =>
    case Finish => assert w.done + [w.reader.it] + w.q == w.done + [w.reader.it] + [] + w.q;
  }

  // ------------------------------------------------------------ runs

  ghost predicate LegalRun(w: World, es: seq<Event>)
    decreases |es|
  {
    es == [] || (Enabled(w, es[0]) && LegalRun(Step(w, es[0]), es[1..]))
  }

  ghost function After(w: World, es: seq<Event>): World
    requires LegalRun(w, es)
    decreases |es|
  {
    if es == [] then w else After(Step(w, es[0]), es[1..])
  }

  /** A run takes one step after the other. */
  lemma {:induction false} OneStepMore(w: World, es: seq<Event>, e: Event)
    requires LegalRun(w, es)
    ensures LegalRun(w, es + [e]) <==> Enabled(After(w, es), e)
    ensures LegalRun(w, es + [e]) ==> After(w, es + [e]) == Step(After(w, es), e)
    decreases |es|
  {
    var all := es + [e];
    if es == [] {
      assert all[0] == e && all[1..] == [];
    } else {
      assert all[0] == es[0] && all[1..] == es[1..] + [e];
      OneStepMore(Step(w, es[0]), es[1..], e);
    }
  }

  /** In every interleaving: a queue with tasks is never forgotten,
      and the runs are exactly the accepted posts that were not deleted, each once, in order. */
  lemma {:induction false} EveryRun(w: World, es: seq<Event>)
    requires Inv(w) && LegalRun(w, es)
    ensures Inv(After(w, es)) && Increasing(After(w, es).done)
    ensures var w' := After(w, es); w'.reader.Waiting? && !w'.signalled && w'.signalling == 0 ==>
      w'.q == [] && w'.done == Live(w'.accepted, w'.deleted)
    decreases |es|
  {
    if es == [] {
      QueueIncreasing(w);
      forall i, j | 0 <= i < j < |w.done| ensures w.done[i].ticket < w.done[j].ticket {
        var all := w.done + InHand(w.reader) + w.q;
        assert all[i] == w.done[i] && all[j] == w.done[j];
      }
    } else {
      StepKeeps(w, es[0]);
      EveryRun(Step(w, es[0]), es[1..]);
    }
  }

  /** The same from the empty queue on. */
  lemma FromEmpty(es: seq<Event>)
    requires LegalRun(START, es)
    ensures var w := After(START, es);
      && (w.q != [] ==> w.signalled || w.signalling > 0 || !w.reader.Waiting?)
      && Increasing(w.done) && w.done + InHand(w.reader) + w.q == Live(w.accepted, w.deleted)
      && (w.reader.Waiting? && !w.signalled && w.signalling == 0 ==> w.q == [] && w.done == Live(w.accepted, w.deleted))
  {
    assert Live([], {}) == [];
    EveryRun(START, es);
  }

  // ------------------------------------------------------------ the reader gets there

  /** Steps that do not depend on anyone posting or deleting. */
  ghost predicate Internal(e: Event) { !e.Post? && !e.Delete? }

  ghost function ReaderWork(r: Reader): nat {
    match r
    case Woken => 0 case Waiting => 1 case Got(_) => 2 case Checking => 3 case Handling(_) => 4
  }

  ghost function Work(w: World): nat {
    5 * w.signalling + (if w.signalled then 4 else 0) + 3 * |w.q| + ReaderWork(w.reader)
  }

  /** Left alone, the threads run the queue dry: each step is progress, and as long as a task
      is queued or being run some step can be taken. */
  lemma RunsDry(w: World, e: Event)
    requires Inv(w)
    ensures Enabled(w, e) && Internal(e) ==> Work(Step(w, e)) < Work(w)
    ensures (forall e' :: Internal(e') ==> !Enabled(w, e')) ==> w.q == [] && w.done == Live(w.accepted, w.deleted)
  {
    if e.Take? && Enabled(w, e) {
      WithoutAt(w.q, 0);
    }
    if forall e' :: Internal(e') ==> !Enabled(w, e') {
      assert !Enabled(w, Signal) && !Enabled(w, Wait) && !Enabled(w, Consume) && !Enabled(w, Check)
        && !Enabled(w, Take) && !Enabled(w, Finish);
    }
  }

  // ------------------------------------------------------------ the list

  /** The list of tasks; `linked` are the tasks whose link field says they are in a list. What is
      done to it under the lock are the steps of all threads described above. */
  class Queue {
    var tasks: seq<Item>
    var linked: set<nat>
    var tickets: nat

    constructor ()
      ensures Valid() && Shows(START)
    {
      tasks, linked, tickets := [], {}, 0;
    }

    ghost predicate Valid()
      reads this
    {
      DistinctTasks(tasks) && forall t :: t in linked <==> Active(tasks, t)
    }

    /** The list is that of the given state of all threads. */
    ghost predicate Shows(w: World)
      reads this
    {
      tasks == w.q && tickets == |w.accepted|
    }

    /** Adds a task unless it is queued already. Returns whether the queue was empty: that poster
        is the one that has to signal. */
    method Post(task: nat, ghost w: World) returns (wasEmpty: bool)
      requires Valid() && Shows(w)
      modifies this
      ensures Valid() && Shows(Step(w, Event.Post(task)))
      ensures Step(w, Event.Post(task)).signalling == w.signalling + if wasEmpty then 1 else 0
      ensures wasEmpty <==> old(tasks) == []
      ensures Active(old(tasks), task) ==> tasks == old(tasks)
      ensures !Active(old(tasks), task) ==> tasks == old(tasks) + [Item(task, old(tickets))]
    {
      if task in linked { return false; }
      wasEmpty := tasks == [];
      tasks := tasks + [Item(task, tickets)];
      linked := linked + {task};
      tickets := tickets + 1;
      forall t ensures t in linked <==> Active(tasks, t) {
        if t in old(linked) {
          var k :| 0 <= k < |old(tasks)| && old(tasks)[k].task == t;
          assert tasks[k].task == t;
        } else if t == task {
          assert tasks[|tasks|-1].task == t;
        }
      }
    }

    /** Removes a task if it is queued. */
    method Delete(task: nat, ghost w: World)
      requires Valid() && Shows(w) && Enabled(w, Event.Delete(task))
      modifies this
      ensures Valid() && Shows(Step(w, Event.Delete(task)))
      ensures tasks == Without(old(tasks), task)
    {
      Unlink(task);
      if !Active(w.q, task) { WithoutNothing(w.q, task); }
    }

    method Unlink(task: nat)
      requires Valid()
      modifies this
      ensures Valid() && tasks == Without(old(tasks), task) && tickets == old(tickets)
    {
      WithoutDrops(tasks, task);
      if task in linked {
        tasks := Without(tasks, task);
        linked := linked - {task};
      } else {
        WithoutNothing(tasks, task);
      }
    }

    /** The reader looks at the first task, without the lock. */
    method First(ghost w: World) returns (it: Option<Item>)
      requires Shows(w) && Enabled(w, Check)
      ensures Step(w, Check).reader == if it.Some? then Got(it.value) else Waiting
    {
      it := if tasks == [] then None else Some(tasks[0]);
    }

    /** The reader takes the task out that it saw first. */
    method TakeOut(it: Item, ghost w: World)
      requires Valid() && Shows(w) && w.reader == Got(it)
      modifies this
      ensures Valid() && Shows(Step(w, Take)) && Step(w, Take).reader == Handling(it)
    {
      Unlink(it.task);
    }
  }

  /** One task of the run loop, with tasks posted by other threads between the look at the list
      and the lock, and deleted by the handler: the reader runs the task that was first. */
  method RunOne(q: Queue, posts: seq<nat>, deletions: seq<nat>, ghost w: World)
    returns (ran: Option<Item>, ghost w': World)
    requires q.Valid() && q.Shows(w) && Inv(w) && w.reader.Checking?
    modifies q
    ensures q.Valid() && q.Shows(w') && Inv(w')
    ensures ran.None? <==> old(q.tasks) == []
    ensures ran.None? ==> w'.reader.Waiting?
    ensures ran.Some? ==> ran.value == old(q.tasks)[0] && w'.reader.Checking? && w'.done == w.done + [ran.value]
  {
    ran := q.First(w);
    StepKeeps(w, Check);
    w' := Step(w, Check);
    if ran.None? { return; }
    w' := PostAll(q, posts, w');
    q.TakeOut(ran.value, w');
    StepKeeps(w', Take);
    w' := Step(w', Take);
    w' := DeleteAll(q, deletions, w');
    StepKeeps(w', Finish);
    w' := Step(w', Finish);
  }

  method PostAll(q: Queue, posts: seq<nat>, ghost w: World) returns (ghost w': World)
    requires q.Valid() && q.Shows(w) && Inv(w)
    modifies q
    ensures q.Valid() && q.Shows(w') && Inv(w') && w'.reader == w.reader && w'.done == w.done
  {
    w' := w;
    for i := 0 to |posts|
      invariant q.Valid() && q.Shows(w') && Inv(w') && w'.reader == w.reader && w'.done == w.done
    {
      var wasEmpty := q.Post(posts[i], w');
      PostKeeps(w', posts[i]);
      w' := Step(w', Event.Post(posts[i]));
    }
  }

  method DeleteAll(q: Queue, deletions: seq<nat>, ghost w: World) returns (ghost w': World)
    requires q.Valid() && q.Shows(w) && Inv(w) && w.reader.Handling?
    modifies q
    ensures q.Valid() && q.Shows(w') && Inv(w') && w'.reader == w.reader && w'.done == w.done
  {
    w' := w;
    for i := 0 to |deletions|
      invariant q.Valid() && q.Shows(w') && Inv(w') && w'.reader == w.reader && w'.done == w.done
    {
      q.Delete(deletions[i], w');
      DeleteKeeps(w', deletions[i]);
      w' := Step(w', Event.Delete(deletions[i]));
    }
  }
}

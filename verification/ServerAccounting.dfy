/** The books of one connection, in numbers of frames. */
module ServerAccounting {
  import opened Wire
  import opened Dispatching
  import opened ServerModel
  import opened ServerSafety
  import opened ServerConservation
  import opened ServerTheorems
  import TP = ThreadPoolModel

  /** The results of connection `id` among `results`, in order. */
  function Mine(id: nat, results: seq<Result>): seq<Result> {
    if results == [] then []
    else (if results[0].id == id then [results[0]] else []) + Mine(id, results[1..])
  }

  lemma {:induction false} MineAppend(id: nat, a: seq<Result>, b: seq<Result>)
    ensures Mine(id, a + b) == Mine(id, a) + Mine(id, b)
  {
    if a == [] {
      assert a + b == b;
    } else {
      assert (a + b)[0] == a[0] && (a + b)[1..] == a[1..] + b;
      MineAppend(id, a[1..], b);
      AppendAssociates(if a[0].id == id then [a[0]] else [], Mine(id, a[1..]), Mine(id, b));
    }
  }

  lemma {:induction false} MineAll(id: nat, a: seq<Result>)
    ensures (forall i :: 0 <= i < |a| ==> a[i].id == id) ==> Mine(id, a) == a
    ensures (forall i :: 0 <= i < |a| ==> a[i].id != id) ==> Mine(id, a) == []
  {
    if a != [] {
      MineAll(id, a[1..]);
    }
  }

  lemma {:induction false} MineTimes(id: nat, a: seq<Result>, r: Result)
    ensures Times(r, Mine(id, a)) == if r.id == id then Times(r, a) else 0
  {
    if a != [] {
      TimesFirst(r, a);
      MineTimes(id, a[1..], r);
      TimesAppend(r, if a[0].id == id then [a[0]] else [], Mine(id, a[1..]));
    }
  }

  function HeldResults(respond: Responder, ws: seq<TP.Worker<Task>>): seq<Result> {
    if ws == [] then []
    else (if ws[0].Running? then [ProcessFrame(respond, ws[0].task)] else []) + HeldResults(respond, ws[1..])
  }

  lemma {:induction false} HeldResultsTimes(respond: Responder, ws: seq<TP.Worker<Task>>, r: Result)
    ensures Times(r, HeldResults(respond, ws)) == Held(respond, r, ws)
  {
    if ws != [] {
      HeldResultsTimes(respond, ws[1..], r);
      TimesAppend(r, if ws[0].Running? then [ProcessFrame(respond, ws[0].task)] else [], HeldResults(respond, ws[1..]));
    }
  }

  /** All results in flight and those enqueued on `id`. */
  function Accounted(respond: Responder, s: Server, id: nat): seq<Result>
    requires id in s.hist
  {
    Processed(respond, Unsubmitted(s.loop)) + Processed(respond, s.pool.queue.items)
    + HeldResults(respond, s.pool.workers) + s.completed + Batch(s.loop) + Enqueued(s.hist[id], id)
  }

  lemma AccountedTimes(respond: Responder, s: Server, r: Result)
    requires r.id in s.hist
    ensures Times(r, Accounted(respond, s, r.id)) ==
            InFlight(respond, s, r) + Times(r, Enqueued(s.hist[r.id], r.id))
  {
    var a, b := Processed(respond, Unsubmitted(s.loop)), Processed(respond, s.pool.queue.items);
    var c, d := HeldResults(respond, s.pool.workers), s.completed;
    HeldResultsTimes(respond, s.pool.workers, r);
    TimesAppend(r, a, b);
    TimesAppend(r, a + b, c);
    TimesAppend(r, a + b + c, d);
    TimesAppend(r, a + b + c + d, Batch(s.loop));
    TimesAppend(r, a + b + c + d + Batch(s.loop), Enqueued(s.hist[r.id], r.id));
  }

  lemma MineAccountedTimes(respond: Responder, s: Server, id: nat, r: Result)
    requires Reachable(respond, s) && id in s.hist && IsOpen(s, id)
    ensures Times(r, Mine(id, Accounted(respond, s, id))) == Times(r, Owed(respond, s.hist[id], id))
  {
    MineTimes(id, Accounted(respond, s, id), r);
    if r.id == id {
      Conservation(respond, s, r);
      AccountedTimes(respond, s, r);
    } else {
      assert r !in Owed(respond, s.hist[id], id);
    }
  }

  lemma AllMineAccounted(respond: Responder, s: Server, id: nat)
    requires Reachable(respond, s) && id in s.hist && IsOpen(s, id)
    ensures multiset(Mine(id, Accounted(respond, s, id))) == multiset(Owed(respond, s.hist[id], id))
  {
    var mine, owed := Mine(id, Accounted(respond, s, id)), Owed(respond, s.hist[id], id);
    forall r: Result
      ensures multiset(mine)[r] == multiset(owed)[r]
    {
      MineAccountedTimes(respond, s, id, r);
      assert Times(r, mine) == multiset(mine)[r] && Times(r, owed) == multiset(owed)[r];
    }
  }

  function TasksFor(id: nat, tasks: seq<Task>): nat {
    if tasks == [] then 0 else (if tasks[0].id == id then 1 else 0) + TasksFor(id, tasks[1..])
  }

  function WorkersFor(id: nat, ws: seq<TP.Worker<Task>>): nat {
    if ws == [] then 0 else (if ws[0].Running? && ws[0].task.id == id then 1 else 0) + WorkersFor(id, ws[1..])
  }

  function ResultsFor(id: nat, results: seq<Result>): nat {
    |Mine(id, results)|
  }

  lemma {:induction false} TasksForResults(respond: Responder, id: nat, tasks: seq<Task>)
    ensures ResultsFor(id, Processed(respond, tasks)) == TasksFor(id, tasks)
  {
    if tasks != [] {
      assert Processed(respond, tasks)[1..] == Processed(respond, tasks[1..]);
      TasksForResults(respond, id, tasks[1..]);
    }
  }

  lemma {:induction false} WorkersForResults(respond: Responder, id: nat, ws: seq<TP.Worker<Task>>)
    ensures ResultsFor(id, HeldResults(respond, ws)) == WorkersFor(id, ws)
  {
    if ws != [] {
      WorkersForResults(respond, id, ws[1..]);
      MineAppend(id, if ws[0].Running? then [ProcessFrame(respond, ws[0].task)] else [], HeldResults(respond, ws[1..]));
    }
  }

  lemma AccountedSize(respond: Responder, s: Server, id: nat)
    requires id in s.hist
    ensures |Mine(id, Accounted(respond, s, id))| ==
            TasksFor(id, Unsubmitted(s.loop)) + TasksFor(id, s.pool.queue.items) + WorkersFor(id, s.pool.workers)
            + ResultsFor(id, s.completed) + ResultsFor(id, Batch(s.loop)) + |s.hist[id].delivered|
  {
    var a, b := Processed(respond, Unsubmitted(s.loop)), Processed(respond, s.pool.queue.items);
    var c, d := HeldResults(respond, s.pool.workers), s.completed;
    TasksForResults(respond, id, Unsubmitted(s.loop));
    TasksForResults(respond, id, s.pool.queue.items);
    WorkersForResults(respond, id, s.pool.workers);
    MineAll(id, Enqueued(s.hist[id], id));
    MineAppend(id, a, b);
    MineAppend(id, a + b, c);
    MineAppend(id, a + b + c, d);
    MineAppend(id, a + b + c + d, Batch(s.loop));
    MineAppend(id, a + b + c + d + Batch(s.loop), Enqueued(s.hist[id], id));
  }

  /** Every frame decoded on an open connection is in exactly one place: read but
      not submitted, queued, with a worker, stored, in the loop's batch, or
      answered. On a closed one the answers never exceed the frames. */
  lemma FramesAccountedFor(respond: Responder, s: Server, id: nat)
    requires Reachable(respond, s) && id in s.hist
    ensures |s.hist[id].delivered| <= |s.hist[id].frames|
    ensures IsOpen(s, id) ==>
              |s.hist[id].frames| ==
              TasksFor(id, Unsubmitted(s.loop)) + TasksFor(id, s.pool.queue.items) + WorkersFor(id, s.pool.workers)
              + ResultsFor(id, s.completed) + ResultsFor(id, Batch(s.loop)) + |s.hist[id].delivered|
  {
    EndToEnd(respond, s, id);
    if IsOpen(s, id) {
      var mine, owed := Mine(id, Accounted(respond, s, id)), Owed(respond, s.hist[id], id);
      AllMineAccounted(respond, s, id);
      AccountedSize(respond, s, id);
      assert |multiset(mine)| == |mine| && |multiset(owed)| == |owed| == |s.hist[id].frames|;
    }
  }
}

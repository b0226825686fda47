/**
  Write-behind persistence: snapshots go through a bounded queue to one worker, which writes them
  to the database. A full queue drops the snapshot.
 */
module WriteBehind {
  import opened Cookies
  import opened Wrappers

  datatype PersistTask = PersistTask(jarKey: string, entries: seq<CookieEntry>)

  type Store = map<string, seq<CookieEntry>>

  const QUEUE_CAPACITY := 4096

  /** writeJarToDB: an empty snapshot deletes the record. */
  function WriteTask(db: Store, task: PersistTask): Store {
    if task.entries == [] then db - {task.jarKey} else db[task.jarKey := task.entries]
  }

  function Replay(db: Store, tasks: seq<PersistTask>): Store
    decreases |tasks|
  {
    if tasks == [] then db else WriteTask(Replay(db, tasks[..|tasks| - 1]), tasks[|tasks| - 1])
  }

  lemma {:induction false} ReplayAppend(db: Store, a: seq<PersistTask>, b: seq<PersistTask>)
    ensures Replay(db, a + b) == Replay(Replay(db, a), b)
    decreases |b|
  {
    if b == [] {
      assert a + b == a;
    } else {
      ReplayAppend(db, a, b[..|b| - 1]);
      assert (a + b)[..|a + b| - 1] == a + b[..|b| - 1];
    }
  }

  lemma ReplayFirst(db: Store, task: PersistTask, rest: seq<PersistTask>)
    ensures Replay(WriteTask(db, task), rest) == Replay(db, [task] + rest)
  {
    ReplayAppend(db, [task], rest);
    assert Replay(db, [task]) == WriteTask(Replay(db, [task][..0]), task);
  }

  /** What a replay leaves under a key is the last snapshot for it, or what was there before. */
  lemma {:induction false} ReplayKeepsLast(db: Store, tasks: seq<PersistTask>, i: nat)
    requires i < |tasks| && forall j :: i < j < |tasks| ==> tasks[j].jarKey != tasks[i].jarKey
    ensures var key, after := tasks[i].jarKey, Replay(db, tasks);
            if tasks[i].entries == [] then key !in after else key in after && after[key] == tasks[i].entries
    decreases |tasks|
  {
    if i < |tasks| - 1 {
      var init := tasks[..|tasks| - 1];
      assert init[i] == tasks[i] && forall j :: i < j < |init| ==> init[j] == tasks[j];
      ReplayKeepsLast(db, init, i);
    }
  }

  lemma {:induction false} ReplayLeavesOthers(db: Store, tasks: seq<PersistTask>, key: string)
    requires forall i :: 0 <= i < |tasks| ==> tasks[i].jarKey != key
    ensures key in Replay(db, tasks) <==> key in db
    ensures key in db ==> Replay(db, tasks)[key] == db[key]
    decreases |tasks|
  {
    if tasks != [] { ReplayLeavesOthers(db, tasks[..|tasks| - 1], key); }
  }

  // ----- the queue and its worker, step by step -----

  // `inHand` is the task received but not yet written; `accepted` records every task enqueued.
  datatype Queue = Queue(
    db: Store, pending: seq<PersistTask>, inHand: Option<PersistTask>,
    closing: bool, exited: bool, accepted: seq<PersistTask>)

  datatype QueueStep = Offer(task: PersistTask) | Take | WriteOut | Close | Exit

  predicate CanStep(q: Queue, step: QueueStep) {
    match step
    case Offer(_) => true
    case Take => !q.exited && q.inHand.None? && q.pending != []
    case WriteOut => q.inHand.Some?
    case Close => true
    case Exit => q.closing && !q.exited && q.inHand.None? && q.pending == []
  }

  function StepQueue(q: Queue, step: QueueStep): Queue
    requires CanStep(q, step)
  {
    match step
    case Offer(task) =>
      if |q.pending| < QUEUE_CAPACITY then q.(pending := q.pending + [task], accepted := q.accepted + [task]) else q
    case Take => q.(pending := q.pending[1..], inHand := Some(q.pending[0]))
    case WriteOut => q.(db := WriteTask(q.db, q.inHand.value), inHand := None)
    case Close => q.(closing := true)
    case Exit => q.(exited := true)
  }

  ghost predicate QueueRun(q: Queue, steps: seq<QueueStep>, r: Queue)
    decreases |steps|
  {
    if steps == [] then q == r
    else
      var last := steps[|steps| - 1];
      exists m :: QueueRun(q, steps[..|steps| - 1], m) && CanStep(m, last) && r == StepQueue(m, last)
  }

  function Held(q: Queue): seq<PersistTask> {
    (if q.inHand.Some? then [q.inHand.value] else []) + q.pending
  }

  // The database with everything still under way replayed onto it.
  function Eventually(q: Queue): Store {
    Replay(q.db, Held(q))
  }

  lemma ReplayOneMore(db: Store, tasks: seq<PersistTask>, task: PersistTask)
    ensures Replay(db, tasks + [task]) == WriteTask(Replay(db, tasks), task)
  {
    assert (tasks + [task])[..|tasks|] == tasks;
  }

  lemma StepKeepsEventual(q: Queue, step: QueueStep, base: Store)
    requires CanStep(q, step) && Eventually(q) == Replay(base, q.accepted)
    ensures Eventually(StepQueue(q, step)) == Replay(base, StepQueue(q, step).accepted)
  {
    var r := StepQueue(q, step);
    match step {
      case Offer(task) =>
        if |q.pending| < QUEUE_CAPACITY {
          assert Held(r) == Held(q) + [task];
          ReplayOneMore(q.db, Held(q), task);
          ReplayOneMore(base, q.accepted, task);
        }
      case Take => assert Held(r) == Held(q);
      case WriteOut =>
        assert Held(q) == [q.inHand.value] + q.pending;
        assert Held(r) == q.pending;
        ReplayFirst(q.db, q.inHand.value, q.pending);
      case Close => assert Held(r) == Held(q);
      case Exit => assert Held(r) == Held(q);
    }
  }

  /**
    Write-behind is synchronous writing of the accepted tasks: at every point of every run,
    replaying what is still under way onto the database gives the replay of all tasks accepted so
    far, in order.
   */
  lemma {:induction false} WriteBehindIsReplay(base: Store, steps: seq<QueueStep>, r: Queue)
    requires QueueRun(Queue(base, [], None, false, false, []), steps, r)
    ensures Eventually(r) == Replay(base, r.accepted)
    decreases |steps|
  {
    if steps != [] {
      var init := steps[..|steps| - 1];
      var m :| QueueRun(Queue(base, [], None, false, false, []), init, m)
            && CanStep(m, steps[|steps| - 1]) && r == StepQueue(m, steps[|steps| - 1]);
      WriteBehindIsReplay(base, init, m);
      StepKeepsEventual(m, steps[|steps| - 1], base);
    }
  }

  /** When the worker exits after Close, the database is the replay of all accepted tasks. */
  lemma CloseDrains(base: Store, steps: seq<QueueStep>, r: Queue)
    requires QueueRun(Queue(base, [], None, false, false, []), steps, r) && CanStep(r, Exit)
    ensures StepQueue(r, Exit).db == Replay(base, StepQueue(r, Exit).accepted)
  {
    WriteBehindIsReplay(base, steps, r);
    assert Held(r) == [];
  }

  /** A snapshot is accepted exactly when fewer than 4096 are pending. */
  lemma OfferedExactlyWithRoom(q: Queue, task: PersistTask)
    ensures var r := StepQueue(q, Offer(task));
            if |q.pending| < 4096 then r.accepted == q.accepted + [task] && r.pending == q.pending + [task]
            else r == q
  {
  }

  /** The worker is never stuck: from every state of every run it can write out all it holds, and then the database is the replay of all accepted tasks. */
  lemma {:induction false} WorkerCanDrain(base: Store, steps: seq<QueueStep>, q: Queue) returns (more: seq<QueueStep>, r: Queue)
    requires QueueRun(Queue(base, [], None, false, false, []), steps, q) && !q.exited
    ensures QueueRun(Queue(base, [], None, false, false, []), more, r) && r.accepted == q.accepted
    ensures Held(r) == [] && r.db == Replay(base, q.accepted)
    decreases |q.pending|, q.inHand.Some?
  {
    hide QueueRun;
    if q.inHand.Some? {
      QueueMore(base, steps, q, WriteOut);
      more, r := WorkerCanDrain(base, steps + [WriteOut], StepQueue(q, WriteOut));
    } else if q.pending != [] {
      QueueMore(base, steps, q, Take);
      more, r := WorkerCanDrain(base, steps + [Take], StepQueue(q, Take));
    } else {
      WriteBehindIsReplay(base, steps, q);
      more, r := steps, q;
    }
  }

  lemma QueueMore(base: Store, steps: seq<QueueStep>, q: Queue, step: QueueStep)
    requires QueueRun(Queue(base, [], None, false, false, []), steps, q) && CanStep(q, step)
    ensures QueueRun(Queue(base, [], None, false, false, []), steps + [step], StepQueue(q, step))
  {
    hide CanStep, StepQueue;
    var all := steps + [step];
    assert all[..|all| - 1] == steps && all[|all| - 1] == step;
  }
}

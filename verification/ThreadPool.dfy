/** The thread pool of SipSupService/src/ThreadPool.cpp as interleaved steps: any number of workers and of threads
    that post tasks, one mutex around the queue, and a counting semaphore. A running task may post tasks too. */
module ThreadPools {
  import opened Common

  type Task = nat

  /** Where a thread stands: each step below is one atomic action of the program. */
  datatype Pc =
    | Idle
    | PostLock(task: Task) | PostPush(task: Task) | PostUnlock | PostSignal
    | Wait | TakeLock | TakePop | TakeUnlock(found: Option<Task>) | Ready(task: Task) | Running

  datatype Thread = Thread(worker: bool, pc: Pc)
  {
    predicate HoldsLock() {
      pc.PostPush? || pc.PostUnlock? || pc.TakePop? || pc.TakeUnlock?
    }

    /** Between its push and its sem_post, or between its sem_wait and its pop. */
    predicate Owes() {
      pc.PostUnlock? || pc.PostSignal? || pc.TakeLock? || pc.TakePop?
    }

    /** The steps the thread still has to make, with those its task will need. */
    function Steps(): nat {
      var back := if worker then 1 else 0;
      match pc
      case Idle => 0
      case PostLock(_) => 10 + back
      case PostPush(_) => 9 + back
      case PostUnlock => 8 + back
      case PostSignal => 7 + back
      case Wait => 0
      case TakeLock => 5
      case TakePop => 4
      case TakeUnlock(_) => 3
      case Ready(_) => 2
      case Running => 1
    }

    function InHand(): multiset<Task> {
      match pc
      case TakeUnlock(Some(task)) => multiset{task}
      case Ready(task) => multiset{task}
      case _ => multiset{}
    }

    /** A pool thread is always in its loop, other threads only post, and no pop comes back empty-handed. */
    predicate RightPlace() {
      && pc != TakeUnlock(None)
      && if worker then !pc.Idle? else pc.Idle? || pc.PostLock? || pc.PostPush? || pc.PostUnlock? || pc.PostSignal?
    }
  }

  /** posted and taken list every push and every pop so far; started counts the tasks that were run. */
  datatype State = State(threads: seq<Thread>, holder: Option<nat>, queue: seq<Task>, sem: nat,
                         posted: seq<Task>, taken: seq<Task>, started: multiset<Task>)

  /** Go: the next action of a thread. Call: a thread outside the pool, or a running task, posts a task.
      Interrupt: sem_wait returns an error, and the worker waits again. */
  datatype Action = Go(thread: nat) | Call(thread: nat, task: Task) | Interrupt(thread: nat)

  function At(s: State, i: nat, pc: Pc): State
    requires i < |s.threads|
  {
    s.(threads := s.threads[i := s.threads[i].(pc := pc)])
  }

  function Lock(s: State, i: nat, pc: Pc): Option<State>
    requires i < |s.threads|
  {
    if s.holder.Some? then None else Some(At(s, i, pc).(holder := Some(i)))
  }

  function Unlock(s: State, i: nat, pc: Pc): State
    requires i < |s.threads|
  {
    At(s, i, pc).(holder := None)
  }

  /** None while the action has to wait. */
  function Advance(s: State, i: nat): Option<State>
    requires i < |s.threads|
  {
    match s.threads[i].pc
    case Idle => None
    case PostLock(task) => Lock(s, i, PostPush(task))
    case PostPush(task) => Some(At(s, i, PostUnlock).(queue := s.queue + [task], posted := s.posted + [task]))
    case PostUnlock => Some(Unlock(s, i, PostSignal))
    case PostSignal => Some(At(s, i, if s.threads[i].worker then Running else Idle).(sem := s.sem + 1))
    case Wait => if s.sem == 0 then None else Some(At(s, i, TakeLock).(sem := s.sem - 1))
    case TakeLock => Lock(s, i, TakePop)
    case TakePop =>
      if s.queue == [] then Some(At(s, i, TakeUnlock(None)))
      else Some(At(s, i, TakeUnlock(Some(s.queue[0]))).(queue := s.queue[1..], taken := s.taken + [s.queue[0]]))
    case TakeUnlock(found) => Some(Unlock(s, i, match found case Some(task) => Ready(task) case None => Wait))
    case Ready(task) => Some(At(s, i, Running).(started := s.started + multiset{task}))
    case Running => Some(At(s, i, Wait))
  }

  function Next(s: State, a: Action): Option<State> {
    if a.thread >= |s.threads| then None
    else
      match a
      case Go(i) => Advance(s, i)
      case Call(i, task) =>
        if s.threads[i].pc == Idle || s.threads[i].pc == Running then Some(At(s, i, PostLock(task))) else None
      case Interrupt(i) => if s.threads[i].pc == Wait then Some(s) else None
  }

  function Start(workers: nat, others: nat): State {
    State(seq(workers, _ => Thread(true, Wait)) + seq(others, _ => Thread(false, Idle)), None, [], 0, [], [],
          multiset{})
  }

  // ---------------------------------------------------------------- sums over the threads

  function Owed(threads: seq<Thread>): nat {
    if threads == [] then 0 else (if threads[0].Owes() then 1 else 0) + Owed(threads[1..])
  }

  function StepsLeft(threads: seq<Thread>): nat {
    if threads == [] then 0 else threads[0].Steps() + StepsLeft(threads[1..])
  }

  function InHands(threads: seq<Thread>): multiset<Task> {
    if threads == [] then multiset{} else threads[0].InHand() + InHands(threads[1..])
  }

  lemma {:induction false} SumsUpdate(threads: seq<Thread>, i: nat, t: Thread)
    requires i < |threads|
    ensures Owed(threads[i := t]) ==
            Owed(threads) - (if threads[i].Owes() then 1 else 0) + (if t.Owes() then 1 else 0)
    ensures StepsLeft(threads[i := t]) == StepsLeft(threads) - threads[i].Steps() + t.Steps()
  {
    if i == 0 {
      assert threads[i := t][1..] == threads[1..];
    } else {
      assert threads[i := t][1..] == threads[1..][i - 1 := t];
      SumsUpdate(threads[1..], i - 1, t);
    }
  }

  lemma {:induction false} HandsUpdate(threads: seq<Thread>, i: nat, t: Thread)
    requires i < |threads|
    ensures InHands(threads[i := t]) + threads[i].InHand() == InHands(threads) + t.InHand()
  {
    if i == 0 {
      assert threads[i := t][1..] == threads[1..];
      Swap(InHands(threads[1..]), threads[0].InHand(), t.InHand());
    } else {
      assert threads[i := t][1..] == threads[1..][i - 1 := t];
      HandsUpdate(threads[1..], i - 1, t);
      AddBoth(threads[0].InHand(), InHands(threads[1..]), InHands(threads[1..][i - 1 := t]), threads[i].InHand(),
              t.InHand());
    }
  }

  lemma {:induction false} Swap(rest: multiset<Task>, left: multiset<Task>, came: multiset<Task>)
    ensures (came + rest) + left == (left + rest) + came
  {
  }

  lemma {:induction false} AddBoth(more: multiset<Task>, before: multiset<Task>, after: multiset<Task>,
                                   left: multiset<Task>, came: multiset<Task>)
    requires after + left == before + came
    ensures (more + after) + left == (more + before) + came
  {
    assert (more + after) + left == more + (after + left);
    assert (more + before) + came == more + (before + came);
  }

  lemma {:induction false} SumsAtLeast(threads: seq<Thread>, i: nat)
    requires i < |threads|
    ensures Owed(threads) >= if threads[i].Owes() then 1 else 0
    ensures StepsLeft(threads) >= threads[i].Steps()
  {
    if i > 0 {
      SumsAtLeast(threads[1..], i - 1);
    }
  }

  lemma {:induction false} NothingLeft(threads: seq<Thread>)
    requires StepsLeft(threads) == 0
    ensures Owed(threads) == 0 && InHands(threads) == multiset{}
    ensures forall i :: 0 <= i < |threads| ==> threads[i].Steps() == 0
  {
    if threads != [] {
      NothingLeft(threads[1..]);
    }
  }

  // ---------------------------------------------------------------- what every step keeps

  /** The lock is held by the thread inside a critical section, and by no other. */
  predicate Locked(threads: seq<Thread>, holder: Option<nat>) {
    && (holder.Some? ==> holder.value < |threads|)
    && (forall i :: 0 <= i < |threads| ==> (threads[i].HoldsLock() <==> holder == Some(i)))
    && (forall i :: 0 <= i < |threads| ==> threads[i].RightPlace())
  }

  predicate Counted(s: State) {
    |s.queue| == s.sem + Owed(s.threads)
  }

  predicate Accounted(taken: seq<Task>, started: multiset<Task>, threads: seq<Thread>) {
    multiset(taken) == started + InHands(threads)
  }

  predicate Valid(s: State) {
    && Locked(s.threads, s.holder)
    && Counted(s)
    && s.posted == s.taken + s.queue
    && Accounted(s.taken, s.started, s.threads)
  }

  /** The steps still to be made before the pool is at rest. */
  function Work(s: State): nat { 6 * s.sem + StepsLeft(s.threads) }

  /** A woken worker always finds a task. */
  lemma {:induction false} WokenWorkerFindsATask(s: State, i: nat)
    requires Valid(s) && i < |s.threads| && s.threads[i].pc == TakePop
    ensures s.queue != []
  {
    SumsAtLeast(s.threads, i);
  }

  lemma {:induction false} PushKeepsOrder(posted: seq<Task>, taken: seq<Task>, queue: seq<Task>, task: Task)
    requires posted == taken + queue
    ensures posted + [task] == taken + (queue + [task])
  {
    ConcatAssoc(taken, queue, [task]);
  }

  lemma {:induction false} PopKeepsOrder(posted: seq<Task>, taken: seq<Task>, queue: seq<Task>)
    requires posted == taken + queue && queue != []
    ensures posted == (taken + [queue[0]]) + queue[1..]
    ensures multiset(taken + [queue[0]]) == multiset(taken) + multiset{queue[0]}
  {
  }

  lemma {:induction false} AdvanceKeepsLocked(s: State, i: nat)
    requires Locked(s.threads, s.holder) && i < |s.threads| && Advance(s, i).Some?
    requires s.threads[i].pc == TakePop ==> s.queue != []
    ensures Locked(Advance(s, i).value.threads, Advance(s, i).value.holder)
  {
  }

  lemma {:induction false} AdvanceKeepsCounts(s: State, i: nat)
    requires Counted(s) && s.posted == s.taken + s.queue && i < |s.threads| && Advance(s, i).Some?
    requires s.threads[i].RightPlace()
    ensures var next := Advance(s, i).value;
            Counted(next) && next.posted == next.taken + next.queue && Work(next) == Work(s) - 1
  {
    var next := Advance(s, i).value;
    SumsUpdate(s.threads, i, next.threads[i]);
    SumsAtLeast(s.threads, i);
    match s.threads[i].pc
    case PostPush(task) => PushKeepsOrder(s.posted, s.taken, s.queue, task);
    case TakePop => PopKeepsOrder(s.posted, s.taken, s.queue);
    case _ =>
  }

  lemma {:induction false} Cancel(a: multiset<Task>, b: multiset<Task>, c: multiset<Task>)
    requires a + c == b + c
    ensures a == b
  {
    forall x ensures a[x] == b[x] {
      assert (a + c)[x] == (b + c)[x];
    }
  }

  /** A task changes hands: it comes from the queue, or it is started, or it stays where it is. */
  lemma {:induction false} HandsChange(taken: seq<Task>, started: multiset<Task>, hands: multiset<Task>,
                                       hands': multiset<Task>, left: multiset<Task>, came: multiset<Task>)
    requires multiset(taken) == started + hands && hands' + left == hands + came
    ensures left == came ==> multiset(taken) == started + hands'
    ensures came == multiset{} ==> multiset(taken) == (started + left) + hands'
    ensures left == multiset{} ==> multiset(taken) + came == started + hands'
  {
    if left == came {
      Cancel(hands', hands, left);
    }
    if came == multiset{} {
      assert hands + came == hands;
      assert (started + left) + hands' == started + (hands' + left);
    }
    if left == multiset{} {
      assert hands' + left == hands';
      assert (started + hands) + came == started + (hands + came);
    }
  }

  lemma {:induction false} MoveKeepsAccounts(taken: seq<Task>, started: multiset<Task>, threads: seq<Thread>,
                                             i: nat, t: Thread, left: multiset<Task>, came: multiset<Task>)
    requires Accounted(taken, started, threads) && i < |threads|
    requires left == threads[i].InHand() && came == t.InHand()
    ensures left == came ==> Accounted(taken, started, threads[i := t])
    ensures came == multiset{} ==> Accounted(taken, started + left, threads[i := t])
    ensures left == multiset{} ==> multiset(taken) + came == started + InHands(threads[i := t])
  {
    HandsUpdate(threads, i, t);
    HandsChange(taken, started, InHands(threads), InHands(threads[i := t]), left, came);
  }

  lemma {:induction false} AdvanceKeepsAccounts(s: State, i: nat)
    requires Accounted(s.taken, s.started, s.threads) && i < |s.threads| && Advance(s, i).Some?
    requires s.threads[i].pc == TakePop ==> s.queue != []
    ensures var next := Advance(s, i).value; Accounted(next.taken, next.started, next.threads)
  {
    var t := Advance(s, i).value.threads[i];
    MoveKeepsAccounts(s.taken, s.started, s.threads, i, t, s.threads[i].InHand(), t.InHand());
    if s.threads[i].pc == TakePop {
      assert multiset(s.taken + [s.queue[0]]) == multiset(s.taken) + multiset{s.queue[0]};
    }
  }

  lemma {:induction false} AdvanceKeepsValid(s: State, i: nat)
    requires Valid(s) && i < |s.threads| && Advance(s, i).Some?
    ensures Valid(Advance(s, i).value) && Work(Advance(s, i).value) == Work(s) - 1
  {
    if s.threads[i].pc == TakePop {
      WokenWorkerFindsATask(s, i);
    }
    AdvanceKeepsLocked(s, i);
    AdvanceKeepsCounts(s, i);
    AdvanceKeepsAccounts(s, i);
  }

  lemma {:induction false} CallKeepsSums(threads: seq<Thread>, i: nat, t: Thread)
    requires i < |threads| && t.worker == threads[i].worker && t.pc.PostLock?
    requires threads[i].pc == if t.worker then Running else Idle
    ensures Owed(threads[i := t]) == Owed(threads) && StepsLeft(threads[i := t]) == StepsLeft(threads) + 10
    ensures InHands(threads[i := t]) == InHands(threads)
  {
    SumsUpdate(threads, i, t);
    HandsUpdate(threads, i, t);
    assert threads[i].InHand() == multiset{} && t.InHand() == multiset{};
    Cancel(InHands(threads[i := t]), InHands(threads), multiset{});
  }

  lemma {:induction false} CallKeepsLocked(threads: seq<Thread>, holder: Option<nat>, i: nat, t: Thread)
    requires Locked(threads, holder) && i < |threads| && t.worker == threads[i].worker && t.pc.PostLock?
    requires threads[i].pc == if t.worker then Running else Idle
    ensures Locked(threads[i := t], holder)
  {
  }

  lemma {:induction false} CallKeepsValid(s: State, i: nat, task: Task)
    requires Valid(s) && Next(s, Call(i, task)).Some?
    ensures Valid(Next(s, Call(i, task)).value) && Work(Next(s, Call(i, task)).value) == Work(s) + 10
  {
    assert s.threads[i].RightPlace();
    var t := s.threads[i].(pc := PostLock(task));
    CallKeepsLocked(s.threads, s.holder, i, t);
    CallKeepsSums(s.threads, i, t);
  }

  // ---------------------------------------------------------------- every run

  /** The state after a run, None when an action of it was not possible. */
  function Run(s: State, actions: seq<Action>): Option<State>
    decreases |actions|
  {
    if actions == [] then Some(s)
    else
      match Next(s, actions[0])
      case None => None
      case Some(next) => Run(next, actions[1..])
  }

  function Gone(actions: seq<Action>): nat {
    if actions == [] then 0 else (if actions[0].Go? then 1 else 0) + Gone(actions[1..])
  }

  function Called(actions: seq<Action>): nat {
    if actions == [] then 0 else (if actions[0].Call? then 1 else 0) + Called(actions[1..])
  }

  /** Any interleaving keeps the protocol, and every posted task costs ten steps in all: four to post it, six to
      take and run it. */
  lemma {:induction false} RunKeepsValid(s: State, actions: seq<Action>)
    requires Valid(s) && Run(s, actions).Some?
    ensures Valid(Run(s, actions).value)
    ensures Work(Run(s, actions).value) + Gone(actions) == Work(s) + 10 * Called(actions)
    decreases |actions|
  {
    if actions != [] {
      var a := actions[0];
      match a {
        case Go(i) => AdvanceKeepsValid(s, i);
        case Call(i, task) => CallKeepsValid(s, i, task);
        case Interrupt(_) =>
      }
      RunKeepsValid(Next(s, a).value, actions[1..]);
    }
  }

  lemma {:induction false} StartIsValid(workers: nat, others: nat)
    ensures Valid(Start(workers, others)) && Work(Start(workers, others)) == 0
  {
    var threads := Start(workers, others).threads;
    AllAtRest(threads);
    NothingLeft(threads);
  }

  lemma {:induction false} AllAtRest(threads: seq<Thread>)
    requires forall i :: 0 <= i < |threads| ==> threads[i].Steps() == 0
    ensures StepsLeft(threads) == 0
  {
    if threads != [] {
      AllAtRest(threads[1..]);
    }
  }

  /** At most one thread is inside a critical section. */
  predicate Exclusive(threads: seq<Thread>) {
    forall i, j :: 0 <= i < j < |threads| ==> !(threads[i].HoldsLock() && threads[j].HoldsLock())
  }

  lemma {:induction false} LockedIsExclusive(threads: seq<Thread>, holder: Option<nat>)
    requires Locked(threads, holder)
    ensures Exclusive(threads)
  {
    forall i, j | 0 <= i < j < |threads| ensures !(threads[i].HoldsLock() && threads[j].HoldsLock()) {
      assert threads[i].HoldsLock() ==> holder == Some(i);
      assert threads[j].HoldsLock() ==> holder == Some(j);
    }
  }

  /** A worker that was woken finds a task. */
  predicate WokenFind(threads: seq<Thread>, queue: seq<Task>) {
    forall i :: 0 <= i < |threads| && threads[i].pc == TakePop ==> queue != []
  }

  lemma {:induction false} WokenWorkersFindTasks(s: State)
    requires Valid(s)
    ensures WokenFind(s.threads, s.queue)
  {
    forall i | 0 <= i < |s.threads| && s.threads[i].pc == TakePop ensures s.queue != [] {
      WokenWorkerFindsATask(s, i);
    }
  }

  /** From the start, for any number of workers and posters: at most one thread is inside a critical section,
      tasks are taken in the order they were pushed, each once, and no worker ever wakes up for nothing. */
  lemma {:induction false} PoolIsSafe(workers: nat, others: nat, actions: seq<Action>)
    requires Run(Start(workers, others), actions).Some?
    ensures var s := Run(Start(workers, others), actions).value;
            && s.posted == s.taken + s.queue
            && multiset(s.taken) == s.started + InHands(s.threads)
            && Exclusive(s.threads)
            && WokenFind(s.threads, s.queue)
  {
    StartIsValid(workers, others);
    RunKeepsValid(Start(workers, others), actions);
    var s := Run(Start(workers, others), actions).value;
    LockedIsExclusive(s.threads, s.holder);
    WokenWorkersFindTasks(s);
  }

  // ---------------------------------------------------------------- no lost wakeup

  predicate CanGo(s: State, i: nat) {
    i < |s.threads| && Advance(s, i).Some?
  }

  /** While there is work and a worker, some thread can go on: the pool never deadlocks. */
  lemma {:induction false} SomeThreadCanGo(s: State, worker: nat) returns (i: nat)
    requires Valid(s) && worker < |s.threads| && s.threads[worker].worker && Work(s) > 0
    ensures CanGo(s, i)
  {
    if s.holder.Some? {
      return s.holder.value;
    }
    if StepsLeft(s.threads) == 0 {
      NothingLeft(s.threads);
      return worker;
    }
    i := BusyThread(s.threads);
  }

  lemma {:induction false} BusyThread(threads: seq<Thread>) returns (i: nat)
    requires StepsLeft(threads) > 0
    ensures i < |threads| && threads[i].Steps() > 0
  {
    if threads[0].Steps() > 0 {
      return 0;
    }
    i := BusyThread(threads[1..]);
    i := i + 1;
  }

  predicate AtRest(s: State) {
    forall i :: 0 <= i < |s.threads| ==> !CanGo(s, i)
  }

  /** When no thread can go on any more, every posted task was run, exactly once. So no wakeup is lost: by
      RunKeepsValid this rest is reached after ten steps per posted task, whatever the interleaving. */
  lemma {:induction false} AtRestEveryTaskWasRun(workers: nat, others: nat, actions: seq<Action>)
    requires workers > 0 && Run(Start(workers, others), actions).Some?
    ensures var s := Run(Start(workers, others), actions).value;
            && (AtRest(s) <==> Gone(actions) == 10 * Called(actions))
            && (AtRest(s) ==> s.queue == [] && s.taken == s.posted && s.started == multiset(s.posted))
  {
    var start := Start(workers, others);
    StartIsValid(workers, others);
    RunKeepsValid(start, actions);
    var s := Run(start, actions).value;
    RunKeepsThreads(start, actions);
    if Work(s) > 0 {
      var i := SomeThreadCanGo(s, 0);
    } else {
      NothingLeft(s.threads);
      assert s.posted == s.taken;
    }
  }

  lemma {:induction false} RunKeepsThreads(s: State, actions: seq<Action>)
    requires Run(s, actions).Some?
    ensures |Run(s, actions).value.threads| == |s.threads|
    ensures forall i :: 0 <= i < |s.threads| ==> Run(s, actions).value.threads[i].worker == s.threads[i].worker
    decreases |actions|
  {
    if actions != [] {
      NextKeepsThreads(s, actions[0]);
      RunKeepsThreads(Next(s, actions[0]).value, actions[1..]);
    }
  }

  lemma {:induction false} NextKeepsThreads(s: State, a: Action)
    requires Next(s, a).Some?
    ensures |Next(s, a).value.threads| == |s.threads|
    ensures forall i :: 0 <= i < |s.threads| ==> Next(s, a).value.threads[i].worker == s.threads[i].worker
  {
  }
}

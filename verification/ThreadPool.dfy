/** The thread pool: any number of threads calling PushTask, each with a list of tasks to submit,
    and a fixed set of workers, interleaved statement by statement. */
module ThreadPool {
  import opened Runs
  import opened Counting

  /** ThreadTask: which handler, and its argument. */
  datatype Task = Task(handler: nat, data: int)

  /** Submitter: PushTask for each task in `todo` in turn.
      SLock: take the mutex.  SPush: enqueue.  SUnlock: release.  SSignal: signal, and return. */
  datatype SubmitPc = SLock | SPush | SUnlock | SSignal
  datatype Submitter = Submitter(pc: SubmitPc, todo: seq<Task>)

  /** Worker: the loop of thr_start. Lock also stands for taking the mutex again after a wakeup;
      RunTask ends when the handler returns. `task` is meaningful from Unlock to RunTask. */
  datatype WorkPc = Lock | Check | Waiting | Take | Unlock | RunTask
  datatype Worker = Worker(pc: WorkPc, task: Task)

  datatype Pool = Pool(queue: seq<Task>, locked: bool)
  datatype State = State(pool: Pool, submitters: seq<Submitter>, workers: seq<Worker>)

  datatype Action = Submit(p: nat, wake: nat) | Work(w: nat) | SpuriousWake(w: nat)
  datatype Stage = Submitted | Dispatched | Finished
  datatype Event = Event(stage: Stage, task: Task)

  const NO_TASK: Task := Task(0, 0)

  function PushTaskStatement(q: Pool, me: Submitter): Option<(Pool, Submitter)> {
    match me.pc
    case SLock =>
      if |me.todo| == 0 || q.locked then None else Some((q.(locked := true), me.(pc := SPush)))
    case SPush =>
      if |me.todo| == 0 then None
      else Some((q.(queue := q.queue + [me.todo[0]]), Submitter(SUnlock, me.todo[1..])))
    case SUnlock => Some((q.(locked := false), me.(pc := SSignal)))
    case SSignal => Some((q, me.(pc := SLock)))
  }

  function WorkerStatement(q: Pool, me: Worker): Option<(Pool, Worker)> {
    match me.pc
    case Lock => if q.locked then None else Some((q.(locked := true), me.(pc := Check)))
    case Check =>
      if |q.queue| == 0 then Some((q.(locked := false), me.(pc := Waiting))) else Some((q, me.(pc := Take)))
    case Waiting => None
    case Take =>
      if |q.queue| == 0 then None else Some((q.(queue := q.queue[1..]), Worker(Unlock, q.queue[0])))
    case Unlock => Some((q.(locked := false), me.(pc := RunTask)))
    case RunTask => Some((q, me.(pc := Lock)))
  }

  /** The pool object, one method per call that executes the calling thread's next statement. */
  class ThreadPool {
    var queue: seq<Task>
    var locked: bool

    function Fields(): Pool
      reads this
    {
      Pool(queue, locked)
    }

    constructor ()
      ensures Fields() == Pool([], false)
    {
      queue, locked := [], false;
    }

    method PushTaskStep(me: Submitter) returns (blocked: bool, next: Submitter)
      requires me.pc.SPush? ==> me.todo != []
      modifies this
      ensures blocked <==> PushTaskStatement(old(Fields()), me) == None
      ensures blocked ==> Fields() == old(Fields()) && next == me
      ensures !blocked ==> PushTaskStatement(old(Fields()), me) == Some((Fields(), next))
    {
      blocked, next := false, me;
      match me.pc {
        case SLock =>
          if me.todo == [] || locked { return true, me; }
          locked := true;
          next := me.(pc := SPush);
        case SPush =>
          queue := queue + [me.todo[0]];
          next := Submitter(SUnlock, me.todo[1..]);
        case SUnlock =>
          locked := false;
          next := me.(pc := SSignal);
        case SSignal =>
          next := me.(pc := SLock);
      }
    }

    method WorkerStep(me: Worker) returns (blocked: bool, next: Worker)
      requires me.pc.Take? ==> queue != []
      modifies this
      ensures blocked <==> WorkerStatement(old(Fields()), me) == None
      ensures blocked ==> Fields() == old(Fields()) && next == me
      ensures !blocked ==> WorkerStatement(old(Fields()), me) == Some((Fields(), next))
    {
      blocked, next := false, me;
      match me.pc {
        case Lock =>
          if locked { return true, me; }
          locked := true;
          next := me.(pc := Check);
        case Check =>
          if |queue| == 0 {
            locked := false;
            next := me.(pc := Waiting);
          } else {
            next := me.(pc := Take);
          }
        case Waiting =>
          blocked := true;
        case Take =>
          next := Worker(Unlock, queue[0]);
          queue := queue[1..];
        case Unlock =>
          locked := false;
          next := me.(pc := RunTask);
        case RunTask =>
          next := me.(pc := Lock);
      }
    }
  }

  /* ---------- the whole program ---------- */

  /** `jobs[p]` is what submitter `p` is going to submit, in order. */
  function Init(jobs: seq<seq<Task>>, workers: nat): State {
    State(Pool([], false), seq(|jobs|, p requires 0 <= p < |jobs| => Submitter(SLock, jobs[p])),
          seq(workers, _ => Worker(Lock, NO_TASK)))
  }

  predicate AnyWaiting(ws: seq<Worker>) {
    exists i :: 0 <= i < |ws| && ws[i].pc.Waiting?
  }

  function WakeOne(ws: seq<Worker>, wake: nat): Option<seq<Worker>> {
    if !AnyWaiting(ws) then Some(ws)
    else if wake < |ws| && ws[wake].pc.Waiting? then Some(ws[wake := ws[wake].(pc := Lock)])
    else None
  }

  function Step(s: State, a: Action): Option<State> {
    match a
    case Submit(p, wake) =>
      if p >= |s.submitters| then None
      else (match PushTaskStatement(s.pool, s.submitters[p])
            case None => None
            case Some((q, t)) =>
              if s.submitters[p].pc.SSignal? then
                (match WakeOne(s.workers, wake)
                 case None => None
                 case Some(ws) => Some(State(q, s.submitters[p := t], ws)))
              else Some(State(q, s.submitters[p := t], s.workers)))
    case Work(w) =>
      if w >= |s.workers| then None
      else (match WorkerStatement(s.pool, s.workers[w])
            case None => None
            case Some((q, t)) => Some(State(q, s.submitters, s.workers[w := t])))
    case SpuriousWake(w) =>
      if w < |s.workers| && s.workers[w].pc.Waiting?
      then Some(s.(workers := s.workers[w := s.workers[w].(pc := Lock)])) else None
  }

  function Emit(s: State, a: Action): seq<Event> {
    match a
    case Submit(p, _) =>
      if p < |s.submitters| && s.submitters[p].pc.SPush? && |s.submitters[p].todo| > 0
      then [Event(Submitted, s.submitters[p].todo[0])] else []
    case Work(w) =>
      if w >= |s.workers| then []
      else if s.workers[w].pc.Take? && |s.pool.queue| > 0 then [Event(Dispatched, s.pool.queue[0])]
      else if s.workers[w].pc.RunTask? then [Event(Finished, s.workers[w].task)]
      else []
    case SpuriousWake(_) => []
  }

  /** The tasks that reach `stage` in a trace, in order. */
  function Tasks(trace: seq<Event>, stage: Stage): seq<Task> {
    if |trace| == 0 then []
    else if trace[0].stage == stage then [trace[0].task] + Tasks(trace[1..], stage)
    else Tasks(trace[1..], stage)
  }

  /* ---------- where the tasks are ---------- */

  function Holding(w: Worker): multiset<Task> {
    if w.pc.Unlock? || w.pc.RunTask? then multiset{w.task} else multiset{}
  }

  function Held(ws: seq<Worker>): multiset<Task> {
    if |ws| == 0 then multiset{} else Holding(ws[0]) + Held(ws[1..])
  }

  function Unsubmitted(ts: seq<Submitter>): multiset<Task> {
    if |ts| == 0 then multiset{} else multiset(ts[0].todo) + Unsubmitted(ts[1..])
  }

  function AllJobs(jobs: seq<seq<Task>>): multiset<Task> {
    if |jobs| == 0 then multiset{} else multiset(jobs[0]) + AllJobs(jobs[1..])
  }

  /** Every task not yet finished, wherever it is. */
  function Unfinished(s: State): multiset<Task> {
    Unsubmitted(s.submitters) + multiset(s.pool.queue) + Held(s.workers)
  }

  lemma {:induction false} HeldUpdate(ws: seq<Worker>, i: nat, w: Worker)
    requires i < |ws|
    ensures Held(ws[i := w]) + Holding(ws[i]) == Held(ws) + Holding(w)
  {
    if i == 0 {
      assert ws[i := w][1..] == ws[1..];
      Swap(Holding(ws[0]), Held(ws[1..]), Holding(w));
    } else {
      assert ws[i := w][1..] == ws[1..][i - 1 := w];
      HeldUpdate(ws[1..], i - 1, w);
      Behind(Holding(ws[0]), Held(ws[1..][i - 1 := w]), Holding(ws[i]), Held(ws[1..]), Holding(w));
    }
  }

  lemma {:induction false} UnsubmittedUpdate(ts: seq<Submitter>, i: nat, t: Submitter)
    requires i < |ts|
    ensures Unsubmitted(ts[i := t]) + multiset(ts[i].todo) == Unsubmitted(ts) + multiset(t.todo)
  {
    if i == 0 {
      assert ts[i := t][1..] == ts[1..];
      Swap(multiset(ts[0].todo), Unsubmitted(ts[1..]), multiset(t.todo));
    } else {
      assert ts[i := t][1..] == ts[1..][i - 1 := t];
      UnsubmittedUpdate(ts[1..], i - 1, t);
      Behind(multiset(ts[0].todo), Unsubmitted(ts[1..][i - 1 := t]), multiset(ts[i].todo), Unsubmitted(ts[1..]), multiset(t.todo));
    }
  }

  lemma Swap(a: multiset<Task>, b: multiset<Task>, c: multiset<Task>)
    ensures (c + b) + a == (a + b) + c
  {
  }

  lemma Behind(a: multiset<Task>, b: multiset<Task>, c: multiset<Task>, d: multiset<Task>, e: multiset<Task>)
    requires b + c == d + e
    ensures (a + b) + c == (a + d) + e
  {
    assert (a + b) + c == a + (b + c);
    assert (a + d) + e == a + (d + e);
  }

  lemma Cancel(a: multiset<Task>, b: multiset<Task>, c: multiset<Task>)
    requires a + c == b + c
    ensures a == b
  {
    assert a == (a + c) - c;
    assert b == (b + c) - c;
  }

  /** A wakeup moves no task. */
  lemma WakeHolds(ws: seq<Worker>, i: nat)
    requires i < |ws| && ws[i].pc.Waiting?
    ensures Held(ws[i := ws[i].(pc := Lock)]) == Held(ws)
  {
    HeldUpdate(ws, i, ws[i].(pc := Lock));
    Cancel(Held(ws[i := ws[i].(pc := Lock)]), Held(ws), multiset{});
  }

  lemma Enqueued(u: multiset<Task>, u': multiset<Task>, q: seq<Task>, todo: seq<Task>)
    requires todo != [] && u' + multiset(todo) == u + multiset(todo[1..])
    ensures u + multiset(q) == u' + multiset(q + [todo[0]])
  {
    assert todo == [todo[0]] + todo[1..];
    assert u' + (multiset{todo[0]} + multiset(todo[1..])) == (u' + multiset{todo[0]}) + multiset(todo[1..]);
    Cancel(u' + multiset{todo[0]}, u, multiset(todo[1..]));
  }

  /** A submission takes the task from the submitter to the back of the queue. */
  lemma SubmitConserves(s: State, p: nat, wake: nat)
    requires Step(s, Submit(p, wake)).Some?
    ensures Unfinished(s) == Unfinished(Step(s, Submit(p, wake)).value)
  {
    var s' := Step(s, Submit(p, wake)).value;
    var me := s.submitters[p];
    UnsubmittedUpdate(s.submitters, p, s'.submitters[p]);
    if me.pc.SPush? {
      Enqueued(Unsubmitted(s.submitters), Unsubmitted(s'.submitters), s.pool.queue, me.todo);
    } else {
      Cancel(Unsubmitted(s'.submitters), Unsubmitted(s.submitters), multiset(me.todo));
      if me.pc.SSignal? && AnyWaiting(s.workers) {
        WakeHolds(s.workers, wake);
      }
    }
  }

  /** What a worker's step changes, without the bookkeeping. */
  lemma WorkMoves(s: State, w: nat)
    requires Step(s, Work(w)).Some?
    ensures var s' := Step(s, Work(w)).value;
            && w < |s.workers| && s' == State(s'.pool, s.submitters, s.workers[w := s'.workers[w]])
            && (if s.workers[w].pc.Take?
                then s.pool.queue == [s'.workers[w].task] + s'.pool.queue && s'.workers[w].pc.Unlock?
                else s'.pool.queue == s.pool.queue)
            && (s.workers[w].pc.RunTask? ==> s'.workers[w].pc.Lock?)
            && (s.workers[w].pc.Unlock? ==> s'.workers[w] == s.workers[w].(pc := RunTask))
            && (!s.workers[w].pc.Take? && !s.workers[w].pc.Unlock? ==> !s'.workers[w].pc.Unlock? && !s'.workers[w].pc.RunTask?)
  {
  }

  lemma Taken(u: multiset<Task>, t: Task, q: seq<Task>, h: multiset<Task>, h': multiset<Task>)
    requires h' + multiset{} == h + multiset{t}
    ensures u + multiset([t] + q) + h == u + multiset(q) + h'
  {
    assert multiset([t] + q) == multiset{t} + multiset(q);
    assert h' == h + multiset{t};
    assert u + multiset([t] + q) + h == u + multiset(q) + (h + multiset{t});
  }

  lemma Given(u: multiset<Task>, h: multiset<Task>, h': multiset<Task>, t: multiset<Task>)
    requires h' + t == h + multiset{}
    ensures u + h == u + h' + t
  {
    assert h == h' + t;
  }

  lemma TakeConserves(s: State, w: nat)
    requires Step(s, Work(w)).Some? && s.workers[w].pc.Take?
    ensures Unfinished(s) == Unfinished(Step(s, Work(w)).value)
  {
    WorkMoves(s, w);
    var s' := Step(s, Work(w)).value;
    HeldUpdate(s.workers, w, s'.workers[w]);
    Taken(Unsubmitted(s.submitters), s'.workers[w].task, s'.pool.queue, Held(s.workers), Held(s'.workers));
  }

  lemma FinishConserves(s: State, w: nat)
    requires Step(s, Work(w)).Some? && s.workers[w].pc.RunTask?
    ensures Unfinished(s) == Unfinished(Step(s, Work(w)).value) + multiset{s.workers[w].task}
  {
    WorkMoves(s, w);
    var s' := Step(s, Work(w)).value;
    HeldUpdate(s.workers, w, s'.workers[w]);
    Given(Unsubmitted(s.submitters) + multiset(s.pool.queue), Held(s.workers), Held(s'.workers), multiset{s.workers[w].task});
  }

  lemma OtherConserves(s: State, w: nat)
    requires Step(s, Work(w)).Some? && !s.workers[w].pc.Take? && !s.workers[w].pc.RunTask?
    ensures Unfinished(s) == Unfinished(Step(s, Work(w)).value)
  {
    WorkMoves(s, w);
    var s' := Step(s, Work(w)).value;
    HeldUpdate(s.workers, w, s'.workers[w]);
    Cancel(Held(s'.workers), Held(s.workers), Holding(s.workers[w]));
  }

  lemma FinishedBy(s: State, a: Action)
    requires Step(s, a).Some?
    ensures Tasks(Emit(s, a), Finished) == if a.Work? && s.workers[a.w].pc.RunTask? then [s.workers[a.w].task] else []
  {
    if |Emit(s, a)| > 0 {
      assert Emit(s, a)[1..] == [];
    }
  }

  /** Only a handler's return takes a task out of the account. */
  lemma OneStepConserves(s: State, a: Action)
    requires Step(s, a).Some?
    ensures Unfinished(s) == Unfinished(Step(s, a).value)
                             + if a.Work? && s.workers[a.w].pc.RunTask? then multiset{s.workers[a.w].task} else multiset{}
  {
    match a {
      case Submit(p, wake) => SubmitConserves(s, p, wake);
      case SpuriousWake(w) => WakeHolds(s.workers, w);
      case Work(w) =>
        if s.workers[w].pc.Take? {
          TakeConserves(s, w);
        } else if s.workers[w].pc.RunTask? {
          FinishConserves(s, w);
        } else {
          OtherConserves(s, w);
        }
    }
  }

  /** One step moves a task from one place to the next, or finishes it; none appears or disappears. */
  lemma StepConserves(s: State, a: Action)
    requires Step(s, a).Some?
    ensures Unfinished(s) == Unfinished(Step(s, a).value) + multiset(Tasks(Emit(s, a), Finished))
  {
    FinishedBy(s, a);
    OneStepConserves(s, a);
  }

  lemma {:induction false} TasksConcat(t1: seq<Event>, t2: seq<Event>, stage: Stage)
    ensures Tasks(t1 + t2, stage) == Tasks(t1, stage) + Tasks(t2, stage)
  {
    if |t1| == 0 {
      assert t1 + t2 == t2;
    } else {
      assert (t1 + t2)[1..] == t1[1..] + t2;
      TasksConcat(t1[1..], t2, stage);
    }
  }

  lemma {:induction false} RunConserves(s: State, acts: seq<Action>, s': State)
    requires Run(Step, s, acts) == Some(s')
    ensures Unfinished(s) == Unfinished(s') + multiset(Tasks(Trace(Step, Emit, s, acts), Finished))
    decreases |acts|
  {
    if |acts| > 0 {
      var s1 := Step(s, acts[0]).value;
      StepConserves(s, acts[0]);
      RunConserves(s1, acts[1..], s');
      TasksConcat(Emit(s, acts[0]), Trace(Step, Emit, s1, acts[1..]), Finished);
    }
  }

  lemma {:induction false} InitUnfinished(jobs: seq<seq<Task>>, workers: nat)
    ensures Unfinished(Init(jobs, workers)) == AllJobs(jobs)
  {
    var s := Init(jobs, workers);
    NobodyHolds(s.workers);
    JobsUnsubmitted(jobs, s.submitters);
  }

  lemma {:induction false} NobodyHolds(ws: seq<Worker>)
    requires forall i :: 0 <= i < |ws| ==> Holding(ws[i]) == multiset{}
    ensures Held(ws) == multiset{}
  {
    if |ws| > 0 {
      NobodyHolds(ws[1..]);
    }
  }

  lemma {:induction false} JobsUnsubmitted(jobs: seq<seq<Task>>, ts: seq<Submitter>)
    requires |ts| == |jobs| && forall i :: 0 <= i < |ts| ==> ts[i].todo == jobs[i]
    ensures Unsubmitted(ts) == AllJobs(jobs)
  {
    if |jobs| > 0 {
      JobsUnsubmitted(jobs[1..], ts[1..]);
    }
  }

  /* ---------- locking and waking ---------- */

  predicate SubmitterInLock(t: Submitter) { t.pc.SPush? || t.pc.SUnlock? }
  predicate WorkerInLock(w: Worker) { w.pc.Check? || w.pc.Take? || w.pc.Unlock? }
  predicate Announcing(t: Submitter) { t.pc.SUnlock? || t.pc.SSignal? }
  predicate Awake(w: Worker) { !w.pc.Waiting? }

  ghost predicate Inv(s: State) {
    && Count(s.submitters, SubmitterInLock) + Count(s.workers, WorkerInLock) == (if s.pool.locked then 1 else 0)
    && (forall p :: 0 <= p < |s.submitters| && s.submitters[p].pc.SPush? ==> s.submitters[p].todo != [])
    && (forall w :: 0 <= w < |s.workers| && s.workers[w].pc.Take? ==> s.pool.queue != [])
    && (AnyWaiting(s.workers) ==> |s.pool.queue| <= Count(s.submitters, Announcing) + Count(s.workers, Awake))
  }

  lemma LockIsExclusive(s: State)
    requires Inv(s)
    ensures forall w, w' :: 0 <= w < w' < |s.workers| && WorkerInLock(s.workers[w]) ==> !WorkerInLock(s.workers[w'])
  {
    forall w | 0 <= w < |s.workers| && WorkerInLock(s.workers[w])
      ensures forall w' :: 0 <= w' < |s.workers| && w' != w ==> !WorkerInLock(s.workers[w'])
    {
      CountMember(s.workers, WorkerInLock, w);
    }
  }

  lemma WorkerMoves(ws: seq<Worker>, i: nat, w: Worker)
    requires i < |ws|
    ensures Count(ws[i := w], WorkerInLock) == Count(ws, WorkerInLock) - (if WorkerInLock(ws[i]) then 1 else 0) + (if WorkerInLock(w) then 1 else 0)
    ensures Count(ws[i := w], Awake) == Count(ws, Awake) - (if Awake(ws[i]) then 1 else 0) + (if Awake(w) then 1 else 0)
    ensures AnyWaiting(ws[i := w]) ==> AnyWaiting(ws) || w.pc.Waiting?
  {
    CountUpdate(ws, WorkerInLock, i, w);
    CountUpdate(ws, Awake, i, w);
  }

  lemma SubmitKeeps(s: State, p: nat, wake: nat)
    requires Inv(s) && Step(s, Submit(p, wake)).Some?
    ensures Inv(Step(s, Submit(p, wake)).value)
  {
    var s' := Step(s, Submit(p, wake)).value;
    CountUpdate(s.submitters, SubmitterInLock, p, s'.submitters[p]);
    CountUpdate(s.submitters, Announcing, p, s'.submitters[p]);
    if s.submitters[p].pc.SSignal? && AnyWaiting(s.workers) {
      WorkerMoves(s.workers, wake, s'.workers[wake]);
    }
  }

  lemma WorkKeeps(s: State, w: nat)
    requires Inv(s) && Step(s, Work(w)).Some?
    ensures Inv(Step(s, Work(w)).value)
  {
    WorkerMoves(s.workers, w, Step(s, Work(w)).value.workers[w]);
    LockIsExclusive(s);
  }

  lemma StepKeeps(s: State, a: Action)
    requires Inv(s) && Step(s, a).Some?
    ensures Inv(Step(s, a).value)
  {
    match a {
      case Submit(p, wake) => SubmitKeeps(s, p, wake);
      case Work(w) => WorkKeeps(s, w);
      case SpuriousWake(w) => WorkerMoves(s.workers, w, Step(s, a).value.workers[w]);
    }
  }

  lemma InitHolds(jobs: seq<seq<Task>>, workers: nat)
    ensures Inv(Init(jobs, workers))
  {
    var s := Init(jobs, workers);
    CountBounds(s.submitters, SubmitterInLock);
    CountBounds(s.workers, WorkerInLock);
  }

  lemma StepsKeep()
    ensures Inductive(Step, Inv)
  {
    forall s: State, a: Action | Inv(s) && Step(s, a).Some? ensures Inv(Step(s, a).value) {
      StepKeeps(s, a);
    }
  }

  /* ---------- the main results ---------- */

  /** At every moment each job is in exactly one place, counted with multiplicity: still to be
      submitted, queued, held by one worker, or finished. */
  lemma TaskAccounting(jobs: seq<seq<Task>>, workers: nat, acts: seq<Action>)
    requires Run(Step, Init(jobs, workers), acts).Some?
    ensures
      var init := Init(jobs, workers);
      var s := Run(Step, init, acts).value;
      AllJobs(jobs) == Unsubmitted(s.submitters) + multiset(s.pool.queue) + Held(s.workers)
                       + multiset(Tasks(Trace(Step, Emit, init, acts), Finished))
  {
    var init := Init(jobs, workers);
    InitUnfinished(jobs, workers);
    RunConserves(init, acts, Run(Step, init, acts).value);
  }

  lemma {:induction false} HeldTwice(ws: seq<Worker>, i: nat, j: nat, t: Task)
    requires i < j < |ws| && Holding(ws[i]) == Holding(ws[j]) == multiset{t}
    ensures Held(ws)[t] >= 2
  {
    if i == 0 {
      HeldOnce(ws[1..], j - 1, t);
    } else {
      HeldTwice(ws[1..], i - 1, j - 1, t);
    }
  }

  lemma {:induction false} HeldOnce(ws: seq<Worker>, j: nat, t: Task)
    requires j < |ws| && Holding(ws[j]) == multiset{t}
    ensures Held(ws)[t] >= 1
  {
    if j > 0 {
      HeldOnce(ws[1..], j - 1, t);
    }
  }

  /** A task that is on the lists once is never in the hands of two workers, nor run a second time. */
  lemma NeverTwice(jobs: seq<seq<Task>>, workers: nat, acts: seq<Action>, t: Task)
    requires Run(Step, Init(jobs, workers), acts).Some? && AllJobs(jobs)[t] == 1
    ensures
      var init := Init(jobs, workers);
      var s := Run(Step, init, acts).value;
      var finished := Tasks(Trace(Step, Emit, init, acts), Finished);
      && (forall i, j :: 0 <= i < j < |s.workers| && Holding(s.workers[i]) == multiset{t} ==> Holding(s.workers[j]) != multiset{t})
      && (forall i :: 0 <= i < |s.workers| && Holding(s.workers[i]) == multiset{t} ==> t !in s.pool.queue && t !in finished)
      && multiset(finished)[t] <= 1
  {
    var s := Run(Step, Init(jobs, workers), acts).value;
    TaskAccounting(jobs, workers, acts);
    forall i | 0 <= i < |s.workers| && Holding(s.workers[i]) == multiset{t}
      ensures Held(s.workers)[t] >= 1
      ensures forall j :: i < j < |s.workers| ==> Holding(s.workers[j]) != multiset{t}
    {
      HeldOnce(s.workers, i, t);
      forall j | i < j < |s.workers| ensures Holding(s.workers[j]) != multiset{t} {
        if Holding(s.workers[j]) == multiset{t} {
          HeldTwice(s.workers, i, j, t);
        }
      }
    }
  }

  /** Tasks are handed to workers in the order they were submitted. */
  lemma {:induction false} DispatchOrder(s: State, acts: seq<Action>, s': State)
    requires Run(Step, s, acts) == Some(s')
    ensures s.pool.queue + Tasks(Trace(Step, Emit, s, acts), Submitted)
         == Tasks(Trace(Step, Emit, s, acts), Dispatched) + s'.pool.queue
    decreases |acts|
  {
    if |acts| > 0 {
      var s1, e := Step(s, acts[0]).value, Emit(s, acts[0]);
      DispatchOrder(s1, acts[1..], s');
      var rest := Trace(Step, Emit, s1, acts[1..]);
      TasksConcat(e, rest, Submitted);
      TasksConcat(e, rest, Dispatched);
      DispatchStep(s, acts[0]);
      Splice(s.pool.queue, Tasks(e, Submitted), Tasks(e, Dispatched), s1.pool.queue,
             Tasks(rest, Submitted), Tasks(rest, Dispatched), s'.pool.queue);
    }
  }

  lemma DispatchStep(s: State, a: Action)
    requires Step(s, a).Some?
    ensures s.pool.queue + Tasks(Emit(s, a), Submitted) == Tasks(Emit(s, a), Dispatched) + Step(s, a).value.pool.queue
  {
    if |Emit(s, a)| > 0 {
      assert Emit(s, a)[1..] == [];
    }
  }

  /** A step some thread takes by itself, not a spurious wakeup. */
  ghost predicate CanMove(s: State) {
    exists a: Action :: !a.SpuriousWake? && Step(s, a).Some?
  }

  lemma LockHolderMoves(s: State)
    requires Inv(s) && s.pool.locked
    ensures CanMove(s)
  {
    if Count(s.submitters, SubmitterInLock) > 0 {
      var p := CountWitness(s.submitters, SubmitterInLock);
      assert Step(s, Submit(p, 0)).Some?;
    } else {
      var w := CountWitness(s.workers, WorkerInLock);
      assert Step(s, Work(w)).Some?;
    }
  }

  lemma IdleSubmitter(s: State, p: nat)
    requires Inv(s) && !CanMove(s) && p < |s.submitters|
    ensures s.submitters[p].pc.SLock? && s.submitters[p].todo == []
  {
    if s.pool.locked {
      LockHolderMoves(s);
    }
    CountBounds(s.submitters, SubmitterInLock);
    var wake := if AnyWaiting(s.workers) then var i :| 0 <= i < |s.workers| && s.workers[i].pc.Waiting?; i else 0;
    assert Step(s, Submit(p, wake)) == None;
  }

  lemma IdleWorker(s: State, w: nat)
    requires Inv(s) && !CanMove(s) && w < |s.workers|
    ensures s.workers[w].pc.Waiting?
  {
    if s.pool.locked {
      LockHolderMoves(s);
    }
    CountBounds(s.workers, WorkerInLock);
    assert Step(s, Work(w)) == None;
  }

  lemma {:induction false} NothingLeft(ts: seq<Submitter>)
    requires forall i :: 0 <= i < |ts| ==> ts[i].todo == []
    ensures Unsubmitted(ts) == multiset{}
  {
    if |ts| > 0 {
      NothingLeft(ts[1..]);
    }
  }

  /** No task is stranded: when no thread can move (short of a spurious wakeup) and there is a
      worker, the queue is empty and exactly the jobs have been run, each as often as it was given. */
  lemma NothingStranded(jobs: seq<seq<Task>>, workers: nat, acts: seq<Action>)
    requires workers >= 1
    requires Run(Step, Init(jobs, workers), acts).Some?
    requires !CanMove(Run(Step, Init(jobs, workers), acts).value)
    ensures Run(Step, Init(jobs, workers), acts).value.pool.queue == []
    ensures multiset(Tasks(Trace(Step, Emit, Init(jobs, workers), acts), Finished)) == AllJobs(jobs)
  {
    var init := Init(jobs, workers);
    var s := Run(Step, init, acts).value;
    InitHolds(jobs, workers);
    StepsKeep();
    RunKeeps(Step, Inv, init, acts);
    WorkersStay(init, acts);
    forall p | 0 <= p < |s.submitters| ensures s.submitters[p].pc.SLock? && s.submitters[p].todo == [] {
      IdleSubmitter(s, p);
    }
    forall w | 0 <= w < |s.workers| ensures s.workers[w].pc.Waiting? {
      IdleWorker(s, w);
    }
    CountBounds(s.submitters, Announcing);
    CountBounds(s.workers, Awake);
    assert s.workers[0].pc.Waiting?;
    NothingLeft(s.submitters);
    NobodyHolds(s.workers);
    TaskAccounting(jobs, workers, acts);
  }

  lemma {:induction false} WorkersStay(s: State, acts: seq<Action>)
    requires Run(Step, s, acts).Some?
    ensures |Run(Step, s, acts).value.workers| == |s.workers|
    decreases |acts|
  {
    if |acts| > 0 {
      WorkersStay(Step(s, acts[0]).value, acts[1..]);
    }
  }

  /* ---------- every run ends ---------- */

  function SubmitterCost(t: Submitter): nat {
    20 * |t.todo| + (match t.pc case SLock => 3 case SPush => 2 case SUnlock => 10 case SSignal => 9)
  }

  function WorkerCost(w: Worker): nat {
    match w.pc case Lock => 2 case Check => 1 case Waiting => 0 case Take => 0 case Unlock => 4 case RunTask => 3
  }

  /** An upper bound on the steps still to come if nobody wakes spuriously. */
  function Cost(s: State): nat {
    Sum(s.submitters, SubmitterCost) + 6 * |s.pool.queue| + Sum(s.workers, WorkerCost)
  }

  predicate IsSpurious(a: Action) { a.SpuriousWake? }

  lemma SubmitCosts(s: State, p: nat, wake: nat)
    requires Step(s, Submit(p, wake)).Some?
    ensures Cost(Step(s, Submit(p, wake)).value) < Cost(s)
  {
    var s' := Step(s, Submit(p, wake)).value;
    SumUpdate(s.submitters, SubmitterCost, p, s'.submitters[p]);
    if s.submitters[p].pc.SSignal? && AnyWaiting(s.workers) {
      SumUpdate(s.workers, WorkerCost, wake, s'.workers[wake]);
    }
  }

  lemma WorkCosts(s: State, w: nat)
    requires Step(s, Work(w)).Some?
    ensures Cost(Step(s, Work(w)).value) < Cost(s)
  {
    SumUpdate(s.workers, WorkerCost, w, Step(s, Work(w)).value.workers[w]);
  }

  lemma StepCosts(s: State, a: Action)
    requires Step(s, a).Some?
    ensures Cost(Step(s, a).value) < Cost(s) + (if IsSpurious(a) then 3 else 0)
  {
    match a {
      case Submit(p, wake) => SubmitCosts(s, p, wake);
      case Work(w) => WorkCosts(s, w);
      case SpuriousWake(w) => SumUpdate(s.workers, WorkerCost, w, Step(s, a).value.workers[w]);
    }
  }

  /** A run has at most Cost(initial state) steps plus three for every spurious wakeup in it; with
      NothingStranded, every run that is continued for as long as a thread can move executes every job exactly once. */
  lemma RunsAreBounded(jobs: seq<seq<Task>>, workers: nat, acts: seq<Action>)
    requires Run(Step, Init(jobs, workers), acts).Some?
    ensures |acts| <= Cost(Init(jobs, workers)) + 3 * HowMany(IsSpurious, acts)
  {
    InitHolds(jobs, workers);
    StepsKeep();
    forall s: State, a: Action | Inv(s) && Step(s, a).Some?
      ensures Cost(Step(s, a).value) < Cost(s) + (if IsSpurious(a) then 3 else 0)
    {
      StepCosts(s, a);
    }
    RunBounded(Step, Inv, Cost, IsSpurious, 2, Init(jobs, workers), acts);
  }
}

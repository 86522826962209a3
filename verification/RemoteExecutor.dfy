/** The remote command executor: submitters, one worker and any number of Stop calls, interleaved under the mutex. */
module RemoteExecutor {
  import opened Results

  const CAPACITY := 32

  /** A job is known by its submission number; its promise is answered once. */
  datatype Job = Job(id: nat, command: string)

  datatype Reply = Executed(result: string) | Failed | Canceled

  datatype Answer = Answer(job: Job, reply: Reply)

  datatype Worker = Waiting | Running(job: Job) | Exited

  /** Where a Stop call is: it holds the stop mutex from Locked to Returned. */
  datatype Phase = Locked | Flagged | Joined | Returned

  datatype State = State(queue: seq<Job>, stopping: bool, worker: Worker, holder: Option<nat>,
                         stops: map<nat, Phase>, accepted: seq<Job>, answered: seq<Answer>)

  const INITIAL := State([], false, Waiting, None, map[], [], [])

  /** One atomic step of one thread. */
  datatype Event =
    | Submit(command: string)
    | Take
    | Finish(reply: Reply)
    | Drain
    | Lock(caller: nat)
    | Raise(caller: nat)
    | Join(caller: nat)
    | Unlock(caller: nat)

  predicate Accepts(s: State) { !s.stopping && |s.queue| < CAPACITY }

  /** The code a submission is refused with at once. */
  function Refusal(s: State): int
    requires !Accepts(s)
  {
    if s.stopping then ECANCELED else EAGAIN
  }

  function Cancel(jobs: seq<Job>): (answers: seq<Answer>)
    ensures |answers| == |jobs|
  {
    seq(|jobs|, i requires 0 <= i < |jobs| => Answer(jobs[i], Canceled))
  }

  predicate Enabled(s: State, e: Event) {
    match e
    case Submit(_) => true
    case Take => s.worker == Waiting && !s.stopping && s.queue != []
    case Finish(reply) => s.worker.Running? && reply != Canceled
    case Drain => s.worker == Waiting && s.stopping
    case Lock(c) => s.holder == None && c !in s.stops
    case Raise(c) => s.holder == Some(c) && c in s.stops && s.stops[c] == Locked
    case Join(c) => s.holder == Some(c) && c in s.stops && s.stops[c] == Flagged && s.worker == Exited
    case Unlock(c) => s.holder == Some(c) && c in s.stops && s.stops[c] == Joined
  }

  function Next(s: State, e: Event): State
    requires Enabled(s, e)
  {
    match e
    case Submit(command) =>
      if Accepts(s) then
        var job := Job(|s.accepted|, command);
        s.(queue := s.queue + [job], accepted := s.accepted + [job])
      else s
    case Take => s.(worker := Running(s.queue[0]), queue := s.queue[1..])
    case Finish(reply) => s.(worker := Waiting, answered := s.answered + [Answer(s.worker.job, reply)])
    case Drain => s.(worker := Exited, queue := [], answered := s.answered + Cancel(s.queue))
    case Lock(c) => s.(holder := Some(c), stops := s.stops[c := Locked])
    case Raise(c) => s.(stopping := true, stops := s.stops[c := Flagged])
    case Join(c) => s.(stops := s.stops[c := Joined])
    case Unlock(c) => s.(holder := None, stops := s.stops[c := Returned])
  }

  // ---- The object ----

  class Executor {
    var queue: seq<Job>
    var stopping: bool
    var worker: Worker
    var holder: Option<nat>
    var stops: map<nat, Phase>
    ghost var accepted: seq<Job>
    ghost var answered: seq<Answer>
    var submitted: nat

    ghost function Abs(): State
      reads this
    {
      State(queue, stopping, worker, holder, stops, accepted, answered)
    }

    ghost predicate Valid()
      reads this
    {
      Inv(Abs()) && submitted == |accepted|
    }

    constructor ()
      ensures Valid() && Abs() == INITIAL
    {
      queue, stopping, worker, holder, stops := [], false, Waiting, None, map[];
      accepted, answered, submitted := [], [], 0;
    }

    method Submit(command: string) returns (refused: Option<int>)
      requires Valid()
      modifies this
      ensures Valid() && Abs() == Next(old(Abs()), Event.Submit(command))
      ensures refused == if old(stopping) then Some(-125) else if |old(queue)| >= 32 then Some(-11) else None
      ensures refused.Some? ==> unchanged(this)
      ensures refused.None? ==>
                && accepted == old(accepted) + [Job(old(|accepted|), command)]
                && queue == old(queue) + [Job(old(|accepted|), command)]
                && answered == old(answered) && worker == old(worker) && stopping == old(stopping)
    {
      if stopping { return Some(ECANCELED); }
      if |queue| >= CAPACITY { return Some(EAGAIN); }
      var job := Job(submitted, command);
      queue := queue + [job];
      submitted := submitted + 1;
      accepted := accepted + [job];
      return None;
    }

    /** The worker's critical section, entered when woken with something to do: it leaves with a job or for good. */
    method WorkerWake()
      requires Valid() && worker == Waiting && (stopping || queue != [])
      modifies this
      ensures Valid() && Abs() == Next(old(Abs()), if old(stopping) then Drain else Take)
      ensures accepted == old(accepted) && stopping == old(stopping)
      ensures old(stopping) ==>
                && worker == Exited && queue == [] && |answered| == |old(answered)| + |old(queue)|
                && old(answered) <= answered && forall i :: 0 <= i < |old(queue)| ==>
                   answered[|old(answered)| + i] == Answer(old(queue)[i], Canceled)
      ensures !old(stopping) ==>
                worker == Running(old(queue)[0]) && queue == old(queue)[1..] && answered == old(answered)
    {
      if stopping {
        ghost var before := answered;
        var i := 0;
        while i < |queue|
          invariant 0 <= i <= |queue|
          invariant answered == before + Cancel(queue[..i])
          invariant unchanged(`queue) && unchanged(`stopping) && unchanged(`worker) && unchanged(`holder)
          invariant unchanged(`stops) && unchanged(`accepted) && unchanged(`submitted)
        {
          answered := answered + [Answer(queue[i], Canceled)];
          assert Cancel(queue[..i + 1]) == Cancel(queue[..i]) + [Answer(queue[i], Canceled)];
          i := i + 1;
        }
        assert queue[..i] == queue;
        queue := [];
        worker := Exited;
        StepKeepsInv(old(Abs()), Drain);
      } else {
        worker := Running(queue[0]);
        queue := queue[1..];
        StepKeepsInv(old(Abs()), Take);
      }
    }

    /** The worker answers the job it runs; an exception is answered with an error. */
    method WorkerFinish(outcome: Option<string>)
      requires Valid() && worker.Running?
      modifies this
      ensures Valid()
              && Abs() == Next(old(Abs()), Finish(match outcome case None => Failed case Some(r) => Executed(r)))
      ensures worker == Waiting && queue == old(queue) && accepted == old(accepted)
      ensures answered == old(answered) +
                          [Answer(old(worker).job, if outcome.Some? then Executed(outcome.value) else Failed)]
    {
      var reply := match outcome case None => Failed case Some(r) => Executed(r);
      answered := answered + [Answer(worker.job, reply)];
      worker := Waiting;
      StepKeepsInv(old(Abs()), Finish(reply));
    }

    method StopStep(e: Event)
      requires Valid() && Enabled(Abs(), e) && (e.Lock? || e.Raise? || e.Join? || e.Unlock?)
      modifies this
      ensures Valid() && Abs() == Next(old(Abs()), e)
    {
      match e {
        case Lock(c) => holder, stops := Some(c), stops[c := Locked];
        case Raise(c) => stopping, stops := true, stops[c := Flagged];
        case Join(c) => stops := stops[c := Joined];
        case Unlock(c) => holder, stops := None, stops[c := Returned];
        case _ =>
      }
      StepKeepsInv(old(Abs()), e);
    }
  }

  // ---- What every interleaving keeps ----

  function JobsOf(answers: seq<Answer>): (jobs: seq<Job>)
    ensures |jobs| == |answers|
    ensures forall i :: 0 <= i < |jobs| ==> jobs[i] == answers[i].job
  {
    seq(|answers|, i requires 0 <= i < |answers| => answers[i].job)
  }

  function InHand(w: Worker): seq<Job> { if w.Running? then [w.job] else [] }

  /** First in, first out: the accepted jobs are those answered, then the one running, then those queued, in order. */
  predicate Accounted(s: State) {
    s.accepted == JobsOf(s.answered) + InHand(s.worker) + s.queue
  }

  predicate StopsInOrder(s: State) {
    && (forall c <- s.stops :: s.stops[c] == Returned || s.holder == Some(c))
    && (s.holder.Some? ==> s.holder.value in s.stops && s.stops[s.holder.value] != Returned)
    && (forall c <- s.stops :: s.stops[c] != Locked ==> s.stopping)
    && (forall c <- s.stops :: s.stops[c] == Joined || s.stops[c] == Returned ==> s.worker == Exited)
  }

  predicate Inv(s: State) {
    && |s.queue| <= CAPACITY
    && Accounted(s)
    && (forall i :: 0 <= i < |s.accepted| ==> s.accepted[i].id == i)
    && (s.worker == Exited ==> s.stopping && s.queue == [])
    && (!s.stopping ==> forall a <- s.answered :: a.reply != Canceled)
    && StopsInOrder(s)
  }

  lemma StepKeepsInv(s: State, e: Event)
    requires Inv(s) && Enabled(s, e)
    ensures Inv(Next(s, e))
  {
    hide Accounted, StopsInOrder;
    StepKeepsAccount(s, e);
    StepKeepsStops(s, e);
  }

  lemma StepKeepsStops(s: State, e: Event)
    requires Inv(s) && Enabled(s, e)
    ensures StopsInOrder(Next(s, e))
  {
    hide Accounted;
  }

  lemma StepKeepsAccount(s: State, e: Event)
    requires Inv(s) && Enabled(s, e)
    ensures Accounted(Next(s, e))
  {
    hide StopsInOrder;
    var t := Next(s, e);
    match e {
      case Submit(_) =>
        if Accepts(s) { assert t.accepted == JobsOf(t.answered) + InHand(t.worker) + t.queue; }
      case Take =>
        assert s.queue == [s.queue[0]] + s.queue[1..];
        assert t.accepted == JobsOf(t.answered) + InHand(t.worker) + t.queue;
      case Finish(reply) =>
        assert JobsOf(t.answered) == JobsOf(s.answered) + [s.worker.job];
      case Drain =>
        assert JobsOf(t.answered) == JobsOf(s.answered) + s.queue;
      case _ =>
    }
  }

  /** A run: any interleaving of enabled steps from the start. */
  ghost predicate IsRun(states: seq<State>, events: seq<Event>) {
    && |states| == |events| + 1 && states[0] == INITIAL
    && forall k :: 0 <= k < |events| ==> Enabled(states[k], events[k]) && states[k + 1] == Next(states[k], events[k])
  }

  lemma {:induction false} RunKeepsInv(states: seq<State>, events: seq<Event>, k: nat)
    requires IsRun(states, events) && k < |states|
    ensures Inv(states[k])
  {
    if k > 0 {
      RunKeepsInv(states, events, k - 1);
      StepKeepsInv(states[k - 1], events[k - 1]);
    }
  }

  /** The job of submission id is in exactly one of answered, running and queued. */
  lemma ExactlyOnePlace(states: seq<State>, events: seq<Event>, k: nat, id: nat)
    requires IsRun(states, events) && k < |states| && id < |states[k].accepted|
    ensures var (s, j) := (states[k], states[k].accepted[id]);
            var (a, r, q) := (j in JobsOf(s.answered), s.worker == Running(j), j in s.queue);
            (a || r || q) && !(a && r) && !(a && q) && !(r && q)
    ensures forall m, n :: 0 <= m < n < |states[k].answered| ==> states[k].answered[m].job != states[k].answered[n].job
  {
    hide IsRun;
    RunKeepsInv(states, events, k);
    var s := states[k];
    PlaceById(s, id);
    forall m, n | 0 <= m < n < |s.answered| ensures s.answered[m].job != s.answered[n].job {
      assert JobsOf(s.answered)[m].id == m && JobsOf(s.answered)[n].id == n;
    }
  }

  /** The accepted jobs are the answered ones, the one in hand and the queued ones, in this order. */
  lemma PlaceById(s: State, id: nat)
    requires Inv(s) && id < |s.accepted|
    ensures var (done, hand, j) := (|s.answered|, |InHand(s.worker)|, s.accepted[id]);
            && (j in JobsOf(s.answered) <==> id < done) && (s.worker == Running(j) <==> done <= id < done + hand)
            && (j in s.queue <==> done + hand <= id)
    ensures forall m :: 0 <= m < |s.answered| ==> JobsOf(s.answered)[m].id == m
  {
    ThreeParts(JobsOf(s.answered), InHand(s.worker), s.queue, s.accepted, id);
    assert s.worker == Running(s.accepted[id]) <==> s.accepted[id] in InHand(s.worker);
  }

  lemma ThreeParts(a: seq<Job>, b: seq<Job>, c: seq<Job>, all: seq<Job>, id: nat)
    requires all == a + b + c && id < |all| && forall i :: 0 <= i < |all| ==> all[i].id == i
    ensures all[id] in a <==> id < |a|
    ensures all[id] in b <==> |a| <= id < |a| + |b|
    ensures all[id] in c <==> |a| + |b| <= id
    ensures forall m :: 0 <= m < |a| ==> a[m].id == m
  {
    InPart(a, 0, all, id);
    InPart(b, |a|, all, id);
    InPart(c, |a| + |b|, all, id);
    assert forall m :: 0 <= m < |a| ==> a[m] == all[m];
  }

  /** A stretch of the accepted jobs holds exactly the jobs numbered by it. */
  lemma InPart(part: seq<Job>, offset: nat, all: seq<Job>, id: nat)
    requires offset + |part| <= |all| && id < |all| && forall m :: 0 <= m < |part| ==> part[m] == all[offset + m]
    requires forall i :: 0 <= i < |all| ==> all[i].id == i
    ensures all[id] in part <==> offset <= id < offset + |part|
  {
    if all[id] in part {
      var m :| 0 <= m < |part| && part[m] == all[id];
      assert part[m] == all[offset + m];
    }
    if offset <= id < offset + |part| { assert part[id - offset] == all[id]; }
  }

  lemma StepGrows(s: State, e: Event)
    requires Inv(s) && Enabled(s, e)
    ensures s.answered <= Next(s, e).answered && s.accepted <= Next(s, e).accepted
    ensures s.stopping ==> Next(s, e).stopping && Next(s, e).accepted == s.accepted
    ensures s.worker == Exited ==> Next(s, e).worker == Exited && Next(s, e).answered == s.answered
  {
  }

  /** Jobs are answered in the order they were accepted. */
  lemma AnsweredInOrder(states: seq<State>, events: seq<Event>, k: nat)
    requires IsRun(states, events) && k < |states|
    ensures JobsOf(states[k].answered) <= states[k].accepted
  {
    RunKeepsInv(states, events, k);
  }

  /** What was answered or accepted stays so, and after the stop flag nothing more is accepted. */
  lemma {:induction false} HistoryGrows(states: seq<State>, events: seq<Event>, j: nat, k: nat)
    requires IsRun(states, events) && j <= k < |states|
    ensures states[j].answered <= states[k].answered && states[j].accepted <= states[k].accepted
    ensures states[j].stopping ==> states[k].stopping && states[k].accepted == states[j].accepted
    ensures states[j].worker == Exited ==> states[k].worker == Exited && states[k].answered == states[j].answered
  {
    hide Inv, Next, Enabled;
    if j < k {
      HistoryGrows(states, events, j, k - 1);
      RunKeepsInv(states, events, k - 1);
      StepGrows(states[k - 1], events[k - 1]);
    }
  }

  /** When the worker has exited, or any Stop has returned, every accepted promise is answered and stays as
      answered. */
  lemma StopLeavesNothing(states: seq<State>, events: seq<Event>, k: nat, c: nat)
    requires IsRun(states, events) && k < |states|
    requires states[k].worker == Exited || (c in states[k].stops && states[k].stops[c] == Returned)
    ensures states[k].queue == [] && states[k].worker == Exited
    ensures JobsOf(states[k].answered) == states[k].accepted
    ensures forall m :: k <= m < |states| ==>
              states[m].answered == states[k].answered && states[m].accepted == states[k].accepted
  {
    RunKeepsInv(states, events, k);
    forall m | k <= m < |states|
      ensures states[m].answered == states[k].answered && states[m].accepted == states[k].accepted
    {
      HistoryGrows(states, events, k, m);
    }
  }

  // ---- Which answers ----

  /** A submission is accepted exactly while not stopping and with fewer than 32 jobs queued, and then the job numbered
      next carries its command. */
  lemma SubmittedIs(states: seq<State>, events: seq<Event>, k: nat, command: string)
    requires IsRun(states, events) && k < |events| && events[k] == Event.Submit(command)
    ensures states[k + 1].accepted ==
            if !states[k].stopping && |states[k].queue| < 32
            then states[k].accepted + [Job(|states[k].accepted|, command)] else states[k].accepted
  {
  }

  /** The reply a job was executed to, or the failure it ended in, is the answer to that very job, for good. */
  lemma FinishAnswers(states: seq<State>, events: seq<Event>, k: nat, reply: Reply, m: nat)
    requires IsRun(states, events) && k < m < |states| && events[k] == Finish(reply)
    ensures states[k].worker.Running? && Answer(states[k].worker.job, reply) in states[m].answered
  {
    HistoryGrows(states, events, k + 1, m);
    var before := states[k].answered;
    assert states[k + 1].answered[|before|] == Answer(states[k].worker.job, reply);
    assert states[m].answered[|before|] == states[k + 1].answered[|before|];
  }

  /** Every job still queued when the worker drains is answered as canceled, for good. */
  lemma DrainCancels(states: seq<State>, events: seq<Event>, k: nat, m: nat, job: Job)
    requires IsRun(states, events) && k < m < |states| && events[k] == Drain && job in states[k].queue
    ensures Answer(job, Canceled) in states[m].answered
  {
    HistoryGrows(states, events, k + 1, m);
    var i :| 0 <= i < |states[k].queue| && states[k].queue[i] == job;
    var at := |states[k].answered| + i;
    assert states[k + 1].answered[at] == Answer(job, Canceled);
    assert states[m].answered[at] == states[k + 1].answered[at];
  }

  /** At step k the job in hand got this answer, or was drained. */
  ghost predicate Given(states: seq<State>, events: seq<Event>, k: nat, a: Answer)
    requires |states| == |events| + 1 && k < |events|
  {
    || (events[k] == Finish(a.reply) && states[k].worker == Running(a.job))
    || (events[k] == Drain && a.reply == Canceled && a.job in states[k].queue)
  }

  /** And no answer comes from anywhere else. */
  lemma {:induction false} AnswerGiven(states: seq<State>, events: seq<Event>, m: nat, a: Answer) returns (k: nat)
    requires IsRun(states, events) && m < |states| && a in states[m].answered
    ensures k < m && Given(states, events, k, a)
  {
    if a in states[m - 1].answered {
      k := AnswerGiven(states, events, m - 1, a);
    } else {
      k := m - 1;
    }
  }

  /** A job is worked on from the front of the queue, with the command it was submitted with. */
  lemma TakenIs(states: seq<State>, events: seq<Event>, k: nat)
    requires IsRun(states, events) && k < |events| && events[k] == Take
    ensures states[k].queue != [] && states[k + 1].worker == Running(states[k].queue[0])
    ensures states[k + 1].queue == states[k].queue[1..] && states[k].queue[0] in states[k].accepted
  {
    RunKeepsInv(states, events, k);
    var s := states[k];
    assert s.accepted[|s.answered|] == (JobsOf(s.answered) + InHand(s.worker) + s.queue)[|s.answered|];
  }

  // ---- The drain ----

  predicate IsWorkerStep(e: Event) { e.Take? || e.Finish? || e.Drain? }

  /** Worker steps left at most, once stopping; otherwise, with no further submission, those for the jobs in hand. */
  function Remaining(s: State): nat {
    if s.worker == Exited then 0
    else if s.stopping then if s.worker.Running? then 2 else 1
    else 2 * |s.queue| + (if s.worker.Running? then 1 else 0) + 2
  }

  /** Every worker step makes progress and, apart from accepting a job, nothing undoes it. */
  lemma StepsRemaining(s: State, e: Event)
    requires Inv(s) && Enabled(s, e)
    ensures IsWorkerStep(e) ==> Remaining(Next(s, e)) < Remaining(s)
    ensures !IsWorkerStep(e) && !(e.Submit? && Accepts(s)) ==> Remaining(Next(s, e)) <= Remaining(s)
  {
  }

  /** The worker is never stuck: while stopping is set it can step until it exits, and while jobs are queued it can
      step. */
  lemma WorkerCanStep(s: State)
    requires Inv(s) && s.worker != Exited && (s.stopping || s.queue != [] || s.worker.Running?)
    ensures Enabled(s, Take) || Enabled(s, Drain) || Enabled(s, Finish(Failed))
  {
  }

  /** A Stop call that holds the mutex can always go on, once the worker is gone at the latest. */
  lemma StopCanStep(s: State, c: nat)
    requires Inv(s) && s.holder == Some(c)
    ensures s.stops[c] == Flagged && s.worker != Exited ==> s.stopping && Remaining(s) > 0
    ensures s.worker == Exited || s.stops[c] != Flagged ==>
              Enabled(s, Raise(c)) || Enabled(s, Join(c)) || Enabled(s, Unlock(c))
  {
  }

  function WorkerSteps(events: seq<Event>): nat {
    if events == [] then 0 else WorkerSteps(events[..|events| - 1]) + if IsWorkerStep(events[|events| - 1]) then 1
    else 0
  }

  /** After the stop flag the worker takes at most two more steps in any interleaving: finish the running job, then
      drain. */
  lemma {:induction false} DrainIsShort(states: seq<State>, events: seq<Event>, j: nat, k: nat)
    requires IsRun(states, events) && j <= k <= |events| && states[j].stopping
    ensures states[k].stopping && WorkerSteps(events[j..k]) + Remaining(states[k]) <= Remaining(states[j]) <= 2
  {
    if j < k {
      DrainIsShort(states, events, j, k - 1);
      RunKeepsInv(states, events, k - 1);
      StepsRemaining(states[k - 1], events[k - 1]);
      assert events[j..k][..k - j - 1] == events[j..k - 1];
    }
  }
}

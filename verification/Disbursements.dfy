/**
 * What becomes of every payment ever queued, over all runs of the system: overlapping cron runs,
 * settlements between their transfers, and admin deletions included.
 */
module Disbursements {
  import opened Wrappers
  import opened Accounts
  import opened Market
  import opened World

  // ---- Additive measures of jobs ----

  function Weigh(f: Job -> nat, jobs: seq<Job>): nat {
    if jobs == [] then 0 else f(jobs[0]) + Weigh(f, jobs[1..])
  }

  function WeighNext(f: Job -> nat, next: Option<Job>): nat {
    match next
    case Some(job) => f(job)
    case None => 0
  }

  /** All a cron run holds: the job it waits for and those it has put aside. */
  function WeighRun(f: Job -> nat, run: CronRun): nat {
    Weigh(f, run.failed) + if run.flight.Landed? then 0 else f(run.flight.job)
  }

  function SumRuns(g: CronRun -> nat, runs: seq<CronRun>): nat {
    if runs == [] then 0 else g(runs[0]) + SumRuns(g, runs[1..])
  }

  function RunWeight(f: Job -> nat): CronRun -> nat {
    (run: CronRun) => WeighRun(f, run)
  }

  lemma {:induction false} WeighAppend(f: Job -> nat, a: seq<Job>, b: seq<Job>)
    ensures Weigh(f, a + b) == Weigh(f, a) + Weigh(f, b)
  {
    if a == [] {
      assert a + b == b;
    } else {
      assert (a + b)[1..] == a[1..] + b;
      WeighAppend(f, a[1..], b);
    }
  }

  lemma {:induction false} SumRunsAppend(g: CronRun -> nat, runs: seq<CronRun>, run: CronRun)
    ensures SumRuns(g, runs + [run]) == SumRuns(g, runs) + g(run)
  {
    if runs != [] {
      assert (runs + [run])[1..] == runs[1..] + [run];
      SumRunsAppend(g, runs[1..], run);
    }
  }

  lemma {:induction false} SumRunsUpdate(g: CronRun -> nat, runs: seq<CronRun>, r: nat, run: CronRun)
    requires r < |runs|
    ensures SumRuns(g, runs[r := run]) + g(runs[r]) == SumRuns(g, runs) + g(run)
  {
    if r > 0 {
      assert runs[r := run][1..] == runs[1..][r - 1 := run];
      SumRunsUpdate(g, runs[1..], r - 1, run);
    }
  }

  /** Popping moves jobs between the queue, the failed list and the outgoing transfer. */
  lemma {:induction false} PumpWeigh(f: Job -> nat, queue: seq<Job>, failed: seq<Job>)
    ensures var p := Pump(queue, failed);
            Weigh(f, p.queue) + Weigh(f, p.failed) + WeighNext(f, p.next) == Weigh(f, queue) + Weigh(f, failed)
    ensures Pump(queue, failed).next.None? ==> Pump(queue, failed).queue == []
  {
    if queue != [] && !Decodable(queue[0].recipient) {
      PumpWeigh(f, queue[1..], [queue[0]] + failed);
    }
  }

  lemma {:induction false} KeepWeigh(f: Job -> nat, queue: seq<Job>, token: Index, recipient: Account, amount: nat)
    ensures Weigh(f, Keep(queue, token, recipient, amount)) + Weigh(f, Dropped(queue, token, recipient, amount))
         == Weigh(f, queue)
  {
    if queue != [] {
      KeepWeigh(f, queue[1..], token, recipient, amount);
    }
  }

  // ---- Conservation ----

  /** The steps that touch the queue or a cron run. */
  predicate MovesJobs(s: Step) {
    s.FinishSettle? || s.CronBegin? || s.LedgerTransfer? || s.CronReply? || s.DeleteJobs?
  }

  predicate SameJobs(w: World, w': World) {
    && w'.m.queue == w.m.queue && w'.m.pendingCount == w.m.pendingCount && w'.runs == w.runs
    && w'.past.sales == w.past.sales && w'.past.queued == w.past.queued && w'.past.completed == w.past.completed
    && w'.past.dropped == w.past.dropped && w'.past.deleted == w.past.deleted
  }

  lemma CallKeepsJobs(w: World, s: Step)
    requires Enabled(w, s) && IsCallStep(s) && !s.FinishSettle?
    ensures SameJobs(w, ApplyCall(w, s))
  {
  }

  lemma OtherStepsKeepJobs(w: World, s: Step)
    requires Enabled(w, s) && !MovesJobs(s)
    ensures SameJobs(w, Apply(w, s))
  {
    if IsCallStep(s) {
      CallKeepsJobs(w, s);
    }
  }

  /** What is queued or held by cron runs, and what has left, add up to what was ever queued. */
  predicate Balanced(w: World, f: Job -> nat) {
    Weigh(f, w.m.queue) + SumRuns(RunWeight(f), w.runs)
      + Weigh(f, w.past.completed) + Weigh(f, w.past.dropped) + Weigh(f, w.past.deleted)
    == Weigh(f, w.past.queued)
  }

  lemma ResumeWeigh(f: Job -> nat, m: Market, p: Pumped)
    requires p.next.None? ==> p.queue == []
    ensures Weigh(f, Resume(m, p).queue) + WeighRun(f, RunAt(p))
         == Weigh(f, p.queue) + Weigh(f, p.failed) + WeighNext(f, p.next)
  {
    WeighAppend(f, p.failed, p.queue);
  }

  lemma BalancedSettle(w: World, c: nat, f: Job -> nat)
    requires Balanced(w, f) && Enabled(w, FinishSettle(c))
    ensures Balanced(ApplyFinish(w, c), f)
  {
    var call := w.calls[c];
    var (m, end) := SettleFinish(w.m, call.index, call.phase.tx, call.phase.balance, w.now);
    if end.Sold? {
      var jobs := m.queue[..|FEES| + 1];
      assert m.queue == jobs + w.m.queue;
      WeighAppend(f, jobs, w.m.queue);
      WeighAppend(f, jobs, w.past.queued);
    }
  }

  lemma BalancedCronBegin(w: World, f: Job -> nat)
    requires Balanced(w, f)
    ensures Balanced(ApplyCronBegin(w), f)
  {
    var p := Pump(w.m.queue, []);
    PumpWeigh(f, w.m.queue, []);
    ResumeWeigh(f, w.m.(lastDisburseCron := w.now), p);
    SumRunsAppend(RunWeight(f), w.runs, RunAt(p));
  }

  lemma BalancedLedger(w: World, r: nat, reply: Reply, f: Job -> nat)
    requires Balanced(w, f) && Enabled(w, LedgerTransfer(r, reply))
    ensures Balanced(ApplyLedger(w, r, reply), f)
  {
    SumRunsUpdate(RunWeight(f), w.runs, r, w.runs[r].(flight := Replied(w.runs[r].flight.job, reply)));
  }

  /** The segment of a cron run after a reply keeps everything except a finished job. */
  lemma RepliedWeigh(f: Job -> nat, m: Market, job: Job, reply: Reply, failed: seq<Job>)
    ensures var (m', p) := CronReplied(m, job, reply, failed);
            Weigh(f, m'.queue) + WeighRun(f, RunAt(p))
              == Weigh(f, m.queue) + Weigh(f, failed) + if Retryable(reply) then f(job) else 0
  {
    var after := FailedAfter(job, reply, failed);
    var p := Pump(m.queue, after);
    PumpWeigh(f, m.queue, after);
    ResumeWeigh(f, m.(pendingCount := m.pendingCount - 1), p);
    assert ([job] + failed)[1..] == failed;
  }

  lemma BalancedCronReply(w: World, r: nat, f: Job -> nat)
    requires Balanced(w, f) && Enabled(w, CronReply(r))
    ensures Balanced(ApplyCronReply(w, r), f)
  {
    var (job, reply) := (w.runs[r].flight.job, w.runs[r].flight.reply);
    var failed := w.runs[r].failed;
    var (m, p) := CronReplied(w.m, job, reply, failed);
    var w' := ApplyCronReply(w, r);
    assert w'.m == m && w'.runs == w.runs[r := RunAt(p)];
    RepliedWeigh(f, w.m, job, reply, failed);
    SumRunsUpdate(RunWeight(f), w.runs, r, RunAt(p));
    LeavesWeigh(f, w, r);
  }

  /** The finished jobs grow by the job of the run, or stay as they were when it is to be retried. */
  lemma LeavesWeigh(f: Job -> nat, w: World, r: nat)
    requires Enabled(w, CronReply(r))
    ensures var (w', run) := (ApplyCronReply(w, r), w.runs[r].flight);
            && Weigh(f, w'.past.completed) + Weigh(f, w'.past.dropped)
               == Weigh(f, w.past.completed) + Weigh(f, w.past.dropped)
                  + (if Retryable(run.reply) then 0 else f(run.job))
            && w'.past.deleted == w.past.deleted && w'.past.queued == w.past.queued
  {
    var job := w.runs[r].flight.job;
    assert ([job] + w.past.completed)[1..] == w.past.completed;
    assert ([job] + w.past.dropped)[1..] == w.past.dropped;
  }

  lemma BalancedDelete(w: World, index: Index, recipient: Account, owed: nat, f: Job -> nat)
    requires Balanced(w, f)
    ensures Balanced(Apply(w, DeleteJobs(index, recipient, owed)), f)
  {
    KeepWeigh(f, w.m.queue, index, recipient, owed);
    WeighAppend(f, Dropped(w.m.queue, index, recipient, owed), w.past.deleted);
  }

  lemma BalancedStep(w: World, s: Step, f: Job -> nat)
    requires Balanced(w, f) && Enabled(w, s)
    ensures Balanced(Apply(w, s), f)
  {
    if !MovesJobs(s) {
      OtherStepsKeepJobs(w, s);
    } else if s.FinishSettle? {
      BalancedSettle(w, s.call, f);
    } else if s.CronBegin? {
      BalancedCronBegin(w, f);
    } else if s.LedgerTransfer? {
      BalancedLedger(w, s.run, s.reply, f);
    } else if s.CronReply? {
      BalancedCronReply(w, s.run, f);
    } else {
      BalancedDelete(w, s.index, s.recipient, s.owed, f);
    }
  }

  /** No call outstanding and nothing recorded yet but the payments that were restored to the queue. */
  ghost predicate Idle(w: World) {
    && w.calls == [] && w.runs == [] && w.m.pendingCount == 0
    && w.past == History([], [], w.m.queue, [], [], [])
  }

  lemma {:induction false} BalancedRun(ws: seq<World>, steps: seq<Step>, i: nat, f: Job -> nat)
    requires IsRun(ws, steps) && Idle(ws[0]) && i < |ws|
    ensures Balanced(ws[i], f)
  {
    if i > 0 {
      BalancedRun(ws, steps, i - 1, f);
      BalancedStep(ws[i - 1], steps[i - 1], f);
    }
  }

  /** The jobs held by cron runs, current and failed. */
  function Held(runs: seq<CronRun>): seq<Job> {
    if runs == [] then []
    else (if runs[0].flight.Landed? then [] else [runs[0].flight.job]) + runs[0].failed + Held(runs[1..])
  }

  function Count(job: Job): Job -> nat {
    (j: Job) => if j == job then 1 else 0
  }

  lemma {:induction false} WeighCount(jobs: seq<Job>, job: Job)
    ensures Weigh(Count(job), jobs) == multiset(jobs)[job]
  {
    if jobs != [] {
      WeighCount(jobs[1..], job);
      assert jobs == [jobs[0]] + jobs[1..];
    }
  }

  lemma {:induction false} WeighHeld(f: Job -> nat, runs: seq<CronRun>)
    ensures Weigh(f, Held(runs)) == SumRuns(RunWeight(f), runs)
  {
    if runs != [] {
      var current := if runs[0].flight.Landed? then [] else [runs[0].flight.job];
      WeighHeld(f, runs[1..]);
      WeighAppend(f, current, runs[0].failed);
      WeighAppend(f, current + runs[0].failed, Held(runs[1..]));
    }
  }

  /**
   * Conservation: in every state of every run, the queue, the jobs cron runs hold, and the jobs
   * completed, dropped and deleted by an admin are together, as multisets, exactly the jobs ever
   * queued. So a completed job is never also in the queue, in flight or set aside.
   */
  lemma JobsAreConserved(ws: seq<World>, steps: seq<Step>, i: nat)
    requires IsRun(ws, steps) && Idle(ws[0]) && i < |ws|
    ensures var w := ws[i];
            multiset(w.m.queue) + multiset(Held(w.runs))
              + multiset(w.past.completed) + multiset(w.past.dropped) + multiset(w.past.deleted)
            == multiset(w.past.queued)
  {
    var w := ws[i];
    forall job: Job
      ensures multiset(w.m.queue)[job] + multiset(Held(w.runs))[job] + multiset(w.past.completed)[job]
              + multiset(w.past.dropped)[job] + multiset(w.past.deleted)[job] == multiset(w.past.queued)[job]
    {
      BalancedRun(ws, steps, i, Count(job));
      WeighHeld(Count(job), w.runs);
      WeighCount(w.m.queue, job);
      WeighCount(Held(w.runs), job);
      WeighCount(w.past.completed, job);
      WeighCount(w.past.dropped, job);
      WeighCount(w.past.deleted, job);
      WeighCount(w.past.queued, job);
    }
  }

  // ---- pendingCount ----

  function Waiting(): CronRun -> nat {
    (run: CronRun) => if run.flight.Landed? then 0 else 1
  }

  predicate Counted(w: World) {
    w.m.pendingCount == SumRuns(Waiting(), w.runs)
  }

  lemma CountCronBegin(w: World)
    requires Counted(w)
    ensures Counted(ApplyCronBegin(w))
  {
    SumRunsAppend(Waiting(), w.runs, RunAt(Pump(w.m.queue, [])));
  }

  lemma CountLedger(w: World, r: nat, reply: Reply)
    requires Counted(w) && Enabled(w, LedgerTransfer(r, reply))
    ensures Counted(ApplyLedger(w, r, reply))
  {
    SumRunsUpdate(Waiting(), w.runs, r, w.runs[r].(flight := Replied(w.runs[r].flight.job, reply)));
  }

  lemma CountCronReply(w: World, r: nat)
    requires Counted(w) && Enabled(w, CronReply(r))
    ensures Counted(ApplyCronReply(w, r))
  {
    var (job, reply) := (w.runs[r].flight.job, w.runs[r].flight.reply);
    var (_, p) := CronReplied(w.m, job, reply, w.runs[r].failed);
    SumRunsUpdate(Waiting(), w.runs, r, RunAt(p));
  }

  lemma CountFinish(w: World, c: nat)
    requires Counted(w) && Enabled(w, FinishSettle(c))
    ensures Counted(ApplyFinish(w, c))
  {
  }

  lemma CountStep(w: World, s: Step)
    requires Enabled(w, s) && Counted(w)
    ensures Counted(Apply(w, s))
  {
    if !MovesJobs(s) {
      OtherStepsKeepJobs(w, s);
    } else if s.FinishSettle? {
      CountFinish(w, s.call);
    } else if s.CronBegin? {
      CountCronBegin(w);
    } else if s.LedgerTransfer? {
      CountLedger(w, s.run, s.reply);
    } else if s.CronReply? {
      CountCronReply(w, s.run);
    }
  }

  /**
   * At every suspension point of every run, pendingCount is the number of cron runs whose transfer
   * has been sent and not yet been answered to them. It never goes below zero.
   */
  lemma {:induction false} PendingCountIsInFlight(ws: seq<World>, steps: seq<Step>, i: nat)
    requires IsRun(ws, steps) && Idle(ws[0]) && i < |ws|
    ensures ws[i].m.pendingCount == SumRuns(Waiting(), ws[i].runs) >= 0
  {
    if i > 0 {
      PendingCountIsInFlight(ws, steps, i - 1);
      CountStep(ws[i - 1], steps[i - 1]);
    }
  }
}

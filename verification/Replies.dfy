/** What becomes of a payment, by the answer of the ledger, over all runs of the system. */
module Replies {
  import Accounts
  import opened Market
  import opened World
  import opened Disbursements

  /** The payments still to be made: queued, in flight or set aside. */
  function Outstanding(w: World): multiset<Job> {
    multiset(w.m.queue) + multiset(Held(w.runs))
  }

  lemma OutstandingWeighs(w: World, job: Job)
    ensures Outstanding(w)[job] == Weigh(Count(job), w.m.queue) + SumRuns(RunWeight(Count(job)), w.runs)
  {
    WeighCount(w.m.queue, job);
    WeighHeld(Count(job), w.runs);
    WeighCount(Held(w.runs), job);
  }

  /** How often the job is over with the answer that has arrived. */
  function Leaving(flight: Flight, job: Job): nat
    requires flight.Replied?
  {
    if Retryable(flight.reply) || flight.job != job then 0 else 1
  }

  lemma WeightAfterReply(w: World, r: nat, f: Job -> nat)
    requires Enabled(w, CronReply(r))
    ensures Weigh(f, ApplyCronReply(w, r).m.queue) + SumRuns(RunWeight(f), ApplyCronReply(w, r).runs)
              + (if Retryable(w.runs[r].flight.reply) then 0 else f(w.runs[r].flight.job))
         == Weigh(f, w.m.queue) + SumRuns(RunWeight(f), w.runs)
  {
    var (flight, failed) := (w.runs[r].flight, w.runs[r].failed);
    var (m, p) := CronReplied(w.m, flight.job, flight.reply, failed);
    RepliedWeigh(f, w.m, flight.job, flight.reply, failed);
    SumRunsUpdate(RunWeight(f), w.runs, r, RunAt(p));
  }

  lemma OutstandingAfterReply(w: World, r: nat, job: Job)
    requires Enabled(w, CronReply(r))
    ensures Outstanding(ApplyCronReply(w, r))[job] + Leaving(w.runs[r].flight, job) == Outstanding(w)[job]
  {
    WeightAfterReply(w, r, Count(job));
    OutstandingWeighs(w, job);
    OutstandingWeighs(ApplyCronReply(w, r), job);
  }

  /** What one answer does: a payment is over when it was made, or when it can never be; else it is kept. */
  predicate Handled(w: World, w': World, job: Job, reply: Reply) {
    match reply
    case Paid =>
      && Outstanding(w') + multiset{job} == Outstanding(w)
      && w'.past.completed == [job] + w.past.completed && w'.past.dropped == w.past.dropped
    case InsufficientFunds => IsDropped(w, w', job)
    case TxDuplicate => IsDropped(w, w', job)
    case TxTooOld => IsDropped(w, w', job)
    case BadFee => IsKept(w, w', job)
    case TxCreatedInFuture => IsKept(w, w', job)
    case Rejected => IsKept(w, w', job)
  }

  predicate IsDropped(w: World, w': World, job: Job) {
    && Outstanding(w') + multiset{job} == Outstanding(w)
    && w'.past.dropped == [job] + w.past.dropped && w'.past.completed == w.past.completed
  }

  predicate IsKept(w: World, w': World, job: Job) {
    && Outstanding(w') == Outstanding(w) && job in Outstanding(w')
    && w'.past.dropped == w.past.dropped && w'.past.completed == w.past.completed
  }

  lemma InFlightIsOutstanding(w: World, r: nat)
    requires Enabled(w, CronReply(r))
    ensures w.runs[r].flight.job in Outstanding(w)
  {
    var job := w.runs[r].flight.job;
    OutstandingWeighs(w, job);
    RunWithinSum(RunWeight(Count(job)), w.runs, r);
  }

  lemma {:induction false} RunWithinSum(g: CronRun -> nat, runs: seq<CronRun>, r: nat)
    requires r < |runs|
    ensures g(runs[r]) <= SumRuns(g, runs)
  {
    if r > 0 {
      RunWithinSum(g, runs[1..], r - 1);
    }
  }

  lemma SameCounts(a: multiset<Job>, b: multiset<Job>)
    requires forall job {:trigger a[job]} {:trigger b[job]} :: a[job] == b[job]
    ensures a == b
  {
  }

  lemma OutstandingKept(w: World, r: nat)
    requires Enabled(w, CronReply(r)) && Retryable(w.runs[r].flight.reply)
    ensures Outstanding(ApplyCronReply(w, r)) == Outstanding(w)
  {
    var (before, after) := (Outstanding(w), Outstanding(ApplyCronReply(w, r)));
    forall other: Job
      ensures after[other] == before[other]
    {
      OutstandingAfterReply(w, r, other);
    }
    SameCounts(after, before);
  }

  lemma OutstandingLeft(w: World, r: nat)
    requires Enabled(w, CronReply(r)) && !Retryable(w.runs[r].flight.reply)
    ensures Outstanding(ApplyCronReply(w, r)) + multiset{w.runs[r].flight.job} == Outstanding(w)
  {
    var (before, after, job) := (Outstanding(w), Outstanding(ApplyCronReply(w, r)), w.runs[r].flight.job);
    forall other: Job
      ensures (after + multiset{job})[other] == before[other]
    {
      OutstandingAfterReply(w, r, other);
    }
    SameCounts(after + multiset{job}, before);
  }

  /** Answer by answer, for every state and every suspended run. */
  lemma ReplyDecides(w: World, r: nat)
    requires Enabled(w, CronReply(r))
    ensures Handled(w, ApplyCronReply(w, r), w.runs[r].flight.job, w.runs[r].flight.reply)
  {
    InFlightIsOutstanding(w, r);
    if Retryable(w.runs[r].flight.reply) {
      OutstandingKept(w, r);
    } else {
      OutstandingLeft(w, r);
    }
  }

  /** The jobs whose run has gone on with the given answer in the first i steps. */
  ghost function Answered(ws: seq<World>, steps: seq<Step>, i: nat, reply: Reply): multiset<Job>
    requires IsRun(ws, steps) && i <= |steps|
    decreases i
  {
    if i == 0 then multiset{}
    else
      assert Enabled(ws[i - 1], steps[i - 1]);
      Answered(ws, steps, i - 1, reply) + AnsweredBy(ws[i - 1], steps[i - 1], reply)
  }

  function AnsweredBy(w: World, s: Step, reply: Reply): multiset<Job>
    requires Enabled(w, s)
  {
    if s.CronReply? && w.runs[s.run].flight.reply == reply then multiset{w.runs[s.run].flight.job} else multiset{}
  }

  lemma OthersAnswerNothing(w: World, s: Step)
    requires Enabled(w, s) && !s.CronReply?
    ensures Apply(w, s).past.completed == w.past.completed && Apply(w, s).past.dropped == w.past.dropped
  {
    if IsCallStep(s) && !s.FinishSettle? {
      CallKeepsJobs(w, s);
    }
  }

  lemma StepAnswers(w: World, s: Step)
    requires Enabled(w, s)
    ensures multiset(Apply(w, s).past.completed) == multiset(w.past.completed) + AnsweredBy(w, s, Paid)
    ensures multiset(Apply(w, s).past.dropped) == multiset(w.past.dropped) + AnsweredBy(w, s, InsufficientFunds)
              + AnsweredBy(w, s, TxDuplicate) + AnsweredBy(w, s, TxTooOld)
  {
    if s.CronReply? {
      ReplyDecides(w, s.run);
    } else {
      OthersAnswerNothing(w, s);
    }
  }

  lemma PaidNext(ws: seq<World>, steps: seq<Step>, i: nat)
    requires IsRun(ws, steps) && 0 < i <= |steps|
    requires multiset(ws[i - 1].past.completed) == Answered(ws, steps, i - 1, Paid)
    ensures multiset(ws[i].past.completed) == Answered(ws, steps, i, Paid)
  {
    assert Enabled(ws[i - 1], steps[i - 1]) && ws[i] == Apply(ws[i - 1], steps[i - 1]);
    StepAnswers(ws[i - 1], steps[i - 1]);
  }

  /** The jobs answered, by then, that they can never be made. */
  ghost function AnsweredForGood(ws: seq<World>, steps: seq<Step>, i: nat): multiset<Job>
    requires IsRun(ws, steps) && i <= |steps|
  {
    Answered(ws, steps, i, InsufficientFunds) + Answered(ws, steps, i, TxDuplicate) + Answered(ws, steps, i, TxTooOld)
  }

  lemma Regroup(a: multiset<Job>, b: multiset<Job>, c: multiset<Job>,
                x: multiset<Job>, y: multiset<Job>, z: multiset<Job>)
    ensures a + b + c + x + y + z == (a + x) + (b + y) + (c + z)
  {
  }

  lemma ForGoodNext(ws: seq<World>, steps: seq<Step>, i: nat)
    requires IsRun(ws, steps) && 0 < i <= |steps|
    requires multiset(ws[i - 1].past.dropped) == AnsweredForGood(ws, steps, i - 1)
    ensures multiset(ws[i].past.dropped) == AnsweredForGood(ws, steps, i)
  {
    var (w, s) := (ws[i - 1], steps[i - 1]);
    assert Enabled(w, s) && ws[i] == Apply(w, s);
    StepAnswers(w, s);
    Regroup(
      Answered(ws, steps, i - 1, InsufficientFunds), Answered(ws, steps, i - 1, TxDuplicate),
      Answered(ws, steps, i - 1, TxTooOld),
      AnsweredBy(w, s, InsufficientFunds), AnsweredBy(w, s, TxDuplicate), AnsweredBy(w, s, TxTooOld));
  }

  lemma {:induction false} PaidAreCompleted(ws: seq<World>, steps: seq<Step>, i: nat)
    requires IsRun(ws, steps) && Idle(ws[0]) && i <= |steps|
    ensures multiset(ws[i].past.completed) == Answered(ws, steps, i, Paid)
    decreases i
  {
    if i > 0 {
      PaidAreCompleted(ws, steps, i - 1);
      PaidNext(ws, steps, i);
    }
  }

  lemma {:induction false} ForGoodAreDropped(ws: seq<World>, steps: seq<Step>, i: nat)
    requires IsRun(ws, steps) && Idle(ws[0]) && i <= |steps|
    ensures multiset(ws[i].past.dropped) == AnsweredForGood(ws, steps, i)
    decreases i
  {
    if i > 0 {
      ForGoodAreDropped(ws, steps, i - 1);
      ForGoodNext(ws, steps, i);
    }
  }

  /**
   * Over any run, the completed jobs are exactly those answered with a payment, and the dropped ones
   * exactly those answered that funds are insufficient or the transfer is a duplicate or too old. So
   * a job answered with a bad fee, a creation in the future or a rejected call is still to be paid.
   */
  lemma RepliesDecide(ws: seq<World>, steps: seq<Step>, i: nat)
    requires IsRun(ws, steps) && Idle(ws[0]) && i <= |steps|
    ensures multiset(ws[i].past.completed) == Answered(ws, steps, i, Paid)
    ensures multiset(ws[i].past.dropped) == Answered(ws, steps, i, InsufficientFunds)
              + Answered(ws, steps, i, TxDuplicate) + Answered(ws, steps, i, TxTooOld)
  {
    PaidAreCompleted(ws, steps, i);
    ForGoodAreDropped(ws, steps, i);
  }

  /** What is still to be paid is all that was queued, less what was answered in those ways or deleted. */
  lemma OutstandingIsTheRest(ws: seq<World>, steps: seq<Step>, i: nat)
    requires IsRun(ws, steps) && Idle(ws[0]) && i <= |steps|
    ensures Outstanding(ws[i]) + Answered(ws, steps, i, Paid) + Answered(ws, steps, i, InsufficientFunds)
              + Answered(ws, steps, i, TxDuplicate) + Answered(ws, steps, i, TxTooOld)
              + multiset(ws[i].past.deleted)
         == multiset(ws[i].past.queued)
  {
    RepliesDecide(ws, steps, i);
    JobsAreConserved(ws, steps, i);
  }

  // ---- When cron runs begin ----

  predicate SameCronTime(w: World, w': World) {
    w'.m.lastDisburseCron == w.m.lastDisburseCron
  }

  lemma CallKeepsCronTime(w: World, s: Step)
    requires Enabled(w, s) && IsCallStep(s)
    ensures SameCronTime(w, ApplyCall(w, s))
  {
  }

  lemma CronTimeStep(w: World, s: Step)
    requires Enabled(w, s)
    ensures Apply(w, s).m.lastDisburseCron == if s.CronBegin? then w.now else w.m.lastDisburseCron
    ensures Apply(w, s).now >= w.now
  {
    if IsCallStep(s) {
      CallKeepsCronTime(w, s);
    }
  }

  lemma {:induction false} CronTimeStands(ws: seq<World>, steps: seq<Step>, i: nat, j: nat)
    requires IsRun(ws, steps) && i < j <= |steps| && steps[i].CronBegin?
    ensures ws[j].m.lastDisburseCron >= ws[i].now && ws[j].now >= ws[i].now
    decreases j
  {
    assert Enabled(ws[j - 1], steps[j - 1]) && ws[j] == Apply(ws[j - 1], steps[j - 1]);
    CronTimeStep(ws[j - 1], steps[j - 1]);
    if j > i + 1 {
      CronTimeStands(ws, steps, i, j - 1);
    }
  }

  /** Two cron runs begin at least five seconds apart, however they overlap, and never on an empty queue. */
  lemma CronRunsApart(ws: seq<World>, steps: seq<Step>, i: nat, j: nat)
    requires IsRun(ws, steps) && i < j < |steps| && steps[i].CronBegin? && steps[j].CronBegin?
    ensures ws[j].now >= ws[i].now + 5_000_000_000 && ws[j].m.queue != []
  {
    assert Enabled(ws[j], steps[j]);
    CronTimeStands(ws, steps, i, j);
  }

  /** A run can begin exactly when there is a payment to make and the last one began long enough ago. */
  lemma CronBeginsExactlyWhen(w: World)
    ensures Enabled(w, CronBegin) <==> |w.m.queue| > 0 && w.m.lastDisburseCron + 5_000_000_000 <= w.now
  {
  }

  /** A transfer can be sent to every hashed identifier, and to a text exactly when it is bytes in hexadecimal. */
  lemma DecodableExactlyWhen(recipient: Accounts.Account)
    ensures Decodable(recipient) <==>
              recipient.Derived? ||
              (|recipient.text| % 2 == 0 && forall c :: c in recipient.text ==> c in "0123456789abcdefABCDEF")
  {
    if recipient.Plain? {
      forall c: char
        ensures IsHexDigit(c) <==> c in "0123456789abcdefABCDEF"
      {
        HexDigits(c);
      }
      assert forall i :: 0 <= i < |recipient.text| ==> recipient.text[i] in recipient.text;
    }
  }

  lemma HexDigits(c: char)
    ensures IsHexDigit(c) <==> c in "0123456789abcdefABCDEF"
  {
  }

  function DebitOf(job: Job, sub: Accounts.SubAccount): nat {
    if sub == job.bytes then job.amount + 10_000 else 0
  }

  /** What the ledger takes for a payment: its amount and 10_000 more, from the subaccount of the payment. */
  lemma PaymentDebits(w: World, r: nat, sub: Accounts.SubAccount)
    requires Enabled(w, LedgerTransfer(r, Paid))
    ensures Balance(ApplyLedger(w, r, Paid).bank, sub)
         == Balance(w.bank, sub) - DebitOf(w.runs[r].flight.job, sub)
  {
  }
}

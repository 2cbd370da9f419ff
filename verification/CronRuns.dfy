/** A cron run that nothing interrupts, segment by segment with the answers of the ledger. */
module CronRuns {
  import opened Market
  import opened World
  import opened Plays
  import opened Entrepot

  /** The jobs a run still has to do: the one in hand and those in the queue. */
  function Left(p: Pumped): seq<Job> {
    (if p.next.Some? then [p.next.value] else []) + p.queue
  }

  function Drop(replies: seq<Reply>, left: nat): seq<Reply>
    requires left <= |replies|
  {
    replies[|replies| - left..]
  }

  /** The job in hand can be sent, and without one the queue is empty. */
  predicate Popped(p: Pumped) {
    if p.next.Some? then Decodable(p.next.value.recipient) else p.queue == []
  }

  /** Popping changes nothing about what will be left for a retry. */
  lemma {:induction false} PumpRetries(queue: seq<Job>, failed: seq<Job>, replies: seq<Reply>)
    requires |replies| == |queue|
    ensures var p := Pump(queue, failed);
            && |Left(p)| <= |queue|
            && Popped(p)
            && RetryOrder(queue, replies) + failed == RetryOrder(Left(p), Drop(replies, |Left(p)|)) + p.failed
  {
    if queue == [] {
    } else if Decodable(queue[0].recipient) {
      assert [queue[0]] + queue[1..] == queue;
      assert Drop(replies, |queue|) == replies;
    } else {
      PumpRetries(queue[1..], [queue[0]] + failed, replies[1..]);
      var p := Pump(queue, failed);
      assert Drop(replies[1..], |Left(p)|) == Drop(replies, |Left(p)|);
      assert RetryOrder(queue, replies) + failed == RetryOrder(queue[1..], replies[1..]) + ([queue[0]] + failed);
    }
  }

  /** Ledger transfer and reply for each job that can be sent; `replies` has an answer for every job left. */
  function DrainSteps(r: nat, p: Pumped, replies: seq<Reply>): seq<Step>
    requires |replies| == |Left(p)|
    decreases |replies|
  {
    if p.next.None? then []
    else
      var next := Pump(p.queue, FailedAfter(p.next.value, replies[0], p.failed));
      PumpRetries(p.queue, FailedAfter(p.next.value, replies[0], p.failed), replies[1..]);
      [LedgerTransfer(r, replies[0]), CronReply(r)] + DrainSteps(r, next, Drop(replies, |Left(next)|))
  }

  /** Run r is suspended with these jobs, or has put the failed ones back. */
  predicate Stands(w: World, r: nat, p: Pumped) {
    && r < |w.runs| && w.runs[r] == RunAt(p)
    && w.m.queue == if p.next.Some? then p.queue else p.failed
  }

  lemma OneReply(w: World, r: nat, p: Pumped, reply: Reply)
    requires Stands(w, r, p) && p.next.Some? && Enabled(w, LedgerTransfer(r, reply))
    ensures var w1 := Apply(w, LedgerTransfer(r, reply));
            && Enabled(w1, CronReply(r))
            && Stands(Apply(w1, CronReply(r)), r, Pump(p.queue, FailedAfter(p.next.value, reply, p.failed)))
  {
    var (job, after) := (p.next.value, FailedAfter(p.next.value, reply, p.failed));
    var w1 := Apply(w, LedgerTransfer(r, reply));
    assert w1.m == w.m && w1.runs[r] == CronRun(Replied(job, reply), p.failed);
    PumpRetries(p.queue, after, seq(|p.queue|, _ => Paid));
    var next := Pump(p.queue, after);
    assert next.next.None? ==> next.failed + next.queue == next.failed;
  }

  lemma PlayTwo(w: World, a: Step, b: Step, rest: seq<Step>)
    requires Play(w, [a, b] + rest).Some?
    ensures Enabled(w, a) && Enabled(Apply(w, a), b)
    ensures Play(w, [a, b] + rest) == Play(Apply(Apply(w, a), b), rest)
  {
    assert ([a, b] + rest)[1..] == [b] + rest && ([b] + rest)[1..] == rest;
  }

  lemma OneRetry(p: Pumped, replies: seq<Reply>)
    requires p.next.Some? && Popped(p) && |replies| == |Left(p)|
    ensures RetryOrder(Left(p), replies) + p.failed
         == RetryOrder(p.queue, replies[1..]) + FailedAfter(p.next.value, replies[0], p.failed)
  {
    assert Left(p)[1..] == p.queue;
  }

  lemma {:induction false} DrainLeaves(w: World, r: nat, p: Pumped, replies: seq<Reply>)
    requires Stands(w, r, p) && |replies| == |Left(p)| && Popped(p)
    requires Play(w, DrainSteps(r, p, replies)).Some?
    ensures Play(w, DrainSteps(r, p, replies)).value.m.queue == RetryOrder(Left(p), replies) + p.failed
    decreases |replies|
  {
    if p.next.Some? {
      var (job, after) := (p.next.value, FailedAfter(p.next.value, replies[0], p.failed));
      var next := Pump(p.queue, after);
      PumpRetries(p.queue, after, replies[1..]);
      var rest := DrainSteps(r, next, Drop(replies, |Left(next)|));
      PlayTwo(w, LedgerTransfer(r, replies[0]), CronReply(r), rest);
      OneReply(w, r, p, replies[0]);
      var w2 := Apply(Apply(w, LedgerTransfer(r, replies[0])), CronReply(r));
      DrainLeaves(w2, r, next, Drop(replies, |Left(next)|));
      assert Drop(replies[1..], |Left(next)|) == Drop(replies, |Left(next)|);
      OneRetry(p, replies);
    }
  }

  /** The steps of a cron run that is not interrupted, when the ledger answers the jobs in turn as given. */
  function RunSteps(w: World, replies: seq<Reply>): seq<Step>
    requires |replies| == |w.m.queue|
  {
    var p := Pump(w.m.queue, []);
    PumpRetries(w.m.queue, [], replies);
    [CronBegin] + DrainSteps(|w.runs|, p, Drop(replies, |Left(p)|))
  }

  /** Whatever the ledger can answer, such a run leaves exactly the jobs to retry, the last processed first. */
  lemma CronRunLeaves(w: World, replies: seq<Reply>)
    requires CronDue(w.m, w.now) && |replies| == |w.m.queue|
    requires Play(w, RunSteps(w, replies)).Some?
    ensures Play(w, RunSteps(w, replies)).value.m.queue == RetryOrder(w.m.queue, replies)
  {
    var p := Pump(w.m.queue, []);
    PumpRetries(w.m.queue, [], replies);
    var rest := DrainSteps(|w.runs|, p, Drop(replies, |Left(p)|));
    assert RunSteps(w, replies)[1..] == rest && RunSteps(w, replies)[0] == CronBegin;
    var w1 := Apply(w, CronBegin);
    assert p.next.None? ==> p.failed + p.queue == p.failed;
    assert Stands(w1, |w.runs|, p);
    DrainLeaves(w1, |w.runs|, p, Drop(replies, |Left(p)|));
    assert RetryOrder(w.m.queue, replies) + [] == RetryOrder(w.m.queue, replies);
  }
}

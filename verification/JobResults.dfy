/** What GET answers over a run: which result, which error, since when and until when. */
module JobResults {
  import opened Prelude
  import opened JobProtocol

  // ---------------------------------------------------------------- every answer has its cause

  lemma ResultAppears(s: State, e: Event, id: JobId, payload: string)
    requires IdOk(s, id) && Enabled(s, e) && id in Step(s, e).jobs && Step(s, e).jobs[id].result == Some(payload)
    ensures || (id in s.jobs && s.jobs[id].result == Some(payload))
            || (e.Finish? && e.outcome == Transcribed(payload) && s.worker == Busy(id))
  {
  }

  /** A result shown for a job is the one that the worker's transcription of that very job gave. */
  lemma {:induction false} ResultIsReal(states: seq<State>, events: seq<Event>, j: nat, id: JobId, payload: string)
    requires IsRun(states, events) && j < |states|
    requires Observe(states[j], id).Some? && Observe(states[j], id).value.2 == Some(payload)
    ensures exists k :: 0 <= k < j && events[k].Finish? && events[k].outcome == Transcribed(payload) && states[k].worker == Busy(id)
    decreases j
  {
    if j > 0 {
      RunOk(states, events, j - 1);
      assert IdOk(states[j - 1], id);
      ResultAppears(states[j - 1], events[j - 1], id, payload);
      if id in states[j - 1].jobs && states[j - 1].jobs[id].result == Some(payload) {
        ResultIsReal(states, events, j - 1, id, payload);
      }
    }
  }

  lemma FinishErrs(s: State, e: Event, id: JobId, error: JobError)
    requires Enabled(s, e) && e.Finish? && id in Step(s, e).jobs && Step(s, e).jobs[id].error == Some(error)
    ensures id in s.jobs
    ensures || s.jobs[id].error == Some(error)
            || (s.worker == Busy(id) && if s.jobs[id].cancelled then error == Cancelled else e.outcome == Raised(error))
  {
  }

  lemma ErrorAppears(s: State, e: Event, id: JobId, error: JobError)
    requires IdOk(s, id) && Enabled(s, e) && id in Step(s, e).jobs && Step(s, e).jobs[id].error == Some(error)
    ensures || (id in s.jobs && s.jobs[id].error == Some(error))
            || (e.Finish? && s.worker == Busy(id) && id in s.jobs
                && if s.jobs[id].cancelled then error == Cancelled else e.outcome == Raised(error))
  {
    match e
    case Finish(_, _) => FinishErrs(s, e, id, error);
    case Register(_, _) =>
    case Begin(_) =>
    case Delete(_) =>
    case Sweep(_) =>
    case _ => assert Step(s, e).jobs == s.jobs;
  }

  /** The job was deleted while the worker was busy with it, before moment `i`. */
  ghost predicate DeletedWhileBusy(states: seq<State>, events: seq<Event>, i: nat, id: JobId)
    requires |states| == |events| + 1 && i < |states|
  {
    exists d :: 0 <= d < i && events[d] == Event.Delete(id) && states[d].worker == Busy(id)
  }

  lemma BusyHadRecord(s: State, id: JobId)
    requires IdOk(s, id) && s.worker == Busy(id)
    ensures HadRecord(s, id)
  {
  }

  lemma {:induction false} HadRecordOn(states: seq<State>, events: seq<Event>, i: nat, j: nat, id: JobId)
    requires IsRun(states, events) && i <= j < |states| && HadRecord(states[i], id)
    ensures HadRecord(states[j], id)
    decreases j
  {
    if i < j {
      HadRecordOn(states, events, i, j - 1, id);
      HadRecordStays(states[j - 1], events[j - 1], id);
    }
  }

  lemma FinishKeepsMark(s: State, e: Event, id: JobId)
    requires Enabled(s, e) && e.Finish? && id in s.jobs && id in Step(s, e).jobs
    ensures Step(s, e).jobs[id].cancelled <==> s.jobs[id].cancelled
  {
  }

  lemma DeleteMarks(s: State, e: Event, id: JobId)
    requires IdOk(s, id) && e.Delete? && id in s.jobs && id in Step(s, e).jobs
    ensures Step(s, e).jobs[id].cancelled <==> s.jobs[id].cancelled || (e.id == id && s.worker == Busy(id))
  {
  }

  lemma MarkAppears(s: State, e: Event, id: JobId)
    requires IdOk(s, id) && Enabled(s, e) && id in s.jobs && id in Step(s, e).jobs
    ensures Step(s, e).jobs[id].cancelled <==> s.jobs[id].cancelled || (e == Event.Delete(id) && s.worker == Busy(id))
  {
    match e
    case Finish(_, _) => FinishKeepsMark(s, e, id);
    case Delete(_) => DeleteMarks(s, e, id);
    case Register(_, _) =>
    case Begin(_) =>
    case Sweep(_) =>
    case _ => assert Step(s, e).jobs == s.jobs;
  }

  lemma NewIsNotMarked(s: State, e: Event, id: JobId)
    requires IdOk(s, id) && Enabled(s, e) && id !in s.jobs && id in Step(s, e).jobs
    ensures !Step(s, e).jobs[id].cancelled && !HadRecord(s, id)
  {
  }

  lemma NeverBusyBefore(states: seq<State>, events: seq<Event>, i: nat, id: JobId)
    requires IsRun(states, events) && i < |states| && !HadRecord(states[i], id)
    ensures forall d :: 0 <= d <= i ==> states[d].worker != Busy(id)
  {
    forall d | 0 <= d <= i ensures states[d].worker != Busy(id) {
      RunOk(states, events, d);
      assert IdOk(states[d], id);
      if states[d].worker == Busy(id) {
        BusyHadRecord(states[d], id);
        HadRecordOn(states, events, d, i, id);
      }
    }
  }

  /** A record is marked cancelled exactly when its job was deleted while the worker was busy with it. */
  lemma {:induction false} CancelledIffDeleted(states: seq<State>, events: seq<Event>, i: nat, id: JobId)
    requires IsRun(states, events) && i < |states| && id in states[i].jobs
    ensures states[i].jobs[id].cancelled <==> DeletedWhileBusy(states, events, i, id)
    decreases i
  {
    if i > 0 {
      RunOk(states, events, i - 1);
      assert IdOk(states[i - 1], id);
      if id in states[i - 1].jobs {
        CancelledIffDeleted(states, events, i - 1, id);
        MarkAppears(states[i - 1], events[i - 1], id);
        OneMoreDelete(states, events, i, id);
      } else {
        NewIsNotMarked(states[i - 1], events[i - 1], id);
        NeverBusyBefore(states, events, i - 1, id);
      }
    }
  }

  lemma OneMoreDelete(states: seq<State>, events: seq<Event>, i: nat, id: JobId)
    requires |states| == |events| + 1 && 0 < i < |states|
    ensures DeletedWhileBusy(states, events, i, id) <==>
            DeletedWhileBusy(states, events, i - 1, id) || (events[i - 1] == Event.Delete(id) && states[i - 1].worker == Busy(id))
  {
  }

  /** An error shown for a job is the one that the worker raised over that job, unless it says that the job was
      cancelled, and then it was deleted while the worker was busy with it. */
  lemma {:induction false} ErrorIsReal(states: seq<State>, events: seq<Event>, j: nat, id: JobId, error: JobError)
    requires IsRun(states, events) && j < |states|
    requires Observe(states[j], id).Some? && Observe(states[j], id).value.1 == Some(error)
    ensures exists k :: 0 <= k < j && events[k].Finish? && states[k].worker == Busy(id)
                        && if DeletedWhileBusy(states, events, k, id) then error == Cancelled else events[k].outcome == Raised(error)
    decreases j
  {
    if j > 0 {
      RunOk(states, events, j - 1);
      assert IdOk(states[j - 1], id);
      ErrorAppears(states[j - 1], events[j - 1], id, error);
      if id in states[j - 1].jobs && states[j - 1].jobs[id].error == Some(error) {
        ErrorIsReal(states, events, j - 1, id, error);
      } else {
        CancelledIffDeleted(states, events, j - 1, id);
      }
    }
  }

  // ---------------------------------------------------------------- every outcome is shown

  /** What GET answers once the worker is done with a job whose record is still there. */
  function Answer(outcome: Outcome, cancelled: bool): (Status, Option<JobError>, Option<string>) {
    if cancelled then (Failed, Some(Cancelled), None)
    else match outcome
      case Raised(error) => (Failed, Some(error), None)
      case Transcribed(payload) => (Done, None, Some(payload))
  }

  /** Between the two moments the job was not deleted and no sweep had a cutoff after `t`. */
  ghost predicate LeftAlone(events: seq<Event>, k: nat, j: nat, id: JobId, t: real)
    requires j <= |events|
  {
    forall m :: k < m < j ==> events[m] != Event.Delete(id) && (events[m].Sweep? ==> events[m].cutoff <= t)
  }

  lemma LeftAloneOneMore(events: seq<Event>, k: nat, j: nat, id: JobId, t: real)
    requires k + 1 < j <= |events|
    ensures LeftAlone(events, k, j, id, t) <==>
            LeftAlone(events, k, j - 1, id, t)
            && events[j - 1] != Event.Delete(id) && (events[j - 1].Sweep? ==> events[j - 1].cutoff <= t)
  {
  }

  /** A record that no worker will touch again: there exactly while spared, last changed at `t`, with that answer. */
  ghost predicate Settled(s: State, id: JobId, t: real, answer: (Status, Option<JobError>, Option<string>), spared: bool) {
    && HadRecord(s, id) && (answer.0.Done? || answer.0.Failed?)
    && Observe(s, id) == (if spared then Some(answer) else None)
    && (id in s.jobs ==> s.jobs[id].updatedAt == t)
  }

  lemma SettledStep(s: State, e: Event, id: JobId, t: real, answer: (Status, Option<JobError>, Option<string>), spared: bool)
    requires IdOk(s, id) && Enabled(s, e) && Settled(s, id, t, answer, spared)
    ensures Settled(Step(s, e), id, t, answer, spared && e != Event.Delete(id) && (e.Sweep? ==> e.cutoff <= t))
  {
    HadRecordStays(s, e, id);
  }

  lemma FinishSettles(s: State, e: Event, id: JobId)
    requires IdOk(s, id) && Enabled(s, e) && e.Finish? && s.worker == Busy(id) && id in s.jobs
    ensures Settled(Step(s, e), id, e.now, Answer(e.outcome, s.jobs[id].cancelled), true)
  {
    HadRecordStays(s, e, id);
  }

  /** From the moment the worker is done with a job whose record is still there, GET shows exactly that outcome,
      or that it was cancelled if it was deleted meanwhile, until a delete or a sweep with a later cutoff; then nothing. */
  lemma {:induction false} OutcomeIsShown(states: seq<State>, events: seq<Event>, k: nat, j: nat, id: JobId)
    requires IsRun(states, events) && k < j < |states|
    requires events[k].Finish? && states[k].worker == Busy(id) && id in states[k].jobs
    ensures Observe(states[j], id) ==
            if LeftAlone(events, k, j, id, events[k].now)
            then Some(Answer(events[k].outcome, DeletedWhileBusy(states, events, k, id))) else None
  {
    SettledFirst(states, events, k, id);
    SettledSince(states, events, k, j, id, events[k].now, Answer(events[k].outcome, states[k].jobs[id].cancelled));
    CancelledIffDeleted(states, events, k, id);
  }

  lemma {:induction false} SettledSince(states: seq<State>, events: seq<Event>, k: nat, j: nat, id: JobId, t: real,
                                        answer: (Status, Option<JobError>, Option<string>))
    requires IsRun(states, events) && k < j < |states| && Settled(states[k + 1], id, t, answer, true)
    ensures Settled(states[j], id, t, answer, LeftAlone(events, k, j, id, t))
    decreases j
  {
    if j == k + 1 {
      return;
    }
    SettledSince(states, events, k, j - 1, id, t, answer);
    SettledOneMore(states, events, k, j, id, t, answer);
  }

  lemma SettledFirst(states: seq<State>, events: seq<Event>, k: nat, id: JobId)
    requires IsRun(states, events) && k < |events|
    requires events[k].Finish? && states[k].worker == Busy(id) && id in states[k].jobs
    ensures Settled(states[k + 1], id, events[k].now, Answer(events[k].outcome, states[k].jobs[id].cancelled), true)
  {
    RunOk(states, events, k);
    assert IdOk(states[k], id);
    FinishSettles(states[k], events[k], id);
  }

  lemma SettledOneMore(states: seq<State>, events: seq<Event>, k: nat, j: nat, id: JobId, t: real,
                       answer: (Status, Option<JobError>, Option<string>))
    requires IsRun(states, events) && k + 1 < j < |states|
    requires Settled(states[j - 1], id, t, answer, LeftAlone(events, k, j - 1, id, t))
    ensures Settled(states[j], id, t, answer, LeftAlone(events, k, j, id, t))
  {
    RunOk(states, events, j - 1);
    assert IdOk(states[j - 1], id);
    SettledStep(states[j - 1], events[j - 1], id, t, answer, LeftAlone(events, k, j - 1, id, t));
    LeftAloneOneMore(events, k, j, id, t);
  }

  // ---------------------------------------------------------------- before the worker is done

  /** A record not begun yet: queued since `t`, there exactly while spared. */
  ghost predicate Pending(s: State, id: JobId, t: real, spared: bool) {
    && HadRecord(s, id)
    && (s.begun[id] == 0 ==>
          && Observe(s, id) == (if spared then Some((Queued, None, None)) else None)
          && (id in s.jobs ==> s.jobs[id].updatedAt == t))
  }

  lemma PendingStep(s: State, e: Event, id: JobId, t: real, spared: bool)
    requires IdOk(s, id) && Enabled(s, e) && Pending(s, id, t, spared)
    ensures Pending(Step(s, e), id, t, spared && e != Event.Delete(id) && (e.Sweep? ==> e.cutoff <= t))
  {
    HadRecordStays(s, e, id);
  }

  lemma RegisterPends(s: State, e: Event)
    requires e.Register? && IdOk(s, e.id) && Enabled(s, e)
    ensures Pending(Step(s, e), e.id, e.now, true)
  {
  }

  /** From its registration until it is begun a job is shown as queued, unless it is deleted or swept. */
  lemma QueuedIsShown(states: seq<State>, events: seq<Event>, k: nat, j: nat, id: JobId)
    requires IsRun(states, events) && k < j < |states| && events[k].Register? && events[k].id == id
    requires states[j].begun[id] == 0
    ensures Observe(states[j], id) == if LeftAlone(events, k, j, id, events[k].now) then Some((Queued, None, None)) else None
  {
    PendingFirst(states, events, k, id);
    PendingSince(states, events, k, j, id, events[k].now);
  }

  lemma {:induction false} PendingSince(states: seq<State>, events: seq<Event>, k: nat, j: nat, id: JobId, t: real)
    requires IsRun(states, events) && k < j < |states| && Pending(states[k + 1], id, t, true)
    ensures Pending(states[j], id, t, LeftAlone(events, k, j, id, t))
    decreases j
  {
    if j == k + 1 {
      return;
    }
    PendingSince(states, events, k, j - 1, id, t);
    PendingOneMore(states, events, k, j, id, t);
  }

  lemma PendingFirst(states: seq<State>, events: seq<Event>, k: nat, id: JobId)
    requires IsRun(states, events) && k < |events| && events[k].Register? && events[k].id == id
    ensures Pending(states[k + 1], id, events[k].now, true)
  {
    RunOk(states, events, k);
    assert IdOk(states[k], id);
    RegisterPends(states[k], events[k]);
  }

  lemma PendingOneMore(states: seq<State>, events: seq<Event>, k: nat, j: nat, id: JobId, t: real)
    requires IsRun(states, events) && k + 1 < j < |states|
    requires Pending(states[j - 1], id, t, LeftAlone(events, k, j - 1, id, t))
    ensures Pending(states[j], id, t, LeftAlone(events, k, j, id, t))
  {
    RunOk(states, events, j - 1);
    assert IdOk(states[j - 1], id);
    PendingStep(states[j - 1], events[j - 1], id, t, LeftAlone(events, k, j - 1, id, t));
    LeftAloneOneMore(events, k, j, id, t);
  }

  /** While the worker is busy with a job begun at `t`, it is shown as being processed, unless a sweep purged it. */
  lemma BusyIsShown(states: seq<State>, events: seq<Event>, b: nat, i: nat, id: JobId)
    requires IsRun(states, events) && b < i < |states| && events[b].Begin?
    requires forall k :: b < k <= i ==> states[k].worker == Busy(id)
    ensures Observe(states[i], id) == if SparedSince(events, b, i, events[b].now) then Some((Processing, None, None)) else None
  {
    BusySince(states, events, b, i, id, events[b].now);
    RunOk(states, events, i);
    assert IdOk(states[i], id);
  }

  // ---------------------------------------------------------------- first queued, first taken

  ghost predicate TakenBefore(states: seq<State>, events: seq<Event>, m: nat, id: JobId)
    requires |states| == |events| + 1 && m < |states|
  {
    exists n :: 0 <= n < m && events[n].Take? && states[n + 1].worker == Holding(id)
  }

  ghost predicate InQueueAhead(s: State, a: JobId, b: JobId) {
    exists p, q :: 0 <= p < q < |s.workQueue| && s.workQueue[p] == a && s.workQueue[q] == b
  }

  /** A job in the queue stays there until it is taken. */
  lemma QueuedStep(s: State, e: Event, id: JobId)
    requires Enabled(s, e) && id in s.workQueue
    ensures id in Step(s, e).workQueue || (e.Take? && Step(s, e).worker == Holding(id))
  {
    if e.Take? {
      assert s.workQueue == [s.workQueue[0]] + s.workQueue[1..];
    }
  }

  lemma AheadStep(s: State, e: Event, a: JobId, b: JobId)
    requires Enabled(s, e) && InQueueAhead(s, a, b)
    ensures InQueueAhead(Step(s, e), a, b) || (e.Take? && Step(s, e).worker == Holding(a))
  {
    var p, q :| 0 <= p < q < |s.workQueue| && s.workQueue[p] == a && s.workQueue[q] == b;
    var queue := Step(s, e).workQueue;
    if e.Take? {
      assert p > 0 ==> queue[p - 1] == a && queue[q - 1] == b;
    } else {
      assert queue[p] == a && queue[q] == b;
    }
  }

  lemma TakenOneMore(states: seq<State>, events: seq<Event>, m: nat, id: JobId)
    requires |states| == |events| + 1 && 0 < m < |states|
    requires TakenBefore(states, events, m - 1, id) || (events[m - 1].Take? && states[m].worker == Holding(id))
    ensures TakenBefore(states, events, m, id)
  {
  }

  lemma {:induction false} QueuedUntilTaken(states: seq<State>, events: seq<Event>, i: nat, m: nat, id: JobId)
    requires IsRun(states, events) && i < m < |states| && events[i] == Enqueue(id)
    ensures TakenBefore(states, events, m, id) || id in states[m].workQueue
    decreases m
  {
    if i + 1 < m {
      QueuedUntilTaken(states, events, i, m - 1, id);
      if TakenBefore(states, events, m - 1, id) {
        TakenOneMore(states, events, m, id);
      } else {
        QueuedStep(states[m - 1], events[m - 1], id);
        if id !in states[m].workQueue {
          TakenOneMore(states, events, m, id);
        }
      }
    }
  }

  lemma EnqueueGoesBehind(s: State, a: JobId, b: JobId)
    requires Enabled(s, Enqueue(b)) && a in s.workQueue
    ensures InQueueAhead(Step(s, Enqueue(b)), a, b)
  {
    var p :| 0 <= p < |s.workQueue| && s.workQueue[p] == a;
    var queue := Step(s, Enqueue(b)).workQueue;
    assert queue[p] == a && queue[|s.workQueue|] == b;
  }

  lemma {:induction false} AheadUntilTaken(states: seq<State>, events: seq<Event>, i: nat, j: nat, m: nat, a: JobId, b: JobId)
    requires IsRun(states, events) && i < j < m < |states| && events[i] == Enqueue(a) && events[j] == Enqueue(b)
    ensures TakenBefore(states, events, m, a) || InQueueAhead(states[m], a, b)
    decreases m
  {
    if j + 1 == m {
      QueuedUntilTaken(states, events, i, j, a);
      if TakenBefore(states, events, j, a) {
        TakenOneMore(states, events, m, a);
      } else {
        EnqueueGoesBehind(states[j], a, b);
      }
    } else {
      AheadUntilTaken(states, events, i, j, m - 1, a, b);
      if TakenBefore(states, events, m - 1, a) {
        TakenOneMore(states, events, m, a);
      } else {
        AheadStep(states[m - 1], events[m - 1], a, b);
        if !InQueueAhead(states[m], a, b) {
          TakenOneMore(states, events, m, a);
        }
      }
    }
  }

  lemma NotNextIfBehind(s: State, a: JobId, b: JobId)
    requires TokensOk(s) && InQueueAhead(s, a, b)
    ensures s.workQueue[0] != b
  {
    var p, q :| 0 <= p < q < |s.workQueue| && s.workQueue[p] == a && s.workQueue[q] == b;
    assert s.workQueue[0] != s.workQueue[q];
  }

  /** Of two jobs the worker takes the one queued earlier first. */
  lemma FirstQueuedFirstTaken(states: seq<State>, events: seq<Event>, i: nat, j: nat, m: nat, a: JobId, b: JobId)
    requires IsRun(states, events) && i < j < m < |events| && events[i] == Enqueue(a) && events[j] == Enqueue(b)
    requires events[m].Take? && states[m + 1].worker == Holding(b)
    ensures TakenBefore(states, events, m, a)
  {
    AheadUntilTaken(states, events, i, j, m, a, b);
    if !TakenBefore(states, events, m, a) {
      RunOk(states, events, m);
      NotNextIfBehind(states[m], a, b);
    }
  }
}

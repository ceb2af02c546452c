/** The transcription sidecar's job registry, queue, worker and sweeper, as atomic steps. A step is what
    happens between two points where another thread may run: submission is split around the registry
    lock, and the worker's take from the queue is separate from its first look at the record. */
module JobProtocol {
  import opened Prelude

  /** Submission ids and directory paths are opaque tokens. */
  datatype JobId = JobId(token: nat)
  datatype Dir = Dir(token: nat)

  datatype Status = Queued | Processing | Done | Failed

  datatype JobError = Cancelled | Reported(code: string, message: string)

  /** What the transcription pipeline made of a job. */
  datatype Outcome = Transcribed(payload: string) | Raised(error: JobError)

  datatype Job = Job(status: Status, updatedAt: real, tmpdir: Option<Dir>,
                     error: Option<JobError>, result: Option<string>, cancelled: bool)

  /** Where a submission handler is: writing the upload, or registered but not yet queued. */
  datatype Handler = Uploading(dir: Dir) | Registered

  datatype Worker = Idle | Holding(id: JobId) | Busy(id: JobId)

  /** `received` remembers the directory made for each submission ever begun, `removed` counts
      directory removals and `begun` processing starts. */
  datatype State = State(
    jobs: map<JobId, Job>, workQueue: seq<JobId>, handlers: map<JobId, Handler>, worker: Worker,
    received: map<JobId, Dir>, removed: multiset<Dir>, begun: multiset<JobId>)

  datatype Event =
    | Receive(id: JobId, dir: Dir)
    | UploadFails(id: JobId)
    | Register(id: JobId, now: real)
    | Enqueue(id: JobId)
    | Take
    | Begin(now: real)
    | Finish(outcome: Outcome, now: real)
    | Delete(id: JobId)
    | Sweep(cutoff: real)

  const INIT := State(map[], [], map[], Idle, map[], multiset{}, multiset{})

  /** A new submission gets an id and a directory no other submission had. */
  predicate Enabled(s: State, e: Event) {
    match e
    case Receive(id, dir) => id !in s.received && dir !in s.received.Values
    case UploadFails(id) => id in s.handlers && s.handlers[id].Uploading?
    case Register(id, _) => id in s.handlers && s.handlers[id].Uploading?
    case Enqueue(id) => id in s.handlers && s.handlers[id].Registered?
    case Take => s.worker.Idle? && |s.workQueue| > 0
    case Begin(_) => s.worker.Holding?
    case Finish(_, _) => s.worker.Busy?
    case Delete(_) => true
    case Sweep(_) => true
  }

  function DirOf(j: Job): multiset<Dir> {
    if j.tmpdir.Some? then multiset{j.tmpdir.value} else multiset{}
  }

  /** The record the worker leaves behind. */
  function Finished(j: Job, outcome: Outcome, now: real): Job {
    if j.cancelled then j.(tmpdir := None, status := Failed, error := Some(Cancelled), updatedAt := now)
    else match outcome
      case Raised(err) => j.(tmpdir := None, status := Failed, error := Some(err), updatedAt := now)
      case Transcribed(p) => j.(tmpdir := None, status := Done, result := Some(p), updatedAt := now)
  }

  function Expired(jobs: map<JobId, Job>, cutoff: real): set<JobId> {
    set id | id in jobs && jobs[id].updatedAt < cutoff
  }

  /** The directories the records of `ids` still own. */
  ghost function DirsOf(jobs: map<JobId, Job>, ids: set<JobId>): (ds: multiset<Dir>)
    requires ids <= jobs.Keys
  {
    if ids == {} then multiset{}
    else
      var id := Pick(ids);
      DirsOf(jobs, ids - {id}) + DirOf(jobs[id])
  }

  ghost function Pick<T>(ids: set<T>): (id: T)
    requires ids != {}
    ensures id in ids
  {
    var id :| id in ids; id
  }

  lemma KeyOf<K, V>(m: map<K, V>, v: V) returns (k: K)
    requires v in m.Values
    ensures k in m && m[k] == v
  {
    k :| k in m && m[k] == v;
  }

  ghost function Step(s: State, e: Event): State
    requires Enabled(s, e)
  {
    match e
    case Receive(id, dir) =>
      s.(handlers := s.handlers[id := Uploading(dir)], received := s.received[id := dir])
    case UploadFails(id) =>
      s.(handlers := s.handlers - {id}, removed := s.removed + multiset{s.handlers[id].dir})
    case Register(id, now) =>
      s.(handlers := s.handlers[id := Registered],
         jobs := s.jobs[id := Job(Queued, now, Some(s.handlers[id].dir), None, None, false)])
    case Enqueue(id) =>
      s.(handlers := s.handlers - {id}, workQueue := s.workQueue + [id])
    case Take =>
      s.(worker := Holding(s.workQueue[0]), workQueue := s.workQueue[1..])
    case Begin(now) =>
      var id := s.worker.id;
      if id in s.jobs && s.jobs[id].status == Queued then
        s.(worker := Busy(id), begun := s.begun + multiset{id},
           jobs := s.jobs[id := s.jobs[id].(status := Processing, updatedAt := now)])
      else s.(worker := Idle)
    case Finish(outcome, now) =>
      var id := s.worker.id;
      if id in s.jobs then
        s.(worker := Idle, removed := s.removed + DirOf(s.jobs[id]),
           jobs := s.jobs[id := Finished(s.jobs[id], outcome, now)])
      else s.(worker := Idle)
    case Delete(id) =>
      if id !in s.jobs then s
      else if s.jobs[id].status == Processing then s.(jobs := s.jobs[id := s.jobs[id].(cancelled := true)])
      else s.(removed := s.removed + DirOf(s.jobs[id]), jobs := s.jobs - {id})
    case Sweep(cutoff) =>
      s.(removed := s.removed + DirsOf(s.jobs, Expired(s.jobs, cutoff)), jobs := s.jobs - Expired(s.jobs, cutoff))
  }

  // ---------------------------------------------------------------- the invariant

  /** Is the submission's directory still somebody's to remove? */
  ghost predicate Owned(s: State, id: JobId) {
    (id in s.handlers && s.handlers[id].Uploading?) || (id in s.jobs && s.jobs[id].tmpdir.Some?)
  }

  /** Is the submission still on its way to the worker? */
  ghost predicate Waiting(s: State, id: JobId) {
    id in s.handlers || id in s.workQueue || s.worker == Holding(id)
  }

  /** A record agrees with its status, and only an unfinished one owns its directory. */
  ghost predicate RecordOk(s: State, id: JobId)
    requires id in s.jobs && id in s.received
  {
    var j := s.jobs[id];
    && j.tmpdir == (if j.status.Queued? || j.status.Processing? then Some(s.received[id]) else None)
    && (j.status.Done? <==> j.result.Some?)
    && (j.status.Failed? <==> j.error.Some?)
    && (j.cancelled ==> j.status.Processing? || j.error == Some(Cancelled))
    && (j.status.Processing? <==> s.worker == Busy(id))
    && (j.status.Queued? ==> Waiting(s, id))
  }

  /** A submission is in one place at a time, is begun at most once, and has its directory removed
      exactly once after nobody owns it. */
  ghost predicate PlaceOk(s: State, id: JobId) {
    && s.begun[id] <= 1
    && (Waiting(s, id) ==> s.begun[id] == 0)
    && (s.worker == Busy(id) ==> s.begun[id] == 1)
    && (id in s.handlers ==> id !in s.workQueue && s.worker != Holding(id))
    && (id in s.workQueue ==> s.worker != Holding(id))
    && (id in s.handlers && s.handlers[id].Uploading? ==> id !in s.jobs)
  }

  ghost predicate IdOk(s: State, id: JobId) {
    if id in s.received then
      && PlaceOk(s, id)
      && (id in s.jobs ==> RecordOk(s, id))
      && (id in s.handlers && s.handlers[id].Uploading? ==> s.handlers[id].dir == s.received[id])
      && s.removed[s.received[id]] == if Owned(s, id) then 0 else 1
    else !Waiting(s, id) && id !in s.jobs && s.worker != Busy(id) && s.begun[id] == 0
  }

  ghost predicate TokensOk(s: State) {
    && (forall a, b :: a in s.received && b in s.received && s.received[a] == s.received[b] ==> a == b)
    && (forall d :: d in s.removed ==> d in s.received.Values)
    && (forall i, j :: 0 <= i < j < |s.workQueue| ==> s.workQueue[i] != s.workQueue[j])
  }

  ghost predicate Inv(s: State) {
    TokensOk(s) && forall id :: IdOk(s, id)
  }

  lemma InitOk()
    ensures Inv(INIT)
  {
  }

  // ---------------------------------------------------------------- every step keeps it

  lemma SubmissionStep(s: State, e: Event, id: JobId)
    requires Enabled(s, e) && (e.Receive? || e.UploadFails? || e.Register?)
    requires TokensOk(s) && IdOk(s, id) && IdOk(s, e.id)
    ensures IdOk(Step(s, e), id)
  {
  }

  lemma QueueStep(s: State, e: Event, id: JobId)
    requires Enabled(s, e) && (e.Enqueue? || e.Take?)
    requires TokensOk(s) && IdOk(s, id)
    ensures IdOk(Step(s, e), id)
  {
    if e.Take? {
      assert s.workQueue == [s.workQueue[0]] + s.workQueue[1..];
    }
  }

  lemma BeginStep(s: State, e: Event, id: JobId)
    requires Enabled(s, e) && e.Begin?
    requires TokensOk(s) && IdOk(s, id) && IdOk(s, s.worker.id)
    ensures IdOk(Step(s, e), id)
  {
  }

  lemma FinishStep(s: State, e: Event, id: JobId)
    requires Enabled(s, e) && e.Finish?
    requires TokensOk(s) && IdOk(s, id) && IdOk(s, s.worker.id)
    ensures IdOk(Step(s, e), id)
  {
  }

  lemma DeleteOwnStep(s: State, e: Event)
    requires e.Delete? && IdOk(s, e.id)
    ensures IdOk(Step(s, e), e.id)
  {
  }

  lemma DeleteStep(s: State, e: Event, id: JobId)
    requires e.Delete?
    requires TokensOk(s) && IdOk(s, id) && IdOk(s, e.id)
    ensures IdOk(Step(s, e), id)
  {
    if id == e.id {
      DeleteOwnStep(s, e);
    }
  }

  /** A sweep removes each directory that an expired record owns exactly once. */
  lemma {:induction false} SweptDirs(s: State, ids: set<JobId>, d: Dir, owner: JobId)
    requires ids <= s.jobs.Keys
    requires forall x :: x in ids && s.jobs[x].tmpdir == Some(d) ==> x == owner
    ensures DirsOf(s.jobs, ids)[d] == if owner in ids && s.jobs[owner].tmpdir == Some(d) then 1 else 0
    decreases ids
  {
    if ids != {} {
      SweptDirs(s, ids - {Pick(ids)}, d, owner);
    }
  }

  lemma SweepStep(s: State, e: Event, id: JobId)
    requires e.Sweep? && Inv(s)
    ensures IdOk(Step(s, e), id)
  {
    var gone := Expired(s.jobs, e.cutoff);
    assert IdOk(s, id);
    if id in s.received {
      forall x | x in gone && s.jobs[x].tmpdir == Some(s.received[id]) ensures x == id {
        assert IdOk(s, x);
      }
      SweptDirs(s, gone, s.received[id], id);
    }
  }

  lemma {:induction false} SweptKnown(s: State, ids: set<JobId>)
    requires Inv(s) && ids <= s.jobs.Keys
    ensures forall d :: d in DirsOf(s.jobs, ids) ==> d in s.received.Values
    decreases ids
  {
    if ids != {} {
      SweptKnown(s, ids - {Pick(ids)});
      assert IdOk(s, Pick(ids));
    }
  }

  lemma ReceiveTokens(s: State, e: Event)
    requires Inv(s) && Enabled(s, e) && e.Receive?
    ensures TokensOk(Step(s, e))
  {
    forall d | d in s.removed ensures d in s.received[e.id := e.dir].Values {
      var x := KeyOf(s.received, d);
      assert s.received[e.id := e.dir][x] == d;
    }
  }

  lemma FinishTokens(s: State, e: Event)
    requires TokensOk(s) && Enabled(s, e) && e.Finish? && IdOk(s, s.worker.id)
    ensures TokensOk(Step(s, e))
  {
  }

  lemma DeleteTokens(s: State, e: Event)
    requires TokensOk(s) && Enabled(s, e) && e.Delete? && IdOk(s, e.id)
    ensures TokensOk(Step(s, e))
  {
  }

  lemma SweepTokens(s: State, e: Event)
    requires Inv(s) && e.Sweep?
    ensures TokensOk(Step(s, e))
  {
    SweptKnown(s, Expired(s.jobs, e.cutoff));
  }

  lemma TokensStep(s: State, e: Event)
    requires Inv(s) && Enabled(s, e) && !e.Receive?
    ensures TokensOk(Step(s, e))
  {
    match e
    case UploadFails(id) => assert IdOk(s, id);
    case Register(_, _) =>
    case Enqueue(id) => assert IdOk(s, id);
    case Take =>
    case Begin(_) =>
    case Finish(_, _) => assert IdOk(s, s.worker.id); FinishTokens(s, e);
    case Delete(id) => assert IdOk(s, id); DeleteTokens(s, e);
    case Sweep(_) => SweepTokens(s, e);
  }

  /** Every enabled step keeps the invariant. */
  lemma StepOk(s: State, e: Event)
    requires Inv(s) && Enabled(s, e)
    ensures Inv(Step(s, e))
  {
    if e.Receive? {
      ReceiveTokens(s, e);
    } else {
      TokensStep(s, e);
    }
    forall id ensures IdOk(Step(s, e), id) {
      assert IdOk(s, id);
      match e
      case Receive(x, _) => assert IdOk(s, x); SubmissionStep(s, e, id);
      case UploadFails(x) => assert IdOk(s, x); SubmissionStep(s, e, id);
      case Register(x, _) => assert IdOk(s, x); SubmissionStep(s, e, id);
      case Enqueue(_) => QueueStep(s, e, id);
      case Take => QueueStep(s, e, id);
      case Begin(_) => assert IdOk(s, s.worker.id); BeginStep(s, e, id);
      case Finish(_, _) => assert IdOk(s, s.worker.id); FinishStep(s, e, id);
      case Delete(x) => assert IdOk(s, x); DeleteStep(s, e, id);
      case Sweep(_) => SweepStep(s, e, id);
    }
  }

  // ---------------------------------------------------------------- runs

  /** A run from start-up: any interleaving of enabled steps. */
  ghost predicate IsRun(states: seq<State>, events: seq<Event>) {
    && |states| == |events| + 1 && states[0] == INIT
    && forall i {:trigger events[i]} :: 0 <= i < |events| ==> Enabled(states[i], events[i]) && states[i + 1] == Step(states[i], events[i])
  }

  lemma {:induction false} RunOk(states: seq<State>, events: seq<Event>, i: nat)
    requires IsRun(states, events) && i < |states|
    ensures Inv(states[i])
  {
    if i == 0 {
      InitOk();
    } else {
      RunOk(states, events, i - 1);
      StepOk(states[i - 1], events[i - 1]);
    }
  }

  /** At any moment of any run, at most one record is being processed, and the worker holds it. */
  lemma OneAtATime(states: seq<State>, events: seq<Event>, i: nat, a: JobId, b: JobId)
    requires IsRun(states, events) && i < |states|
    requires a in states[i].jobs && states[i].jobs[a].status.Processing?
    requires b in states[i].jobs && states[i].jobs[b].status.Processing?
    ensures a == b && states[i].worker == Busy(a)
  {
    RunOk(states, events, i);
    assert IdOk(states[i], a) && IdOk(states[i], b);
  }

  /** No job is ever begun twice, and a job still queued is still on its way to the worker. */
  lemma BegunOnceNeverLost(states: seq<State>, events: seq<Event>, i: nat, id: JobId)
    requires IsRun(states, events) && i < |states|
    ensures states[i].begun[id] <= 1
    ensures id in states[i].jobs && states[i].jobs[id].status.Queued? ==>
              Waiting(states[i], id) && states[i].begun[id] == 0
  {
    RunOk(states, events, i);
    assert IdOk(states[i], id);
  }

  /** The directory of a submission is removed at most once: not while its handler or an unfinished
      record owns it, exactly once as soon as none does. */
  lemma DirectoriesRemovedOnce(states: seq<State>, events: seq<Event>, i: nat, id: JobId)
    requires IsRun(states, events) && i < |states| && id in states[i].received
    ensures states[i].removed[states[i].received[id]] == if Owned(states[i], id) then 0 else 1
    ensures Owned(states[i], id) <==>
              || (id in states[i].handlers && states[i].handlers[id].Uploading?)
              || (id in states[i].jobs && (states[i].jobs[id].status.Queued? || states[i].jobs[id].status.Processing?))
  {
    RunOk(states, events, i);
    assert IdOk(states[i], id);
  }

  /** While the worker is busy with a job its files are there exactly as long as its record is: the
      sweeper may purge both under a long transcription. */
  lemma BusyFilesIffRecord(states: seq<State>, events: seq<Event>, i: nat)
    requires IsRun(states, events) && i < |states| && states[i].worker.Busy?
    ensures var s := states[i];
            s.worker.id in s.received
            && (s.removed[s.received[s.worker.id]] == 0 <==> s.worker.id in s.jobs)
  {
    RunOk(states, events, i);
    assert IdOk(states[i], states[i].worker.id);
  }

  /** No sweep between the two moments has a cutoff after `t`. */
  ghost predicate SparedSince(events: seq<Event>, b: nat, i: nat, t: real)
    requires i <= |events|
  {
    forall k :: b < k < i && events[k].Sweep? ==> events[k].cutoff <= t
  }

  /** The record a busy worker began at `t` is still there, as begun, unless a sweep cut it off. */
  ghost predicate BusyRecord(s: State, id: JobId, t: real, spared: bool) {
    (id in s.jobs <==> spared) && (id in s.jobs ==> s.jobs[id].status.Processing? && s.jobs[id].updatedAt == t)
  }

  lemma BusyStep(s: State, e: Event, id: JobId, t: real, spared: bool)
    requires Enabled(s, e) && IdOk(s, id) && s.worker == Busy(id) && Step(s, e).worker == Busy(id)
    requires BusyRecord(s, id, t, spared)
    ensures BusyRecord(Step(s, e), id, t, spared && (e.Sweep? ==> e.cutoff <= t))
  {
  }

  lemma BeginMakesRecord(s: State, t: real, id: JobId)
    requires Enabled(s, Begin(t)) && Step(s, Begin(t)).worker == Busy(id)
    ensures BusyRecord(Step(s, Begin(t)), id, t, true)
  {
  }

  lemma {:induction false} BusySince(states: seq<State>, events: seq<Event>, b: nat, i: nat, id: JobId, t: real)
    requires IsRun(states, events) && b < i < |states| && events[b] == Begin(t)
    requires forall k :: b < k <= i ==> states[k].worker == Busy(id)
    ensures BusyRecord(states[i], id, t, SparedSince(events, b, i, t))
    decreases i
  {
    if i == b + 1 {
      BusyAtFirst(states, events, b, id, t);
      return;
    }
    BusySince(states, events, b, i - 1, id, t);
    BusyOneMore(states, events, b, i, id, t);
  }

  lemma BusyOneMore(states: seq<State>, events: seq<Event>, b: nat, i: nat, id: JobId, t: real)
    requires IsRun(states, events) && b + 1 < i < |states|
    requires states[i - 1].worker == Busy(id) && states[i].worker == Busy(id)
    requires BusyRecord(states[i - 1], id, t, SparedSince(events, b, i - 1, t))
    ensures BusyRecord(states[i], id, t, SparedSince(events, b, i, t))
  {
    BusyNext(states, events, i - 1, id, t, SparedSince(events, b, i - 1, t));
    SparedOneMore(events, b, i, t);
  }

  lemma BusyAtFirst(states: seq<State>, events: seq<Event>, b: nat, id: JobId, t: real)
    requires IsRun(states, events) && b < |events| && events[b] == Begin(t) && states[b + 1].worker == Busy(id)
    ensures SparedSince(events, b, b + 1, t) && BusyRecord(states[b + 1], id, t, true)
  {
    BeginMakesRecord(states[b], t, id);
  }

  lemma BusyNext(states: seq<State>, events: seq<Event>, i: nat, id: JobId, t: real, spared: bool)
    requires IsRun(states, events) && i < |events| && states[i].worker == Busy(id) && states[i + 1].worker == Busy(id)
    requires BusyRecord(states[i], id, t, spared)
    ensures BusyRecord(states[i + 1], id, t, spared && (events[i].Sweep? ==> events[i].cutoff <= t))
  {
    RunOk(states, events, i);
    assert IdOk(states[i], id);
    BusyStep(states[i], events[i], id, t, spared);
  }

  lemma SparedOneMore(events: seq<Event>, b: nat, i: nat, t: real)
    requires b + 1 < i <= |events|
    ensures SparedSince(events, b, i, t) <==>
            SparedSince(events, b, i - 1, t) && (events[i - 1].Sweep? ==> events[i - 1].cutoff <= t)
  {
  }

  /** The files of a job begun at `t` are there under the busy worker exactly as long as no sweep since
      then had a cutoff after `t`. */
  lemma BusyFilesIffSpared(states: seq<State>, events: seq<Event>, b: nat, i: nat, id: JobId, t: real)
    requires IsRun(states, events) && b < i < |states| && events[b] == Begin(t)
    requires forall k :: b < k <= i ==> states[k].worker == Busy(id)
    ensures id in states[i].received
    ensures states[i].removed[states[i].received[id]] == 0 <==>
            forall k :: b < k < i && events[k].Sweep? ==> events[k].cutoff <= t
  {
    BusyFilesIffRecord(states, events, i);
    BusySince(states, events, b, i, id, t);
  }

  /** A run in which the files vanish while the worker reads them. */
  lemma FilesCanVanishUnderWorker() returns (states: seq<State>, events: seq<Event>)
    ensures IsRun(states, events)
    ensures var s := states[|states| - 1];
            s.worker.Busy? && s.worker.id in s.received && s.removed[s.received[s.worker.id]] == 1
  {
    var id, dir := JobId(1), Dir(7);
    states, events := [INIT], [];
    states, events := Extend(states, events, Receive(id, dir));
    states, events := Extend(states, events, Register(id, 0.0));
    states, events := Extend(states, events, Enqueue(id));
    states, events := Extend(states, events, Take);
    states, events := Extend(states, events, Begin(0.0));
    assert Expired(states[|states| - 1].jobs, 1.0) == {id};
    states, events := Extend(states, events, Sweep(1.0));
    BusyFilesIffRecord(states, events, |events|);
    DirectoriesRemovedOnce(states, events, |events|, id);
  }

  lemma Extend(states: seq<State>, events: seq<Event>, e: Event) returns (states': seq<State>, events': seq<Event>)
    requires IsRun(states, events) && Enabled(states[|events|], e)
    ensures IsRun(states', events') && |events'| == |events| + 1
    ensures states'[|events'|] == Step(states[|events|], e)
  {
    states', events' := states + [Step(states[|events|], e)], events + [e];
  }

  // ---------------------------------------------------------------- status and cancellation

  /** Status only moves queued, processing, then done or failed. */
  ghost predicate Moves(a: Status, b: Status) {
    a == b || (a.Queued? && b.Processing?) || (a.Processing? && (b.Done? || b.Failed?))
  }

  lemma RegisterMoves(s: State, e: Event, id: JobId)
    requires IdOk(s, id) && Enabled(s, e) && e.Register? && id in s.jobs && id in Step(s, e).jobs
    ensures Moves(s.jobs[id].status, Step(s, e).jobs[id].status)
  {
  }

  lemma BeginMoves(s: State, e: Event, id: JobId)
    requires IdOk(s, id) && Enabled(s, e) && e.Begin? && id in s.jobs && id in Step(s, e).jobs
    ensures Moves(s.jobs[id].status, Step(s, e).jobs[id].status)
  {
  }

  lemma FinishMoves(s: State, e: Event, id: JobId)
    requires IdOk(s, id) && Enabled(s, e) && e.Finish? && id in s.jobs && id in Step(s, e).jobs
    ensures Moves(s.jobs[id].status, Step(s, e).jobs[id].status)
  {
  }

  lemma DeleteMoves(s: State, e: Event, id: JobId)
    requires IdOk(s, id) && Enabled(s, e) && e.Delete? && id in s.jobs && id in Step(s, e).jobs
    ensures Moves(s.jobs[id].status, Step(s, e).jobs[id].status)
  {
  }

  lemma SweepMoves(s: State, e: Event, id: JobId)
    requires IdOk(s, id) && Enabled(s, e) && e.Sweep? && id in s.jobs && id in Step(s, e).jobs
    ensures Moves(s.jobs[id].status, Step(s, e).jobs[id].status)
  {
  }

  lemma StatusMoves(s: State, e: Event, id: JobId)
    requires IdOk(s, id) && Enabled(s, e) && id in s.jobs && id in Step(s, e).jobs
    ensures Moves(s.jobs[id].status, Step(s, e).jobs[id].status)
  {
    match e
    case Register(_, _) => RegisterMoves(s, e, id);
    case Begin(_) => BeginMoves(s, e, id);
    case Finish(_, _) => FinishMoves(s, e, id);
    case Delete(_) => DeleteMoves(s, e, id);
    case Sweep(_) => SweepMoves(s, e, id);
    case _ => assert Step(s, e).jobs == s.jobs;
  }

  ghost predicate NoEarlier(a: Status, b: Status) {
    Rank(a) <= Rank(b) && (Rank(a) == 2 ==> a == b)
  }

  lemma NextStatus(states: seq<State>, events: seq<Event>, j: nat, id: JobId)
    requires IsRun(states, events) && j + 1 < |states| && id in states[j].jobs && id in states[j + 1].jobs
    ensures NoEarlier(states[j].jobs[id].status, states[j + 1].jobs[id].status)
  {
    RunOk(states, events, j);
    assert IdOk(states[j], id);
    StatusMoves(states[j], events[j], id);
  }

  lemma RecordInBetween(states: seq<State>, events: seq<Event>, i: nat, j: nat, id: JobId)
    requires IsRun(states, events) && i <= j && j + 1 < |states| && id in states[i].jobs && id in states[j + 1].jobs
    ensures id in states[j].jobs
  {
    RunOk(states, events, j);
    assert IdOk(states[j], id);
    HadRecordUntil(states, events, i, j, id);
    HadRecordStays(states[j], events[j], id);
  }

  lemma NoEarlierTransitive(a: Status, b: Status, c: Status)
    requires NoEarlier(a, b) && NoEarlier(b, c)
    ensures NoEarlier(a, c)
  {
  }

  /** From any moment of a run to any later one, as long as the record is there. */
  lemma {:induction false} StatusNeverGoesBack(states: seq<State>, events: seq<Event>, i: nat, j: nat, id: JobId)
    requires IsRun(states, events) && i <= j < |states| && id in states[i].jobs && id in states[j].jobs
    ensures NoEarlier(states[i].jobs[id].status, states[j].jobs[id].status)
    ensures states[i].jobs[id].status.Processing? ==> !states[j].jobs[id].status.Queued?
    ensures states[i].jobs[id].status.Done? || states[i].jobs[id].status.Failed? ==>
              states[j].jobs[id].status == states[i].jobs[id].status
    decreases j
  {
    if i == j {
      assert states[i] == states[j];
    } else {
      RecordInBetween(states, events, i, j - 1, id);
      StatusNeverGoesBack(states, events, i, j - 1, id);
      NextStatus(states, events, j - 1, id);
      NoEarlierTransitive(states[i].jobs[id].status, states[j - 1].jobs[id].status, states[j].jobs[id].status);
    }
  }

  /** An id that has had a record never gets another one. */
  ghost predicate HadRecord(s: State, id: JobId) {
    id in s.received && !(id in s.handlers && s.handlers[id].Uploading?)
  }

  lemma HadRecordStays(s: State, e: Event, id: JobId)
    requires Enabled(s, e) && HadRecord(s, id)
    ensures HadRecord(Step(s, e), id)
    ensures id !in s.jobs ==> id !in Step(s, e).jobs
  {
  }

  lemma {:induction false} HadRecordUntil(states: seq<State>, events: seq<Event>, i: nat, j: nat, id: JobId)
    requires IsRun(states, events) && i <= j < |states| && id in states[i].jobs
    ensures HadRecord(states[j], id)
    decreases j
  {
    if i == j {
      RunOk(states, events, i);
      assert IdOk(states[i], id);
    } else {
      HadRecordUntil(states, events, i, j - 1, id);
      HadRecordStays(states[j - 1], events[j - 1], id);
    }
  }

  ghost function Rank(s: Status): nat {
    match s
    case Queued => 0
    case Processing => 1
    case _ => 2
  }

  /** What GET answers about a job. */
  function Observe(s: State, id: JobId): Option<(Status, Option<JobError>, Option<string>)> {
    if id in s.jobs then Some((s.jobs[id].status, s.jobs[id].error, s.jobs[id].result)) else None
  }

  /** A result is shown exactly for finished jobs and an error exactly for failed ones. */
  lemma ObservationsAgree(states: seq<State>, events: seq<Event>, i: nat, id: JobId)
    requires IsRun(states, events) && i < |states| && Observe(states[i], id).Some?
    ensures var o := Observe(states[i], id).value; (o.2.Some? <==> o.0.Done?) && (o.1.Some? <==> o.0.Failed?)
  {
    RunOk(states, events, i);
    assert IdOk(states[i], id);
  }

  /** A job that is gone for good, or is cancelled and can no longer show a result. */
  ghost predicate Withdrawn(s: State, id: JobId) {
    if id in s.jobs then s.jobs[id].cancelled
    else id in s.received && !(id in s.handlers && s.handlers[id].Uploading?)
  }

  lemma WithdrawnStays(s: State, e: Event, id: JobId)
    requires Inv(s) && Enabled(s, e) && Withdrawn(s, id)
    ensures Withdrawn(Step(s, e), id)
  {
    assert IdOk(s, id);
  }

  lemma {:induction false} WithdrawnForever(states: seq<State>, events: seq<Event>, i: nat, j: nat, id: JobId)
    requires IsRun(states, events) && i <= j < |states| && Withdrawn(states[i], id)
    ensures Withdrawn(states[j], id)
    decreases j
  {
    if i < j {
      WithdrawnForever(states, events, i, j - 1, id);
      RunOk(states, events, j - 1);
      WithdrawnStays(states[j - 1], events[j - 1], id);
    }
  }

  /** A delete that found its job is final: ever after, GET answers that there is no such job, that it
      is still being processed, or that it was cancelled, and never shows a result. */
  lemma DeleteIsFinal(states: seq<State>, events: seq<Event>, i: nat, j: nat, id: JobId)
    requires IsRun(states, events) && i < j < |states|
    requires events[i] == Event.Delete(id) && id in states[i].jobs
    ensures var o := Observe(states[j], id);
            o.None? || o == Some((Processing, None, None)) || o == Some((Failed, Some(Cancelled), None))
  {
    RunOk(states, events, i);
    assert IdOk(states[i], id);
    assert Withdrawn(states[i + 1], id);
    WithdrawnForever(states, events, i + 1, j, id);
    RunOk(states, events, j);
    assert IdOk(states[j], id);
  }

  // ---------------------------------------------------------------- the program

  class Sidecar {
    var jobs: map<JobId, Job>
    var workQueue: seq<JobId>
    var handlers: map<JobId, Handler>
    var worker: Worker
    ghost var received: map<JobId, Dir>
    ghost var removed: multiset<Dir>
    ghost var begun: multiset<JobId>

    ghost function View(): State
      reads this
    {
      State(jobs, workQueue, handlers, worker, received, removed, begun)
    }

    constructor ()
      ensures View() == INIT && Inv(View())
    {
      jobs, workQueue, handlers, worker := map[], [], map[], Idle;
      received, removed, begun := map[], multiset{}, multiset{};
    }

    /** A submission arrives: its directory is made and the upload begins. */
    method StartUpload(id: JobId, dir: Dir)
      requires Inv(View()) && Enabled(View(), Receive(id, dir))
      modifies this
      ensures View() == Step(old(View()), Receive(id, dir)) && Inv(View())
    {
      StepOk(View(), Receive(id, dir));
      handlers := handlers[id := Uploading(dir)];
      received := received[id := dir];
    }

    /** Writing the upload failed: the handler removes the directory itself. */
    method AbandonUpload(id: JobId)
      requires Inv(View()) && Enabled(View(), UploadFails(id))
      modifies this
      ensures View() == Step(old(View()), UploadFails(id)) && Inv(View())
    {
      StepOk(View(), UploadFails(id));
      removed := removed + multiset{handlers[id].dir};
      handlers := handlers - {id};
    }

    /** Under the lock: the record is entered. */
    method RegisterJob(id: JobId, now: real)
      requires Inv(View()) && Enabled(View(), Register(id, now))
      modifies this
      ensures View() == Step(old(View()), Register(id, now)) && Inv(View())
    {
      StepOk(View(), Register(id, now));
      jobs := jobs[id := Job(Queued, now, Some(handlers[id].dir), None, None, false)];
      handlers := handlers[id := Registered];
    }

    /** After the lock: the id is queued. */
    method EnqueueJob(id: JobId)
      requires Inv(View()) && Enabled(View(), Enqueue(id))
      modifies this
      ensures View() == Step(old(View()), Enqueue(id)) && Inv(View())
    {
      StepOk(View(), Enqueue(id));
      workQueue := workQueue + [id];
      handlers := handlers - {id};
    }

    method TakeNext()
      requires Inv(View()) && Enabled(View(), Take)
      modifies this
      ensures View() == Step(old(View()), Take) && Inv(View())
    {
      StepOk(View(), Take);
      worker := Holding(workQueue[0]);
      workQueue := workQueue[1..];
    }

    /** The worker looks its job up; one that was dropped while queued is skipped. */
    method BeginJob(now: real)
      requires Inv(View()) && Enabled(View(), Begin(now))
      modifies this
      ensures View() == Step(old(View()), Begin(now)) && Inv(View())
    {
      StepOk(View(), Begin(now));
      var id := worker.id;
      if id !in jobs || jobs[id].status != Queued {
        worker := Idle;
        return;
      }
      jobs := jobs[id := jobs[id].(status := Processing, updatedAt := now)];
      begun := begun + multiset{id};
      worker := Busy(id);
    }

    /** Removes the directory of a record that still has one. */
    method CleanupFiles(id: JobId)
      requires id in jobs
      modifies this`jobs, this`removed
      ensures removed == old(removed) + DirOf(old(jobs[id]))
      ensures jobs == old(jobs)[id := old(jobs[id]).(tmpdir := None)]
    {
      var dir := jobs[id].tmpdir;
      jobs := jobs[id := jobs[id].(tmpdir := None)];
      if dir.Some? {
        removed := removed + multiset{dir.value};
      }
    }

    /** What the worker does to a record once its files are gone. */
    method FinishRecord(id: JobId, outcome: Outcome, now: real)
      requires id in jobs
      modifies this`jobs, this`removed
      ensures removed == old(removed) + DirOf(old(jobs[id]))
      ensures jobs == old(jobs)[id := Finished(old(jobs[id]), outcome, now)]
    {
      CleanupFiles(id);
      var job := jobs[id];
      if job.cancelled {
        job := job.(status := Failed, error := Some(Cancelled));
      } else if outcome.Raised? {
        job := job.(status := Failed, error := Some(outcome.error));
      } else {
        job := job.(status := Done, result := Some(outcome.payload));
      }
      jobs := jobs[id := job.(updatedAt := now)];
    }

    /** Under the lock again: the outcome is recorded, unless the record is gone. */
    method RecordOutcome(outcome: Outcome, now: real)
      requires Enabled(View(), Finish(outcome, now))
      modifies this
      ensures View() == Step(old(View()), Finish(outcome, now))
    {
      var id := worker.id;
      worker := Idle;
      if id in jobs {
        FinishRecord(id, outcome, now);
      }
    }

    method FinishJob(outcome: Outcome, now: real)
      requires Inv(View()) && Enabled(View(), Finish(outcome, now))
      modifies this
      ensures View() == Step(old(View()), Finish(outcome, now)) && Inv(View())
    {
      StepOk(View(), Finish(outcome, now));
      RecordOutcome(outcome, now);
    }

    /** A processing record is only marked; any other goes at once, with its files. */
    method DeleteRecord(id: JobId)
      requires id in jobs
      modifies this`jobs, this`removed
      ensures old(jobs[id]).status == Processing ==>
                removed == old(removed) && jobs == old(jobs)[id := old(jobs[id]).(cancelled := true)]
      ensures old(jobs[id]).status != Processing ==>
                removed == old(removed) + DirOf(old(jobs[id])) && jobs == old(jobs) - {id}
    {
      if jobs[id].status == Processing {
        jobs := jobs[id := jobs[id].(cancelled := true)];
      } else {
        CleanupFiles(id);
        jobs := jobs - {id};
      }
    }

    /** Marks or drops the record, if there is one. */
    method DropJob(id: JobId) returns (found: bool)
      modifies this
      ensures found <==> id in old(jobs)
      ensures View() == Step(old(View()), Event.Delete(id))
    {
      found := id in jobs;
      if found {
        DeleteRecord(id);
      }
    }

    method DeleteJob(id: JobId) returns (found: bool)
      requires Inv(View())
      modifies this
      ensures found <==> id in old(jobs)
      ensures View() == Step(old(View()), Event.Delete(id)) && Inv(View())
    {
      StepOk(View(), Event.Delete(id));
      found := DropJob(id);
    }

    method GetJob(id: JobId) returns (answer: Option<(Status, Option<JobError>, Option<string>)>)
      ensures answer == Observe(View(), id)
    {
      return if id in jobs then Some((jobs[id].status, jobs[id].error, jobs[id].result)) else None;
    }

    /** The sweeper purges expired records in any order. */
    method SweepExpired(cutoff: real)
      requires Inv(View())
      modifies this
      ensures View() == Step(old(View()), Sweep(cutoff)) && Inv(View())
    {
      StepOk(View(), Sweep(cutoff));
      var expired := set id | id in jobs && jobs[id].updatedAt < cutoff;
      Purge(expired);
    }

    method Purge(expired: set<JobId>)
      requires expired <= jobs.Keys
      modifies this`jobs, this`removed
      ensures jobs == old(jobs) - expired
      ensures removed == old(removed) + DirsOf(old(jobs), expired)
    {
      var rest := expired;
      ghost var done: set<JobId> := {};
      while rest != {}
        invariant done !! rest && done + rest == expired
        invariant jobs == old(jobs) - done
        invariant removed == old(removed) + DirsOf(old(jobs), done)
        decreases rest
      {
        var id :| id in rest;
        PurgeOneMore(old(jobs), done, id, jobs[id].(tmpdir := None));
        rest := rest - {id};
        done := done + {id};
        CleanupFiles(id);
        jobs := jobs - {id};
      }
      assert done == expired;
    }
  }

  lemma PurgeOneMore(jobs: map<JobId, Job>, done: set<JobId>, id: JobId, j: Job)
    requires done <= jobs.Keys && id in jobs && id !in done
    ensures (jobs - done)[id := j] - {id} == jobs - (done + {id})
    ensures DirsOf(jobs, done + {id}) == DirsOf(jobs, done) + DirOf(jobs[id])
  {
    DirsOfOneMore(jobs, done, id);
  }

  lemma {:induction false} DirsOfOneMore(jobs: map<JobId, Job>, ids: set<JobId>, id: JobId)
    requires ids <= jobs.Keys && id in jobs && id !in ids
    ensures DirsOf(jobs, ids + {id}) == DirsOf(jobs, ids) + DirOf(jobs[id])
    decreases ids
  {
    var all := ids + {id};
    var x := Pick(all);
    if x == id {
      DirsOfPicked(jobs, all, ids);
    } else {
      var rest := ids - {x};
      var more := rest + {id};
      DirsOfPicked(jobs, all, more);
      DirsOfOneMore(jobs, rest, id);
      DirsOfOneMore(jobs, rest, x);
      assert rest + {x} == ids;
    }
  }

  lemma DirsOfPicked(jobs: map<JobId, Job>, ids: set<JobId>, rest: set<JobId>)
    requires ids <= jobs.Keys && ids != {} && rest == ids - {Pick(ids)}
    ensures DirsOf(jobs, ids) == DirsOf(jobs, rest) + DirOf(jobs[Pick(ids)])
  {
  }
}

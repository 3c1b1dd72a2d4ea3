/** The generation-job protocol of the video service: job rows, the single worker, concurrent
    retry requests, and crashes. Every action below is one commit or one external effect. */
module VideoJobs {
  import opened Options
  import opened VideoNames

  datatype Phase = Queued | Submitting | AwaitingResult | Polling | Downloading | Completed | Failed | NeedsReview

  datatype Job = Job(project: Id, backend: string, created: nat, phase: Phase, remote: Option<string>,
                     result: Option<string>, media: Option<string>, version: Option<Id>, attempts: nat, nextCheck: real)

  type Jobs = map<Id, Job>

  predicate Active(p: Phase) {
    p.Queued? || p.Submitting? || p.AwaitingResult? || p.Polling? || p.Downloading?
  }

  predicate HasHandle(j: Job) {
    j.remote.Some? || j.media.Some?
  }

  // What the worker is in the middle of. It works on a copy of the claimed row: `remote` and `stored`
  // are that copy's identifiers, and `submitted` says that it was queued.
  datatype Worker =
    | Idle
    | ToSubmit(id: Id, remote: Option<string>)
    | Posted(id: Id, remote: Option<string>)
    | ToPoll(id: Id, remote: Option<string>, stored: Option<string>)
    | Delivering(id: Id, remote: Option<string>, submitted: bool)
    | Imported(id: Id, remote: Option<string>, version: Id, sha: string, submitted: bool)
    | DemoImported(id: Id, remote: Option<string>, version: Id)

  datatype State = State(
    up: bool,                  // false between a crash and the recovery at start
    jobs: Jobs,
    versions: map<Id, Id>,     // version -> project
    worker: Worker,
    retrying: multiset<Id>,    // retry requests that have read the row but not yet written it
    posts: map<Id, nat>,       // provider POSTs so far
    retries: map<Id, nat>)     // retries that committed

  function Count(m: map<Id, nat>, j: Id): nat {
    if j in m then m[j] else 0
  }

  const INIT := State(true, map[], map[], Idle, multiset{}, map[], map[])

  // ----- the writes to the job table

  // The partial unique index: a write that would make a second row of a project active aborts.
  predicate IndexAllows(jobs: Jobs, id: Id, row: Job) {
    Active(row.phase) ==> forall k | k in jobs && k != id :: !(jobs[k].project == row.project && Active(jobs[k].phase))
  }

  function NewJob(project: Id, backend: string, created: nat): Job {
    Job(project, backend, created, Queued, None, None, None, None, 0, 0.0)
  }

  function Claimed(row: Job): Job {
    row.(phase := if row.phase == Queued then Submitting else Polling, attempts := row.attempts + 1)
  }

  predicate Ready(row: Job, now: real) {
    (row.phase == Queued || row.phase == AwaitingResult) && row.nextCheck <= now
  }

  predicate Retryable(row: Job) {
    row.phase == NeedsReview || row.phase == Failed
  }

  function Requeued(row: Job): Job {
    row.(phase := Queued, remote := None, result := None, media := None, nextCheck := 0.0)
  }

  function Ticketed(row: Job, rid: string, url: string, now: real): Job {
    row.(phase := AwaitingResult, remote := Some(rid), result := Some(url), nextCheck := now + 2.0)
  }

  function Located(row: Job, url: string): Job {
    row.(phase := Downloading, media := Some(url))
  }

  function Postponed(row: Job, now: real): Job {
    row.(phase := AwaitingResult, nextCheck := now + 5.0)
  }

  function Done(row: Job, version: Id): Job {
    row.(phase := Completed, version := Some(version))
  }

  function Ended(row: Job, submitted: bool): Job {
    row.(phase := if submitted then NeedsReview else Failed)
  }

  // What the four updates of recovery make of a row.
  function RecoveredRow(row: Job): Job {
    if row.phase == Submitting then row.(phase := NeedsReview)
    else if row.phase == Polling && HasHandle(row) then row.(phase := AwaitingResult)
    else if row.phase == Downloading && row.media.Some? then row.(phase := AwaitingResult)
    else if (row.phase == Downloading || row.phase == Polling) && !HasHandle(row) then row.(phase := NeedsReview)
    else row
  }

  function Recovered(jobs: Jobs): Jobs {
    map k | k in jobs :: RecoveredRow(jobs[k])
  }

  // ----- the actions

  datatype Action =
    | Create(id: Id, project: Id, backend: string, created: nat)
    | Claim(id: Id, now: real)
    | Post
    | SubmitMedia(url: string)
    | SubmitRemote(rid: string, url: string, now: real)
    | DemoImport(version: Id, sha: string)
    | PollPending(now: real)
    | PollCompleted(url: string)
    | PollStored
    | Import(version: Id, sha: string)
    | Complete
    | Fail
    | Abandon
    | RetryRead(id: Id)
    | RetryWrite(id: Id)
    | Publish(version: Id, project: Id)       // another client's import or revision
    | Crash
    | Recover

  // The index lets the worker put its row into an active phase.
  predicate WorkerCanWrite(s: State)
    requires s.worker != Idle
  {
    s.worker.id in s.jobs && forall k | k in s.jobs && k != s.worker.id ::
      !(s.jobs[k].project == s.jobs[s.worker.id].project && Active(s.jobs[k].phase))
  }

  // What the job table and the worker's own state allow.
  predicate Offered(s: State, a: Action) {
    if a.Recover? then !s.up
    else s.up && match a
      case Create(id, project, backend, created) =>
        id !in s.jobs && IndexAllows(s.jobs, id, NewJob(project, backend, created))
      case Claim(id, now) => s.worker == Idle && id in s.jobs && Ready(s.jobs[id], now)
                             && IndexAllows(s.jobs, id, Claimed(s.jobs[id]))
      case Post => s.worker.ToSubmit?
      case SubmitMedia(url) => s.worker.Posted? && WorkerCanWrite(s)
      case SubmitRemote(rid, url, now) => s.worker.Posted? && WorkerCanWrite(s)
      case DemoImport(v, sha) => s.worker.ToSubmit? && s.worker.id in s.jobs
      case PollPending(now) => s.worker.ToPoll? && s.worker.stored.None? && s.worker.remote.Some?
                               && WorkerCanWrite(s)
      case PollCompleted(url) => s.worker.ToPoll? && s.worker.stored.None? && s.worker.remote.Some?
                                 && WorkerCanWrite(s)
      case PollStored => s.worker.ToPoll? && s.worker.stored.Some?
      case Import(v, sha) => s.worker.Delivering? && s.worker.id in s.jobs
      case Complete => HasVersion(s.worker) && s.worker.id in s.jobs
      case Fail => s.worker != Idle && s.worker.id in s.jobs
      case Abandon => true
      case RetryRead(id) => id in s.jobs && Retryable(s.jobs[id])
      case RetryWrite(id) => id in s.retrying && id in s.jobs
      case Publish(v, project) => true
      case Crash => true
  }

  predicate HasVersion(w: Worker) {
    w.Imported? || w.DemoImported?
  }

  // A delivery may find its version registered already (a cache hit), but always for its own project;
  // a version that another client adds is new.
  predicate VersionFits(s: State, a: Action)
    requires Offered(s, a)
  {
    match a
    case DemoImport(v, sha) => v in s.versions ==> s.versions[v] == s.jobs[s.worker.id].project
    case Import(v, sha) => v in s.versions ==> s.versions[v] == s.jobs[s.worker.id].project
    case Publish(v, project) => v !in s.versions
    case _ => true
  }

  predicate Enabled(s: State, a: Action) {
    Offered(s, a) && VersionFits(s, a)
  }

  function Write(s: State, row: Job, next: Worker): State
    requires s.worker != Idle
  {
    s.(jobs := s.jobs[s.worker.id := row], worker := next)
  }

  // The state in which the worker reports a failure depends on what it had claimed.
  predicate FromSubmit(w: Worker) {
    match w
    case Idle => false
    case ToSubmit(_, _) => true
    case Posted(_, _) => true
    case ToPoll(_, _, _) => false
    case Delivering(_, _, submitted) => submitted
    case Imported(_, _, _, _, submitted) => submitted
    case DemoImported(_, _, _) => true
  }

  function Apply(s: State, a: Action): State
    requires Offered(s, a)
  {
    match a
    case Create(id, project, backend, created) => s.(jobs := s.jobs[id := NewJob(project, backend, created)])
    case Claim(id, now) =>
      var row := s.jobs[id];
      s.(jobs := s.jobs[id := Claimed(row)],
         worker := if row.phase == Queued then ToSubmit(id, row.remote) else ToPoll(id, row.remote, row.media))
    case Post =>
      s.(worker := Posted(s.worker.id, s.worker.remote),
         posts := s.posts[s.worker.id := Count(s.posts, s.worker.id) + 1])
    case SubmitMedia(url) =>
      Write(s, Located(s.jobs[s.worker.id], url), Delivering(s.worker.id, s.worker.remote, true))
    case SubmitRemote(rid, url, now) =>
      Write(s, Ticketed(s.jobs[s.worker.id], rid, url, now), Idle)
    case DemoImport(v, sha) =>
      s.(versions := s.versions[v := s.jobs[s.worker.id].project],
         worker := DemoImported(s.worker.id, s.worker.remote, v))
    case PollPending(now) => Write(s, Postponed(s.jobs[s.worker.id], now), Idle)
    case PollCompleted(url) =>
      Write(s, Located(s.jobs[s.worker.id], url), Delivering(s.worker.id, s.worker.remote, false))
    case PollStored => s.(worker := Delivering(s.worker.id, s.worker.remote, false))
    case Import(v, sha) =>
      s.(versions := s.versions[v := s.jobs[s.worker.id].project],
         worker := Imported(s.worker.id, s.worker.remote, v, sha, s.worker.submitted))
    case Complete => Write(s, Done(s.jobs[s.worker.id], s.worker.version), Idle)
    case Fail => Write(s, Ended(s.jobs[s.worker.id], FromSubmit(s.worker)), Idle)
    case Abandon => s.(worker := Idle)
    case RetryRead(id) => s.(retrying := s.retrying + multiset{id})
    case RetryWrite(id) =>
      var t := s.(retrying := s.retrying - multiset{id});
      if IndexAllows(s.jobs, id, Requeued(s.jobs[id])) then
        t.(jobs := s.jobs[id := Requeued(s.jobs[id])], retries := s.retries[id := Count(s.retries, id) + 1])
      else t
    case Publish(v, project) => s.(versions := s.versions[v := project])
    case Crash => s.(up := false, worker := Idle, retrying := multiset{})
    case Recover => s.(up := true, jobs := Recovered(s.jobs))
  }

  // ----- runs

  function Exec(s: State, run: seq<Action>): Option<State>
    decreases |run|
  {
    if run == [] then Some(s)
    else match Exec(s, run[..|run| - 1])
      case None => None
      case Some(t) => if Enabled(t, run[|run| - 1]) then Some(Apply(t, run[|run| - 1])) else None
  }

  ghost predicate Reachable(s: State) {
    exists run :: Exec(INIT, run) == Some(s)
  }

  // No versions are touched.
  ghost predicate Plain(run: seq<Action>) {
    forall a | a in run :: !a.Import? && !a.DemoImport? && !a.Publish?
  }

  ghost predicate PlainlyReachable(s: State) {
    exists run :: Plain(run) && Exec(INIT, run) == Some(s)
  }

  // ----- what holds in every reachable state

  ghost predicate OneActivePerProject(jobs: Jobs) {
    forall j, k | j in jobs && k in jobs && j != k && jobs[j].project == jobs[k].project ::
      !(Active(jobs[j].phase) && Active(jobs[k].phase))
  }

  ghost predicate RowOk(s: State, j: Job) {
    && (j.phase == Downloading ==> j.media.Some?)
    && (j.phase == Completed ==> j.version.Some? && j.version.value in s.versions
                                 && s.versions[j.version.value] == j.project)
  }

  // POSTs made, plus the ones that the queue or the worker still entitles the job to.
  function Entitled(s: State, id: Id): nat {
    Count(s.posts, id)
    + (if id in s.jobs && s.jobs[id].phase == Queued then 1 else 0)
    + (if s.worker.ToSubmit? && s.worker.id == id then 1 else 0)
  }

  ghost predicate PostBounded(s: State, id: Id) {
    Entitled(s, id) <= Count(s.retries, id) + (if id in s.jobs then 1 else 0)
  }

  ghost predicate WorkerOk(s: State) {
    && (s.worker != Idle ==> s.worker.id in s.jobs)
    && (HasVersion(s.worker) ==> s.worker.version in s.versions
                                  && s.versions[s.worker.version] == s.jobs[s.worker.id].project)
  }

  ghost predicate Inv(s: State) {
    && OneActivePerProject(s.jobs)
    && (forall k | k in s.jobs :: RowOk(s, s.jobs[k]))
    && WorkerOk(s)
    && (forall id :: PostBounded(s, id))
  }

  lemma WriteKeepsOneActive(jobs: Jobs, id: Id, row: Job)
    requires OneActivePerProject(jobs) && IndexAllows(jobs, id, row)
    ensures OneActivePerProject(jobs[id := row])
  {
  }

  lemma RecoveryKeepsOneActive(jobs: Jobs)
    requires OneActivePerProject(jobs)
    ensures OneActivePerProject(Recovered(jobs))
  {
    forall j, k | j in jobs && k in jobs && j != k && jobs[j].project == jobs[k].project
      ensures !(Active(RecoveredRow(jobs[j]).phase) && Active(RecoveredRow(jobs[k]).phase))
    {
      RecoveryActivatesNone(jobs[j]);
      RecoveryActivatesNone(jobs[k]);
    }
  }

  lemma RecoveryActivatesNone(row: Job)
    ensures Active(RecoveredRow(row).phase) ==> Active(row.phase)
    ensures RecoveredRow(row).project == row.project
  {
  }

  lemma StepKeepsOneActive(s: State, a: Action)
    requires OneActivePerProject(s.jobs) && WorkerOk(s) && Enabled(s, a)
    ensures OneActivePerProject(Apply(s, a).jobs)
  {
    if a.Recover? {
      RecoveryKeepsOneActive(s.jobs);
    } else {
      var id, row := StepWrites(s, a);
      if Apply(s, a).jobs != s.jobs {
        WriteKeepsOneActive(s.jobs, id, row);
      }
    }
  }

  // Every action but recovery writes at most one row, within what the index allows.
  lemma StepWrites(s: State, a: Action) returns (id: Id, row: Job)
    requires WorkerOk(s) && Enabled(s, a) && !a.Recover?
    ensures Apply(s, a).jobs == s.jobs || (Apply(s, a).jobs == s.jobs[id := row] && IndexAllows(s.jobs, id, row))
  {
    id := if a.Create? || a.Claim? || a.RetryRead? || a.RetryWrite? then a.id
          else if s.worker == Idle then "" else s.worker.id;
    var jobs := Apply(s, a).jobs;
    row := if id in jobs then jobs[id] else NewJob("", "", 0);
  }

  lemma StepKeepsRow(s: State, a: Action, k: Id)
    requires WorkerOk(s) && Enabled(s, a) && (k in s.jobs ==> RowOk(s, s.jobs[k]))
    ensures var t := Apply(s, a); k in t.jobs ==> RowOk(t, t.jobs[k])
  {
  }

  lemma StepKeepsWorker(s: State, a: Action)
    requires WorkerOk(s) && Enabled(s, a)
    ensures WorkerOk(Apply(s, a))
  {
    if !OfWorker(a) {
      OthersKeepWorker(s, a);
    }
  }

  lemma OthersKeepWorker(s: State, a: Action)
    requires WorkerOk(s) && Enabled(s, a) && !OfWorker(a)
    ensures WorkerOk(Apply(s, a))
  {
  }

  predicate OfWorker(a: Action) {
    a.Post? || a.SubmitMedia? || a.SubmitRemote? || a.DemoImport? || a.PollPending? || a.PollCompleted? || a.PollStored?
    || a.Import? || a.Complete? || a.Fail? || a.Abandon?
  }

  lemma WorkerKeepsPosts(s: State, a: Action, id: Id)
    requires PostBounded(s, id) && Enabled(s, a) && OfWorker(a)
    ensures PostBounded(Apply(s, a), id)
  {
  }

  lemma OthersKeepPosts(s: State, a: Action, id: Id)
    requires PostBounded(s, id) && Enabled(s, a) && !OfWorker(a)
    ensures PostBounded(Apply(s, a), id)
  {
  }

  lemma StepKeepsPosts(s: State, a: Action, id: Id)
    requires PostBounded(s, id) && Enabled(s, a)
    ensures PostBounded(Apply(s, a), id)
  {
    if OfWorker(a) {
      WorkerKeepsPosts(s, a, id);
    } else {
      OthersKeepPosts(s, a, id);
    }
  }

  lemma StepKeepsInv(s: State, a: Action)
    requires Inv(s) && Enabled(s, a)
    ensures Inv(Apply(s, a))
  {
    var t := Apply(s, a);
    StepKeepsOneActive(s, a);
    StepKeepsWorker(s, a);
    forall k | k in t.jobs
      ensures RowOk(t, t.jobs[k])
    {
      StepKeepsRow(s, a, k);
    }
    forall id
      ensures PostBounded(t, id)
    {
      StepKeepsPosts(s, a, id);
    }
  }

  lemma {:induction false} RunKeepsInv(run: seq<Action>)
    ensures var t := Exec(INIT, run); t.Some? ==> Inv(t.value)
    decreases |run|
  {
    if run != [] {
      var head, a := run[..|run| - 1], run[|run| - 1];
      RunKeepsInv(head);
      var s := Exec(INIT, head);
      if s.Some? && Enabled(s.value, a) {
        StepKeepsInv(s.value, a);
      }
    }
  }

  // Over every run, with crashes anywhere: one active job per project, rows that are backed by
  // what their phase promises, and no more POSTs for a job than one plus its retries.
  lemma EveryRunIsSafe(run: seq<Action>, s: State)
    requires Exec(INIT, run) == Some(s)
    ensures OneActivePerProject(s.jobs)
    ensures forall k | k in s.jobs :: RowOk(s, s.jobs[k])
    ensures forall id | id in s.jobs :: Count(s.posts, id) <= 1 + Count(s.retries, id)
    ensures forall id | id !in s.jobs :: Count(s.posts, id) <= Count(s.retries, id)
  {
    RunKeepsInv(run);
    forall id
      ensures Count(s.posts, id) <= Count(s.retries, id) + (if id in s.jobs then 1 else 0)
    {
      assert PostBounded(s, id);
    }
  }

  // After a crash at any point, recovery leaves no row in a phase that only a live worker can end.
  lemma RecoverySettles(run: seq<Action>, s: State)
    requires Exec(INIT, run) == Some(s) && Enabled(s, Recover)
    ensures var t := Apply(s, Recover);
            forall k | k in t.jobs ::
              t.jobs[k].phase != Submitting && t.jobs[k].phase != Polling && t.jobs[k].phase != Downloading
  {
    RunKeepsInv(run);
    forall k | k in s.jobs
      ensures var p := RecoveredRow(s.jobs[k]).phase; p != Submitting && p != Polling && p != Downloading
    {
      assert RowOk(s, s.jobs[k]);
    }
  }

  // ----- schedule and attempts

  // When rows are due: new and retried ones at once, others two or five seconds after they were written. Only
  // failed and doubtful ones may be retried, and then nothing of their provider is kept.
  lemma ScheduleMeans(row: Job, project: Id, backend: string, created: nat, rid: string, url: string, now: real, t: real)
    ensures Ready(NewJob(project, backend, created), t) <==> t >= 0.0
    ensures Ready(Requeued(row), t) <==> t >= 0.0
    ensures Ready(Ticketed(row, rid, url, now), t) <==> t >= now + 2.0
    ensures Ready(Postponed(row, now), t) <==> t >= now + 5.0
    ensures Ready(row, t) ==> row.phase == Queued || row.phase == AwaitingResult
    ensures Retryable(row) <==> row.phase == Failed || row.phase == NeedsReview
    ensures Requeued(row).remote == Requeued(row).result == Requeued(row).media == None
  {
  }

  function Claimings(run: seq<Action>, k: Id): nat {
    if run == [] then 0
    else Claimings(run[..|run| - 1], k) + (if run[|run| - 1].Claim? && run[|run| - 1].id == k then 1 else 0)
  }

  // A row's attempts count its claims.
  lemma {:induction false} AttemptsCountClaims(run: seq<Action>, k: Id)
    ensures var s := Exec(INIT, run);
            s.Some? ==> if k in s.value.jobs then s.value.jobs[k].attempts == Claimings(run, k) else Claimings(run, k) == 0
    decreases |run|
  {
    if run != [] {
      var head, a := run[..|run| - 1], run[|run| - 1];
      AttemptsCountClaims(head, k);
      RunKeepsInv(head);
      var s := Exec(INIT, head);
      if s.Some? && Enabled(s.value, a) {
        StepKeepsAttempts(s.value, a, k);
      }
    }
  }

  lemma StepKeepsAttempts(s: State, a: Action, k: Id)
    requires WorkerOk(s) && Enabled(s, a)
    ensures var t, n := Apply(s, a), if a.Claim? && a.id == k then 1 else 0;
            if k in s.jobs then k in t.jobs && t.jobs[k].attempts == s.jobs[k].attempts + n
            else n == 0 && (k in t.jobs ==> t.jobs[k].attempts == 0)
  {
  }

  // ----- the counters

  // The job that the run claimed last.
  function ClaimedLast(run: seq<Action>): Option<Id> {
    if run == [] then None
    else if run[|run| - 1].Claim? then Some(run[|run| - 1].id) else ClaimedLast(run[..|run| - 1])
  }

  // POSTs that the run makes while k is the job claimed last.
  function Postings(run: seq<Action>, k: Id): nat {
    if run == [] then 0
    else
      var head := run[..|run| - 1];
      Postings(head, k) + (if run[|run| - 1].Post? && ClaimedLast(head) == Some(k) then 1 else 0)
  }

  // A retry of k takes effect unless it would make k's a second active row of its project.
  ghost predicate TakesEffect(s: State, a: Action, k: Id) {
    && a == RetryWrite(k) && k in s.jobs
    && !exists j :: j in s.jobs && j != k && s.jobs[j].project == s.jobs[k].project && Active(s.jobs[j].phase)
  }

  ghost function Requeueings(run: seq<Action>, k: Id): nat {
    if run == [] then 0
    else
      var s := Exec(INIT, run[..|run| - 1]);
      Requeueings(run[..|run| - 1], k) + (if s.Some? && TakesEffect(s.value, run[|run| - 1], k) then 1 else 0)
  }

  // Over every run the two counters of the state say how often the run has posted and requeued a job.
  lemma {:induction false} CountersCount(run: seq<Action>, k: Id)
    ensures var s := Exec(INIT, run);
            s.Some? ==> && Count(s.value.posts, k) == Postings(run, k)
                        && Count(s.value.retries, k) == Requeueings(run, k)
                        && (s.value.worker != Idle ==> ClaimedLast(run) == Some(s.value.worker.id))
    decreases |run|
  {
    if run != [] {
      var head, a := run[..|run| - 1], run[|run| - 1];
      CountersCount(head, k);
      var s := Exec(INIT, head);
      if s.Some? && Enabled(s.value, a) {
        StepCounts(s.value, a, k);
      }
    }
  }

  lemma StepCounts(s: State, a: Action, k: Id)
    requires Enabled(s, a)
    ensures var t := Apply(s, a);
            && Count(t.posts, k) == Count(s.posts, k) + (if a.Post? && s.worker.id == k then 1 else 0)
            && Count(t.retries, k) == Count(s.retries, k) + (if TakesEffect(s, a, k) then 1 else 0)
            && (t.worker != Idle ==> if a.Claim? then t.worker.id == a.id
                                     else s.worker != Idle && t.worker.id == s.worker.id)
  {
  }

  // What a run does to a job: it posts at most once for its creation and once for each retry that took effect.
  lemma PostsAreEarned(run: seq<Action>, s: State, k: Id)
    requires Exec(INIT, run) == Some(s)
    ensures Postings(run, k) <= Requeueings(run, k) + (if k in s.jobs then 1 else 0)
  {
    CountersCount(run, k);
    EveryRunIsSafe(run, s);
  }

  // ----- rows that wait for the provider can be polled, unless two retries race

  ghost predicate Pollable(j: Job) {
    j.phase == AwaitingResult || j.phase == Polling ==> HasHandle(j)
  }

  ghost predicate PollerOk(s: State) {
    s.worker.ToPoll? ==>
      && (s.worker.remote.Some? || s.worker.stored.Some?)
      && (s.worker.stored.None? ==> s.worker.id in s.jobs && HasHandle(s.jobs[s.worker.id]))
  }

  ghost predicate Handles(s: State) {
    PollerOk(s) && forall k | k in s.jobs :: Pollable(s.jobs[k])
  }

  // A retry commits on the very job whose status the worker is asking for. The caller has read
  // the row as failed before, but another retry has put it back to work since.
  predicate Raced(s: State, a: Action) {
    && a.RetryWrite? && a.id in s.retrying && a.id in s.jobs
    && IndexAllows(s.jobs, a.id, Requeued(s.jobs[a.id]))
    && s.worker.ToPoll? && s.worker.id == a.id && s.worker.stored.None?
  }

  lemma StepKeepsPollable(s: State, a: Action, k: Id)
    requires PollerOk(s) && Enabled(s, a) && (k in s.jobs ==> Pollable(s.jobs[k]))
    ensures var t := Apply(s, a); k in t.jobs ==> Pollable(t.jobs[k])
  {
  }

  lemma StepKeepsPoller(s: State, a: Action)
    requires Handles(s) && Enabled(s, a)
    ensures PollerOk(Apply(s, a)) <==> !Raced(s, a)
  {
    if a.Claim? {
      assert Pollable(s.jobs[a.id]);
    } else if a.RetryWrite? {
      RetryAndPoller(s, a);
    }
  }

  lemma RetryAndPoller(s: State, a: Action)
    requires Handles(s) && Enabled(s, a) && a.RetryWrite?
    ensures PollerOk(Apply(s, a)) <==> !Raced(s, a)
  {
  }

  // One step keeps every waiting row pollable exactly when it is not such a retry.
  lemma StepKeepsHandles(s: State, a: Action)
    requires Handles(s) && Enabled(s, a)
    ensures Handles(Apply(s, a)) <==> !Raced(s, a)
  {
    var t := Apply(s, a);
    StepKeepsPoller(s, a);
    forall k | k in t.jobs
      ensures Pollable(t.jobs[k])
    {
      StepKeepsPollable(s, a, k);
    }
  }

  ghost predicate Unraced(run: seq<Action>)
    decreases |run|
  {
    run == [] ||
    (var head, a := run[..|run| - 1], run[|run| - 1];
     Unraced(head) && match Exec(INIT, head) case None => true case Some(s) => !Raced(s, a))
  }

  // In a run without such a retry, awaiting and polling rows always have something to poll.
  lemma {:induction false} UnracedRunKeepsHandles(run: seq<Action>)
    requires Unraced(run)
    ensures var t := Exec(INIT, run); t.Some? ==> Handles(t.value)
    decreases |run|
  {
    if run != [] {
      var head, a := run[..|run| - 1], run[|run| - 1];
      UnracedRunKeepsHandles(head);
      var s := Exec(INIT, head);
      if s.Some? && Enabled(s.value, a) {
        StepKeepsHandles(s.value, a);
      }
    }
  }

  // With such a retry the property is lost: the provider answers that the job is still pending,
  // and the row waits for a result that nobody can ask for.
  lemma RaceLosesHandle(s: State, a: Action, now: real)
    requires Inv(s) && Handles(s) && Enabled(s, a) && Raced(s, a)
    ensures var t := Apply(s, a);
            && Enabled(t, PollPending(now))
            && var row := Apply(t, PollPending(now)).jobs[a.id];
               row.phase == AwaitingResult && !HasHandle(row)
  {
    StepKeepsOneActive(s, a);
  }

  lemma ReachStep(s: State, a: Action)
    requires PlainlyReachable(s) && Enabled(s, a) && Plain([a])
    ensures PlainlyReachable(Apply(s, a))
  {
    var run :| Plain(run) && Exec(INIT, run) == Some(s);
    assert (run + [a])[..|run|] == run;
    assert Exec(INIT, run + [a]) == Some(Apply(s, a));
  }

  // The only row of a state with an idle worker.
  ghost predicate Single(s: State, phase: Phase) {
    s.up && s.worker == Idle && s.jobs.Keys == {"j"} && s.jobs["j"].phase == phase && s.jobs["j"].nextCheck <= 2.0
    && OfExample(s.jobs["j"])
  }

  predicate OfExample(row: Job) {
    row.project == "p" && row.backend == "b"
  }

  lemma PostedReachable(s: State) returns (t: State)
    requires PlainlyReachable(s) && Single(s, Queued) && s.jobs["j"].media.None? && s.jobs["j"].remote.None?
    ensures PlainlyReachable(t) && t.retrying == s.retrying && t.up && t.jobs.Keys == {"j"}
    ensures OfExample(t.jobs["j"]) && t.worker == Posted("j", None)
    ensures t.jobs["j"].media.None? && t.jobs["j"].nextCheck <= 2.0
  {
    ReachStep(s, Claim("j", 2.0));
    t := Apply(s, Claim("j", 2.0));
    ReachStep(t, Post);
    t := Apply(t, Post);
  }

  // A queued job is submitted, accepted by the provider, and claimed for polling.
  lemma PollingReachable(s: State) returns (t: State)
    requires PlainlyReachable(s) && Single(s, Queued) && s.jobs["j"].media.None? && s.jobs["j"].remote.None?
    ensures PlainlyReachable(t) && t.retrying == s.retrying && t.up && t.jobs.Keys == {"j"}
    ensures OfExample(t.jobs["j"]) && t.worker == ToPoll("j", Some("r"), None) && t.jobs["j"].nextCheck <= 2.0
  {
    t := PostedReachable(s);
    ReachStep(t, SubmitRemote("r", "u", 0.0));
    t := Apply(t, SubmitRemote("r", "u", 0.0));
    ReachStep(t, Claim("j", 2.0));
    t := Apply(t, Claim("j", 2.0));
  }

  lemma FailedReachable() returns (s: State)
    ensures PlainlyReachable(s) && Single(s, Failed) && s.retrying == multiset{}
  {
    assert Exec(INIT, []) == Some(INIT);
    ReachStep(INIT, Create("j", "p", "b", 0));
    s := PollingReachable(Apply(INIT, Create("j", "p", "b", 0)));
    ReachStep(s, Fail);
    s := Apply(s, Fail);
  }

  // Two retries read the failed row; the first one's job is already being polled when the second commits.
  lemma RaceReachable() returns (s: State)
    ensures PlainlyReachable(s) && Enabled(s, RetryWrite("j")) && Raced(s, RetryWrite("j"))
    ensures s.jobs.Keys == {"j"} && OfExample(s.jobs["j"]) && s.jobs["j"].nextCheck <= 2.0
    ensures s.worker == ToPoll("j", Some("r"), None)
  {
    s := FailedReachable();
    ReachStep(s, RetryRead("j"));
    s := Apply(s, RetryRead("j"));
    ReachStep(s, RetryRead("j"));
    s := Apply(s, RetryRead("j"));
    ReachStep(s, RetryWrite("j"));
    s := PollingReachable(Apply(s, RetryWrite("j")));
  }
}

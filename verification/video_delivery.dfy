/** Jobs and versions together: what a delivery registers, and what becomes of it when the process
    crashes before the job is completed. */
module VideoDelivery {
  import opened Options
  import opened VideoNames
  import opened VideoVersions
  import opened VideoJobs

  datatype Service = Service(job: State, rows: Rows)

  // What the worker's import of these bytes is identified by. The remote id is that of its own copy
  // of the claimed row.
  function Delivery(row: Job, id: Id, remote: Option<string>, sha: Digest): Identity {
    Identity.Imported(row.project, sha, "provider-result", Some(Provider(row.backend, id, remote)))
  }

  function DemoVideo(row: Job, id: Id, sha: Digest): Identity {
    Identity.Imported(row.project, sha, "demo-pattern", Some(DemoBackend(id)))
  }

  // One step: the job protocol's, with what it does to the versions.
  ghost predicate Next(c: Crypto, x: Service, a: Action, y: Service) {
    && Offered(x.job, a) && y.job == Apply(x.job, a)
    && match a
       case Import(v, sha) =>
         var w := x.job.worker;
         Registers(c, x.rows, y.rows, v, Delivery(x.job.jobs[w.id], w.id, w.remote, sha))
       case DemoImport(v, sha) =>
         Registers(c, x.rows, y.rows, v, DemoVideo(x.job.jobs[x.job.worker.id], x.job.worker.id, sha))
       case Publish(v, project) => Adds(c, x.rows, y.rows, v) && y.rows[v].project == project
       case _ => y.rows == x.rows
  }

  ghost predicate Leads(c: Crypto, x: Service, run: seq<Action>, y: Service)
    decreases |run|
  {
    if run == [] then x == y
    else exists m :: Leads(c, x, Init(run), m) && Next(c, m, Last(run), y)
  }

  function Init<T>(s: seq<T>): seq<T>
    requires s != []
  {
    s[..|s| - 1]
  }

  function Last<T>(s: seq<T>): T
    requires s != []
  {
    s[|s| - 1]
  }

  const START := Service(INIT, map[])

  ghost predicate Reached(c: Crypto, x: Service) {
    exists run :: Leads(c, START, run, x)
  }

  // ----- the steps are steps of the protocol

  ghost predicate Mirrored(versions: map<Id, Id>, rows: Rows) {
    versions.Keys == rows.Keys && forall v | v in rows :: versions[v] == rows[v].project
  }

  // The version that the worker has registered is the one of its bytes.
  ghost predicate WorkerTrue(c: Crypto, x: Service) {
    var w := x.job.worker;
    w.Imported? ==> w.id in x.job.jobs && Has(x.rows, w.version, x.job.jobs[w.id].project,
                                               c.fingerprint(Delivery(x.job.jobs[w.id], w.id, w.remote, w.sha)))
  }

  ghost predicate Good(c: Crypto, x: Service) {
    Inv(x.job) && BusyOk(x.job) && Mirrored(x.job.versions, x.rows) && OnePerFingerprint(x.rows) && WorkerTrue(c, x)
  }

  // An import's version is new or its project's own: the guard of the protocol holds by itself.
  lemma RegistersFits(c: Crypto, rows: Rows, rows': Rows, v: Id, i: Identity, versions: map<Id, Id>)
    requires OnePerFingerprint(rows) && Mirrored(versions, rows)
    requires i.Imported? && Registers(c, rows, rows', v, i)
    ensures v in versions ==> versions[v] == i.project
    ensures Has(rows', v, i.project, c.fingerprint(i))
    ensures OnePerFingerprint(rows') && Extends(rows, rows') && Mirrored(versions[v := i.project], rows')
  {
    if rows' != rows {
      AddsKeepsOne(c, rows, rows', v);
    }
  }

  lemma NextRefines(c: Crypto, x: Service, a: Action, y: Service)
    requires Good(c, x) && Next(c, x, a, y)
    ensures Enabled(x.job, a) && Mirrored(y.job.versions, y.rows)
    ensures OnePerFingerprint(y.rows) && Extends(x.rows, y.rows)
  {
    if a.Import? || a.DemoImport? {
      ImportRefines(c, x, a, y);
    } else if a.Publish? {
      AddsKeepsOne(c, x.rows, y.rows, a.version);
    }
  }

  lemma ImportRefines(c: Crypto, x: Service, a: Action, y: Service)
    requires Good(c, x) && Next(c, x, a, y) && (a.Import? || a.DemoImport?)
    ensures Enabled(x.job, a) && Mirrored(y.job.versions, y.rows)
    ensures OnePerFingerprint(y.rows) && Extends(x.rows, y.rows)
  {
    var w := x.job.worker;
    var row := x.job.jobs[w.id];
    var i := if a.Import? then Delivery(row, w.id, w.remote, a.sha) else DemoVideo(row, w.id, a.sha);
    RegistersFits(c, x.rows, y.rows, a.version, i, x.job.versions);
  }

  // While the worker holds a job, its row is where the worker put it, or has been queued again.
  ghost predicate BusyOk(s: State) {
    && (!s.up ==> s.worker == Idle)
    && (s.worker != Idle ==> s.worker.id in s.jobs && BusyRow(s.worker, s.jobs[s.worker.id]))
  }

  ghost predicate BusyRow(w: Worker, row: Job) {
    match w
    case Idle => true
    case ToSubmit(_, _) => row.phase == Submitting || row.phase == Queued
    case Posted(_, _) => row.phase == Submitting || row.phase == Queued
    case DemoImported(_, _, _) => row.phase == Submitting || row.phase == Queued
    case ToPoll(_, _, stored) => row.phase == Queued || (row.phase == Polling && row.media == stored)
    case Delivering(_, _, _) =>
      row.phase == Queued || ((row.phase == Polling || row.phase == Downloading) && row.media.Some?)
    case Imported(_, _, _, _, _) =>
      row.phase == Queued || ((row.phase == Polling || row.phase == Downloading) && row.media.Some?)
  }

  lemma StepKeepsBusy(s: State, a: Action)
    requires BusyOk(s) && Offered(s, a)
    ensures BusyOk(Apply(s, a))
  {
  }

  // A job stays, and keeps its project and its backend.
  ghost predicate SameJobs(jobs: Jobs, jobs': Jobs) {
    forall k | k in jobs :: k in jobs' && jobs'[k].project == jobs[k].project && jobs'[k].backend == jobs[k].backend
  }

  lemma StepKeepsJobs(s: State, a: Action)
    requires Offered(s, a)
    ensures SameJobs(s.jobs, Apply(s, a).jobs)
  {
  }

  lemma StepKeepsTrue(c: Crypto, x: Service, a: Action, y: Service)
    requires Good(c, x) && Next(c, x, a, y)
    ensures WorkerTrue(c, y)
  {
    NextRefines(c, x, a, y);
    StepKeepsJobs(x.job, a);
    var w := y.job.worker;
    if a.Import? {
      RegistersFits(c, x.rows, y.rows, w.version, Delivery(x.job.jobs[w.id], w.id, w.remote, w.sha), x.job.versions);
    } else if w.Imported? {
      assert x.job.worker == w;
    }
  }

  // Versions and jobs are never lost.
  ghost predicate Follows(x: Service, y: Service) {
    Extends(x.rows, y.rows) && SameJobs(x.job.jobs, y.job.jobs)
  }

  lemma FollowsOn(x: Service, y: Service, z: Service)
    requires Follows(x, y) && Follows(y, z)
    ensures Follows(x, z)
  {
  }

  lemma StepKeepsGood(c: Crypto, x: Service, a: Action, y: Service)
    requires Good(c, x) && Next(c, x, a, y)
    ensures Good(c, y) && Follows(x, y)
  {
    NextRefines(c, x, a, y);
    StepKeepsInv(x.job, a);
    StepKeepsBusy(x.job, a);
    StepKeepsJobs(x.job, a);
    StepKeepsTrue(c, x, a, y);
  }

  // Every run of the service is a run of the protocol.
  lemma {:induction false} LeadsIsRun(c: Crypto, x: Service, run: seq<Action>, y: Service)
    requires Good(c, x) && Leads(c, x, run, y)
    ensures Good(c, y) && Follows(x, y)
    ensures Exec(x.job, run) == Some(y.job)
    decreases |run|
  {
    if run != [] {
      var m :| Leads(c, x, Init(run), m) && Next(c, m, Last(run), y);
      LeadsIsRun(c, x, Init(run), m);
      StepKeepsGood(c, m, Last(run), y);
      NextRefines(c, m, Last(run), y);
      FollowsOn(x, m, y);
    }
  }

  lemma ReachedIsGood(c: Crypto, x: Service)
    requires Reached(c, x)
    ensures Good(c, x) && Reachable(x.job)
  {
    var run :| Leads(c, START, run, x);
    LeadsIsRun(c, START, run, x);
  }

  // ----- the same bytes once more

  // However the service goes on, another import of the same bytes for the same job is the first version
  // exactly if the worker's copies of the row had the same remote id, or the hash takes one for the other.
  lemma SameBytesAgain(c: Crypto, x: Service, y: Service, v: Id, z: Service)
    requires Good(c, x) && Good(c, y) && Follows(x, y)
    requires x.job.worker.Imported? && y.job.worker.Delivering? && y.job.worker.id == x.job.worker.id
    requires Next(c, y, Import(v, x.job.worker.sha), z)
    ensures var w := x.job.worker;
            var row := x.job.jobs[w.id];
            v == w.version <==> y.job.worker.remote == w.remote
                                || Confused(c, Delivery(row, w.id, w.remote, w.sha),
                                            Delivery(row, w.id, y.job.worker.remote, w.sha))
  {
    NextRefines(c, y, Import(v, x.job.worker.sha), z);
    var w := x.job.worker;
    var i := Delivery(x.job.jobs[w.id], w.id, w.remote, w.sha);
    var j := Delivery(y.job.jobs[w.id], w.id, y.job.worker.remote, w.sha);
    RegistersFits(c, y.rows, z.rows, v, j, y.job.versions);
    SamePrint(c, z.rows, w.version, v, i, j);
  }

  lemma SamePrint(c: Crypto, rows: Rows, u: Id, v: Id, i: Identity, j: Identity)
    requires OnePerFingerprint(rows) && i.project == j.project
    requires Has(rows, u, i.project, c.fingerprint(i)) && Has(rows, v, j.project, c.fingerprint(j))
    ensures v == u <==> i == j || Confused(c, i, j)
  {
  }

  // Whatever is delivered later, by this job or another: it is this version only if project, bytes, backend,
  // job and remote id are the same, or the hash takes one for the other.
  lemma DeliveriesApart(c: Crypto, x: Service, v: Id, sha: Digest, x': Service, y: Service, sha': Digest, y': Service)
    requires Good(c, x) && Next(c, x, Import(v, sha), x') && Good(c, y) && Follows(x', y)
    requires Next(c, y, Import(v, sha'), y')
    ensures var w, w' := x.job.worker, y.job.worker;
            var row, row' := x.job.jobs[w.id], y.job.jobs[w'.id];
            || (row.project, sha, row.backend, w.id, w.remote) == (row'.project, sha', row'.backend, w'.id, w'.remote)
            || Confused(c, Identity.Imported(row.project, sha, "provider-result", Some(Provider(row.backend, w.id, w.remote))),
                        Identity.Imported(row'.project, sha', "provider-result",
                                          Some(Provider(row'.backend, w'.id, w'.remote))))
  {
    var w, w' := x.job.worker, y.job.worker;
    var i, j := Delivery(x.job.jobs[w.id], w.id, w.remote, sha), Delivery(y.job.jobs[w'.id], w'.id, w'.remote, sha');
    RegistersFits(c, x.rows, x'.rows, v, i, x.job.versions);
    RegistersFits(c, y.rows, y'.rows, v, j, y.job.versions);
  }

  lemma DemosApart(c: Crypto, x: Service, v: Id, sha: Digest, x': Service, y: Service, sha': Digest, y': Service)
    requires Good(c, x) && Next(c, x, DemoImport(v, sha), x') && Good(c, y) && Follows(x', y)
    requires Next(c, y, DemoImport(v, sha'), y')
    ensures var k, k' := x.job.worker.id, y.job.worker.id;
            var p, p' := x.job.jobs[k].project, y.job.jobs[k'].project;
            || (p, sha, k) == (p', sha', k')
            || Confused(c, Identity.Imported(p, sha, "demo-pattern", Some(DemoBackend(k))),
                        Identity.Imported(p', sha', "demo-pattern", Some(DemoBackend(k'))))
  {
    var k, k' := x.job.worker.id, y.job.worker.id;
    RegistersFits(c, x.rows, x'.rows, v, DemoVideo(x.job.jobs[k], k, sha), x.job.versions);
    RegistersFits(c, y.rows, y'.rows, v, DemoVideo(y.job.jobs[k'], k', sha'), y.job.versions);
  }

  // ----- a row that waits for its next claim

  predicate Claims(a: Action, k: Id) {
    a.Claim? && a.id == k
  }

  ghost predicate NoClaim(run: seq<Action>, k: Id) {
    forall a | a in run :: !Claims(a, k)
  }

  // The job k has been left by a crash with this row, and nobody works on it.
  ghost predicate Parked(s: State, k: Id, row: Job) {
    && k in s.jobs && RecoveredRow(s.jobs[k]) == RecoveredRow(row) && (s.up ==> s.jobs[k] == RecoveredRow(row))
    && (s.worker == Idle || s.worker.id != k) && k !in s.retrying
  }

  lemma StepKeepsParked(s: State, a: Action, k: Id, row: Job)
    requires Parked(s, k, row) && !Retryable(RecoveredRow(row)) && Offered(s, a) && !Claims(a, k)
    ensures Parked(Apply(s, a), k, row)
  {
  }

  // What the worker's copy of the row of k has kept.
  ghost predicate Copied(s: State, k: Id, remote: Option<string>) {
    s.worker != Idle && s.worker.id == k ==> s.worker.remote == remote
  }

  lemma StepKeepsCopied(s: State, a: Action, k: Id, remote: Option<string>)
    requires Copied(s, k, remote) && Offered(s, a) && !Claims(a, k)
    ensures Copied(Apply(s, a), k, remote)
  {
  }

  // The job k is not about to be submitted, and n POSTs have been made for it.
  ghost predicate NotSubmitting(s: State, k: Id, n: nat) {
    Count(s.posts, k) == n && !(s.worker.ToSubmit? && s.worker.id == k)
  }

  lemma StepKeepsPosted(s: State, a: Action, k: Id, n: nat)
    requires NotSubmitting(s, k, n) && Offered(s, a) && !Claims(a, k)
    ensures NotSubmitting(Apply(s, a), k, n)
  {
  }

  lemma {:induction false} ParkedAlong(c: Crypto, x: Service, run: seq<Action>, y: Service, k: Id, row: Job, n: nat)
    requires Leads(c, x, run, y) && NoClaim(run, k) && Parked(x.job, k, row) && !Retryable(RecoveredRow(row))
    requires NotSubmitting(x.job, k, n)
    ensures Parked(y.job, k, row) && NotSubmitting(y.job, k, n)
    decreases |run|
  {
    if run != [] {
      var m :| Leads(c, x, Init(run), m) && Next(c, m, Last(run), y);
      ParkedAlong(c, x, Init(run), m, k, row, n);
      StepKeepsParked(m.job, Last(run), k, row);
      StepKeepsPosted(m.job, Last(run), k, n);
    }
  }

  lemma {:induction false} CopiedAlong(c: Crypto, x: Service, run: seq<Action>, y: Service, k: Id,
                                       remote: Option<string>)
    requires Leads(c, x, run, y) && NoClaim(run, k) && Copied(x.job, k, remote)
    ensures Copied(y.job, k, remote)
    ensures forall n :: NotSubmitting(x.job, k, n) ==> NotSubmitting(y.job, k, n)
    decreases |run|
  {
    if run != [] {
      var m :| Leads(c, x, Init(run), m) && Next(c, m, Last(run), y);
      CopiedAlong(c, x, Init(run), m, k, remote);
      StepKeepsCopied(m.job, Last(run), k, remote);
      forall n | NotSubmitting(x.job, k, n)
        ensures NotSubmitting(y.job, k, n)
      {
        StepKeepsPosted(m.job, Last(run), k, n);
      }
    }
  }

  // ----- a crash between the registration and the completion

  function Crashed(x: Service): Service {
    x.(job := x.job.(up := false, worker := Idle, retrying := multiset{}))
  }

  // The process has crashed in x, between an import and the completion of its job. It has been started
  // again and has run on to y, where the job is claimed again, and to z, where its result is delivered
  // again; from there nothing has happened to the worker until it completes the job.
  datatype Again = Again(x: Service, others: seq<Action>, y: Service, now: real, rest: seq<Action>, z: Service,
                         version: Id, registered: Service, tail: seq<Action>, last: Service, end: Service)

  function JobOf(a: Again): Id {
    if a.x.job.worker == Idle then "" else a.x.job.worker.id
  }

  ghost predicate ClaimedAgain(c: Crypto, a: Again) {
    && Reached(c, a.x) && a.x.job.worker.Imported?
    && Leads(c, Crashed(a.x), a.others, a.y) && NoClaim(a.others, JobOf(a)) && Offered(a.y.job, Claim(JobOf(a), a.now))
  }

  function Resumed(a: Again): Service
    requires Offered(a.y.job, Claim(JobOf(a), a.now))
  {
    a.y.(job := Apply(a.y.job, Claim(JobOf(a), a.now)))
  }

  ghost predicate DeliveredAgain(c: Crypto, a: Again) {
    && ClaimedAgain(c, a) && Leads(c, Resumed(a), a.rest, a.z) && NoClaim(a.rest, JobOf(a))
    && a.z.job.worker.Delivering? && a.z.job.worker.id == JobOf(a)
    && Next(c, a.z, Import(a.version, a.x.job.worker.sha), a.registered)
    && Leads(c, a.registered, a.tail, a.last) && a.last.job.worker == a.registered.job.worker
    && Next(c, a.last, Complete, a.end)
  }

  lemma CrashParks(s: State)
    requires BusyOk(s) && s.worker.Imported?
    ensures var k, row, t := s.worker.id, s.jobs[s.worker.id], Apply(s, Crash);
            && Parked(t, k, row) && !Retryable(RecoveredRow(row)) && NotSubmitting(t, k, Count(s.posts, k))
            && (row.phase != Queued ==> RecoveredRow(row) == row.(phase := AwaitingResult) && row.media.Some?)
  {
  }

  lemma ClaimUnparks(s: State, k: Id, row: Job, now: real)
    requires Parked(s, k, row) && Offered(s, Claim(k, now))
    ensures var w := Apply(s, Claim(k, now)).worker;
            && w != Idle && w.id == k && w.remote == row.remote
            && (RecoveredRow(row).phase != Queued ==> w == ToPoll(k, row.remote, row.media))
  {
  }

  lemma ResumedIsGood(c: Crypto, a: Again)
    requires ClaimedAgain(c, a)
    ensures Good(c, a.x) && Good(c, Resumed(a)) && Follows(a.x, Resumed(a))
  {
    ReachedIsGood(c, a.x);
    StepKeepsGood(c, a.x, Crash, Crashed(a.x));
    LeadsIsRun(c, Crashed(a.x), a.others, a.y);
    StepKeepsGood(c, a.y, Claim(JobOf(a), a.now), Resumed(a));
    FollowsOn(a.x, Crashed(a.x), a.y);
    FollowsOn(a.x, a.y, Resumed(a));
  }

  // Until the next claim the row stays as recovery left it. If no retry had reset it, the worker then
  // has the remote id and the stored address of the row, and delivers without another POST.
  lemma ResumesWhereItStood(c: Crypto, a: Again)
    requires ClaimedAgain(c, a)
    ensures JobOf(a) in a.x.job.jobs && JobOf(a) in a.y.job.jobs
    ensures a.y.job.jobs[JobOf(a)] == RecoveredRow(a.x.job.jobs[JobOf(a)])
    ensures var row, w := a.x.job.jobs[JobOf(a)], Resumed(a).job.worker;
            && w != Idle && w.id == JobOf(a) && w.remote == row.remote
            && (row.phase != Queued ==> row.media.Some? && w == ToPoll(JobOf(a), row.remote, row.media))
    ensures Count(Resumed(a).job.posts, JobOf(a)) == Count(a.x.job.posts, JobOf(a))
  {
    var k := JobOf(a);
    ResumedIsGood(c, a);
    var row, n := a.x.job.jobs[k], Count(a.x.job.posts, k);
    CrashParks(a.x.job);
    ParkedAlong(c, Crashed(a.x), a.others, a.y, k, row, n);
    ClaimUnparks(a.y.job, k, row, a.now);
  }

  // At the second delivery the worker has the remote id that the row had at the crash.
  lemma RemoteAtRedelivery(c: Crypto, a: Again)
    requires DeliveredAgain(c, a)
    ensures Good(c, a.x) && Good(c, a.z) && Follows(a.x, a.z)
    ensures JobOf(a) in a.x.job.jobs && a.z.job.worker.remote == a.x.job.jobs[JobOf(a)].remote
    ensures a.x.job.jobs[JobOf(a)].phase != Queued ==> Count(a.z.job.posts, JobOf(a)) == Count(a.x.job.posts, JobOf(a))
  {
    var k := JobOf(a);
    ResumedIsGood(c, a);
    ResumesWhereItStood(c, a);
    var row, n := a.x.job.jobs[k], Count(a.x.job.posts, k);
    LeadsIsRun(c, Resumed(a), a.rest, a.z);
    FollowsOn(a.x, Resumed(a), a.z);
    CopiedAlong(c, Resumed(a), a.rest, a.z, k, row.remote);
    assert row.phase != Queued ==> NotSubmitting(Resumed(a).job, k, n);
  }

  // The registration makes the worker complete its job with that version.
  lemma CompletedWith(c: Crypto, z: Service, v: Id, sha: Digest, y: Service, last: Service, end: Service)
    requires Good(c, z) && z.job.worker.Delivering? && Next(c, z, Import(v, sha), y)
    requires last.job.worker == y.job.worker && Next(c, last, Complete, end)
    ensures var k := z.job.worker.id;
            k in end.job.jobs && end.job.jobs[k].phase == Completed && end.job.jobs[k].version == Some(v)
  {
  }

  // The job ends with the version of the second delivery. That is the first one's exactly if, at the
  // crash, the row still had the remote id that the first delivery's claim had read, or the hash takes
  // the two identities for one.
  lemma RedeliveryAfterCrash(c: Crypto, a: Again)
    requires DeliveredAgain(c, a)
    ensures JobOf(a) in a.x.job.jobs && JobOf(a) in a.end.job.jobs
    ensures a.end.job.jobs[JobOf(a)].phase == Completed && a.end.job.jobs[JobOf(a)].version == Some(a.version)
    ensures var row, w := a.x.job.jobs[JobOf(a)], a.x.job.worker;
            a.version == w.version <==> row.remote == w.remote
                                        || Confused(c, Delivery(row, w.id, w.remote, w.sha),
                                                    Delivery(row, w.id, row.remote, w.sha))
    // unless a retry had queued the row, it takes no further POST
    ensures a.x.job.jobs[JobOf(a)].phase != Queued ==> Count(a.z.job.posts, JobOf(a)) == Count(a.x.job.posts, JobOf(a))
  {
    RemoteAtRedelivery(c, a);
    SameBytesAgain(c, a.x, a.z, a.version, a.registered);
    CompletedWith(c, a.z, a.version, a.x.job.worker.sha, a.registered, a.last, a.end);
  }

  // ----- when the row keeps the remote id

  ghost predicate RemoteKept(s: State) {
    s.worker != Idle ==> s.worker.id in s.jobs && s.jobs[s.worker.id].remote == s.worker.remote
  }

  // A retry resets the row whose copy, with a remote id, the worker is at work on.
  predicate Forgets(s: State, a: Action) {
    && a.RetryWrite? && a.id in s.retrying && a.id in s.jobs
    && IndexAllows(s.jobs, a.id, Requeued(s.jobs[a.id]))
    && s.worker != Idle && s.worker.id == a.id && s.worker.remote.Some?
  }

  // A step keeps the remote id exactly when it is not such a retry.
  lemma StepKeepsRemote(s: State, a: Action)
    requires RemoteKept(s) && BusyOk(s) && Offered(s, a)
    ensures RemoteKept(Apply(s, a)) <==> !Forgets(s, a)
  {
    if !OfWorker(a) {
      OthersKeepRemote(s, a);
    }
  }

  lemma OthersKeepRemote(s: State, a: Action)
    requires RemoteKept(s) && BusyOk(s) && Offered(s, a) && !OfWorker(a)
    ensures RemoteKept(Apply(s, a)) <==> !Forgets(s, a)
  {
  }

  // The retries that leave a row without a handle are of this kind: each of them takes the remote id as well.
  lemma RaceForgetsRemote(s: State, a: Action)
    requires Handles(s) && RemoteKept(s) && BusyOk(s) && Enabled(s, a) && Raced(s, a)
    ensures Forgets(s, a) && !RemoteKept(Apply(s, a))
  {
    StepKeepsRemote(s, a);
  }

  ghost predicate Undisturbed(s: State, run: seq<Action>)
    decreases |run|
  {
    run == [] ||
    (Undisturbed(s, Init(run)) && match Exec(s, Init(run)) case None => true case Some(t) => !Forgets(t, Last(run)))
  }

  lemma {:induction false} RemoteKeptAlong(c: Crypto, x: Service, run: seq<Action>, y: Service)
    requires Good(c, x) && RemoteKept(x.job) && Leads(c, x, run, y) && Undisturbed(x.job, run)
    ensures RemoteKept(y.job)
    decreases |run|
  {
    if run != [] {
      var m :| Leads(c, x, Init(run), m) && Next(c, m, Last(run), y);
      LeadsIsRun(c, x, Init(run), m);
      RemoteKeptAlong(c, x, Init(run), m);
      StepKeepsRemote(m.job, Last(run));
    }
  }

  // If no such retry comes between the claim and the crash, the second delivery of the same bytes
  // ends with the job at the first one's version.
  lemma UndisturbedRedelivery(c: Crypto, s: Service, now: real, claimed: Service, run: seq<Action>, a: Again)
    requires Reached(c, s) && Next(c, s, Claim(JobOf(a), now), claimed)
    requires Leads(c, claimed, run, a.x) && Undisturbed(claimed.job, run) && DeliveredAgain(c, a)
    ensures a.version == a.x.job.worker.version
    ensures JobOf(a) in a.end.job.jobs && a.end.job.jobs[JobOf(a)].version == Some(a.x.job.worker.version)
  {
    ReachedIsGood(c, s);
    StepKeepsGood(c, s, Claim(JobOf(a), now), claimed);
    RemoteKeptAlong(c, claimed, run, a.x);
    RedeliveryAfterCrash(c, a);
  }

  // ----- a run in which the row does lose it

  lemma ReachNext(c: Crypto, x: Service, a: Action, y: Service)
    requires Reached(c, x) && Next(c, x, a, y)
    ensures Reached(c, y)
  {
    var run :| Leads(c, START, run, x);
    assert Init(run + [a]) == run && Last(run + [a]) == a;
    assert Leads(c, START, run + [a], y);
  }

  // A step that is no import.
  lemma ReachJob(c: Crypto, x: Service, a: Action) returns (y: Service)
    requires Reached(c, x) && Offered(x.job, a) && !a.Import? && !a.DemoImport? && !a.Publish?
    ensures Reached(c, y) && y == Service(Apply(x.job, a), x.rows)
  {
    y := Service(Apply(x.job, a), x.rows);
    ReachNext(c, x, a, y);
  }

  // The protocol's runs without imports are runs of the service.
  lemma {:induction false} PlainRunLifts(c: Crypto, run: seq<Action>, s: State)
    requires Exec(INIT, run) == Some(s) && Plain(run)
    ensures Leads(c, START, run, Service(s, map[]))
    decreases |run|
  {
    if run != [] {
      var t := Exec(INIT, Init(run)).value;
      PlainRunLifts(c, Init(run), t);
      assert Last(run) in run;
      assert Next(c, Service(t, map[]), Last(run), Service(s, map[]));
    }
  }

  // The identity of what the worker is about to import.
  function AtHand(s: State, sha: Digest): Identity
    requires s.worker.Delivering? && s.worker.id in s.jobs
  {
    Delivery(s.jobs[s.worker.id], s.worker.id, s.worker.remote, sha)
  }

  // A delivery by the worker adds a row for its print, which no version has.
  lemma ReachImport(c: Crypto, x: Service, v: Id, sha: Digest) returns (y: Service)
    requires SignsSoundly(c) && Reached(c, x) && x.job.up && x.job.worker.Delivering? && v !in x.rows
    requires x.job.worker.id in x.job.jobs
    requires !Known(x.rows, AtHand(x.job, sha).project, c.fingerprint(AtHand(x.job, sha)))
    ensures Reached(c, y) && y.job == Apply(x.job, Import(v, sha)) && y.rows.Keys == x.rows.Keys + {v}
    ensures Next(c, x, Import(v, sha), y)
    ensures forall u | u in x.rows :: y.rows[u] == x.rows[u]
    ensures y.rows[v] == ImportRow(c, AtHand(x.job, sha), y.rows[v].sealed)
  {
    var i := AtHand(x.job, sha);
    var m := NewManifest(c, x.rows, v, i.project, None, sha, sha, "generated", Origin(i.origin), c.fingerprint(i), "");
    y := Service(Apply(x.job, Import(v, sha)), x.rows[v := ImportRow(c, i, Sealed(m, c.sign(m, 0)))]);
    ReachNext(c, x, Import(v, sha), y);
  }

  lemma OneStep(c: Crypto, x: Service, a: Action, y: Service)
    requires Next(c, x, a, y)
    ensures Leads(c, x, [a], y)
  {
    assert Init([a]) == [] && Last([a]) == a;
    assert Leads(c, x, [], x);
  }

  // The only job was claimed with the remote id r; a racing retry has cleared it, and the result is at m.
  ghost predicate Cleared(s: State) {
    && s.up && s.jobs.Keys == {"j"} && OfExample(s.jobs["j"]) && s.jobs["j"].phase == Downloading
    && s.jobs["j"].nextCheck <= 2.0 && s.jobs["j"].remote == None && s.jobs["j"].media == Some("m")
  }

  // Its result, as a worker that knows the remote id registers it, and as one that does not.
  const KNOWN := Identity.Imported("p", "bytes", "provider-result", Some(Provider("b", "j", Some("r"))))
  const UNKNOWN := Identity.Imported("p", "bytes", "provider-result", Some(Provider("b", "j", None)))

  // v is its only version.
  ghost predicate OneVersion(c: Crypto, rows: Rows) {
    rows.Keys == {"v"} && rows["v"] == ImportRow(c, KNOWN, rows["v"].sealed)
  }

  lemma ClearedReachable() returns (s: State)
    ensures PlainlyReachable(s) && Cleared(s) && s.worker == Delivering("j", Some("r"), false)
  {
    s := RaceReachable();
    ReachStep(s, RetryWrite("j"));
    s := Apply(s, RetryWrite("j"));
    ReachStep(s, PollCompleted("m"));
    s := Apply(s, PollCompleted("m"));
  }

  lemma FirstImport(c: Crypto) returns (x: Service)
    requires SignsSoundly(c)
    ensures Reached(c, x) && Cleared(x.job) && x.job.worker == Worker.Imported("j", Some("r"), "v", "bytes", false)
    ensures OneVersion(c, x.rows)
  {
    var s := ClearedReachable();
    var run :| Plain(run) && Exec(INIT, run) == Some(s);
    PlainRunLifts(c, run, s);
    assert AtHand(s, "bytes") == KNOWN;
    x := ReachImport(c, Service(s, map[]), "v", "bytes");
  }

  // After a crash the row, without its remote id, is claimed for the stored result.
  lemma CrashToDelivery(s: State)
    requires Cleared(s) && s.worker.Imported?
    ensures var t := Apply(s, Crash);
            && Offered(t, Recover)
            && var u := Apply(t, Recover);
               && Offered(u, Claim("j", 2.0))
               && var v := Apply(u, Claim("j", 2.0));
                  && Offered(v, PollStored)
                  && var w := Apply(v, PollStored);
                     && w.up && w.worker == Delivering("j", None, false) && "j" in w.jobs && OfExample(w.jobs["j"])
  {
  }

  lemma DeliveringAgain(c: Crypto, x: Service) returns (y: Service, z: Service)
    requires Reached(c, x) && Cleared(x.job) && x.job.worker.Imported?
    ensures Leads(c, Crashed(x), [Recover], y) && Offered(y.job, Claim("j", 2.0))
    ensures Leads(c, y.(job := Apply(y.job, Claim("j", 2.0))), [PollStored], z)
    ensures Reached(c, z) && z.job.up && z.job.worker == Delivering("j", None, false) && z.rows == x.rows
    ensures "j" in z.job.jobs && OfExample(z.job.jobs["j"])
  {
    CrashToDelivery(x.job);
    var down := ReachJob(c, x, Crash);
    y := ReachJob(c, down, Recover);
    OneStep(c, down, Recover, y);
    var claimed := ReachJob(c, y, Claim("j", 2.0));
    z := ReachJob(c, claimed, PollStored);
    OneStep(c, claimed, PollStored, z);
  }

  // Two versions of one project with the same bytes.
  predicate SameFile(rows: Rows, u: Id, v: Id) {
    u in rows && v in rows && rows[u].output == rows[v].output && rows[u].project == rows[v].project
  }

  lemma SecondImport(c: Crypto, x: Service, z: Service) returns (y: Service, end: Service)
    requires SignsSoundly(c) && !Confused(c, KNOWN, UNKNOWN) && OneVersion(c, x.rows)
    requires Reached(c, z) && z.job.up && z.job.worker == Delivering("j", None, false) && z.rows == x.rows
    requires "j" in z.job.jobs && OfExample(z.job.jobs["j"])
    ensures Next(c, z, Import("w", "bytes"), y) && Leads(c, y, [], y) && Next(c, y, Complete, end)
    ensures SameFile(end.rows, "v", "w")
  {
    assert AtHand(z.job, "bytes") == UNKNOWN;
    y := ReachImport(c, z, "w", "bytes");
    end := Service(Apply(y.job, Complete), y.rows);
  }

  // The process crashes, and the same bytes are delivered once more: as a second version, under every
  // hash that tells this one pair of identities apart.
  lemma SecondVersionReachable(c: Crypto) returns (a: Again)
    requires SignsSoundly(c) && !Confused(c, KNOWN, UNKNOWN)
    ensures DeliveredAgain(c, a) && a.version != a.x.job.worker.version
    ensures SameFile(a.end.rows, a.x.job.worker.version, a.version)
  {
    var x := FirstImport(c);
    var y, z := DeliveringAgain(c, x);
    var registered, end := SecondImport(c, x, z);
    a := Again(x, [Recover], y, 2.0, [PollStored], z, "w", registered, [], registered, end);
    assert NoClaim([Recover], "j") && NoClaim([PollStored], "j");
  }

  // There is such a hash and such a signature, so the run exists.
  lemma SecondVersionExists() returns (c: Crypto, a: Again)
    ensures SignsSoundly(c) && DeliveredAgain(c, a) && a.version != a.x.job.worker.version
    ensures SameFile(a.end.rows, a.x.job.worker.version, a.version)
  {
    c := Crypto((s: Sealed) => s.proof.text, (i: Identity) => if i == UNKNOWN then "u" else "k",
                (m: Manifest, r: nat) => Proof(""), (s: Sealed) => true);
    a := SecondVersionReachable(c);
  }

  // ----- the demo backend

  // The worker has stored the demo video of a job, and the row is still being submitted. A crash leaves the
  // job for review: unless a retry of it commits, the row stays so and nobody works on it.
  lemma DemoIsNotRedelivered(c: Crypto, x: Service, run: seq<Action>, y: Service)
    requires Reached(c, x) && x.job.worker.DemoImported?
    requires x.job.worker.id in x.job.jobs && x.job.jobs[x.job.worker.id].phase == Submitting
    requires Leads(c, Crashed(x), run, y)
    requires forall a | a in run :: !(a.RetryWrite? && a.id == x.job.worker.id)
    ensures var k := x.job.worker.id;
            && k in y.job.jobs && (y.job.up ==> y.job.jobs[k] == x.job.jobs[k].(phase := NeedsReview))
            && (y.job.worker == Idle || y.job.worker.id != k)
  {
    ReachedIsGood(c, x);
    var k := x.job.worker.id;
    AsideAlong(c, Crashed(x), run, y, k, x.job.jobs[k]);
  }

  ghost predicate Aside(s: State, k: Id, row: Job) {
    && k in s.jobs && RecoveredRow(s.jobs[k]) == RecoveredRow(row) && (s.up ==> s.jobs[k] == RecoveredRow(row))
    && (s.worker == Idle || s.worker.id != k)
  }

  lemma StepKeepsAside(s: State, a: Action, k: Id, row: Job)
    requires Aside(s, k, row) && Retryable(RecoveredRow(row)) && Offered(s, a) && !(a.RetryWrite? && a.id == k)
    ensures Aside(Apply(s, a), k, row)
  {
  }

  lemma {:induction false} AsideAlong(c: Crypto, x: Service, run: seq<Action>, y: Service, k: Id, row: Job)
    requires Leads(c, x, run, y) && Aside(x.job, k, row) && Retryable(RecoveredRow(row))
    requires forall a | a in run :: !(a.RetryWrite? && a.id == k)
    ensures Aside(y.job, k, row)
    decreases |run|
  {
    if run != [] {
      var m :| Leads(c, x, Init(run), m) && Next(c, m, Last(run), y);
      AsideAlong(c, x, Init(run), m, k, row);
      StepKeepsAside(m.job, Last(run), k, row);
    }
  }
}

/** The Store and Providers objects: the methods that perform the writes of the job protocol, one
    after another, and register what a provider delivers. */
module VideoStore {
  import opened Options
  import opened VideoNames
  import opened VideoJobs
  import opened VideoDelivery
  import VideoVersions

  // What the outside world answers while one claimed job is processed.
  datatype Kind = Demo | HttpSync | FalQueue | Unknown
  datatype Reply = Reply(media: Option<string>, rid: Option<string>, url: string)
  datatype Status = Pending | Finished(media: string) | BadStatus

  // Fetched bytes, and what a new version would be given.
  datatype Fetched = Fetched(file: VideoVersions.File, intact: bool, id: Id, nonce: nat, rest: string)

  datatype World = World(
    kind: Kind,
    ready: bool,               // the backend and its URL pass the checks that precede the POST
    post: Option<Reply>,       // None: the POST raised
    status: Status,
    fetched: Option<Fetched>,  // None: the download, or the demo's rendering, raised
    now: real)

  // ----- the row that processing leaves

  // The bytes were fetched and registered as v, or delivery failed.
  function Delivered(row: Job, v: Option<Id>, submitted: bool): Job {
    if v.Some? then Done(row, v.value) else Ended(row, submitted)
  }

  function AfterPost(row: Job, reply: Reply, w: World, v: Option<Id>): Job {
    if w.kind == HttpSync && reply.media.Some? then Delivered(Located(row, reply.media.value), v, true)
    else if w.kind == FalQueue && reply.rid.Some? then Ticketed(row, reply.rid.value, reply.url, w.now)
    else Ended(row, true)
  }

  function AfterStatus(row: Job, w: World, v: Option<Id>): Job {
    match w.status
    case Pending => Postponed(row, w.now)
    case Finished(media) => Delivered(Located(row, media), v, false)
    case BadStatus => Ended(row, false)
  }

  // What becomes of a claimed row, if its delivery, where it comes to one, registers v.
  function Outcome(row: Job, w: World, v: Option<Id>): Job {
    if row.phase == Submitting then
      if w.kind == Demo then Delivered(row, v, true)
      else if w.ready && w.post.Some? then AfterPost(row, w.post.value, w, v)
      else Ended(row, true)
    else if row.media.Some? then Delivered(row, v, false)
    else if w.kind == FalQueue && row.remote.Some? then AfterStatus(row, w, v)
    else Ended(row, false)
  }

  // Whether the claimed row is sent to its provider.
  predicate Posts(row: Job, w: World) {
    row.phase == Submitting && w.kind != Demo && w.ready
  }

  // What an import by the worker on this row is identified by.
  function IdentityOf(row: Job, id: Id, w: World): VideoVersions.Identity
    requires w.fetched.Some?
  {
    var sha := w.fetched.value.file.sha;
    if row.phase == Submitting && w.kind == Demo then DemoVideo(row, id, sha) else Delivery(row, id, row.remote, sha)
  }

  // Processing settles a row: it is never put back in the queue, a submission that failed is left for review,
  // a waiting row can be polled, and a completed one names the delivered version.
  lemma OutcomeSettles(row: Job, w: World, v: Option<Id>)
    requires row.phase == Submitting || row.phase == Polling
    ensures var r := Outcome(row, w, v);
            && (r.phase == Completed || r.phase == AwaitingResult || r.phase == NeedsReview || r.phase == Failed)
            && (r.phase == NeedsReview ==> row.phase == Submitting) && (r.phase == Failed ==> row.phase == Polling)
            && (r.phase == AwaitingResult ==> r.remote.Some? && w.now + 2.0 <= r.nextCheck <= w.now + 5.0)
            && (r.phase == Completed ==> v.Some? && r.version == v)
            && r.project == row.project && r.backend == row.backend && r.attempts == row.attempts
  {
  }

  // Where processing comes to the registration of fetched bytes.
  predicate Delivers(row: Job, w: World) {
    if row.phase == Submitting then
      w.kind == Demo
      || (w.kind == HttpSync && w.ready && w.post.Some? && w.post.value.media.Some?)
    else row.media.Some? || (w.kind == FalQueue && row.remote.Some? && w.status.Finished?)
  }

  // Where it leaves the job with the provider: a ticket was issued, or the answer is still pending.
  predicate Waits(row: Job, w: World) {
    w.kind == FalQueue
    && if row.phase == Submitting then w.ready && w.post.Some? && w.post.value.rid.Some?
       else row.media == None && row.remote.Some? && w.status == Pending
  }

  // A row is completed exactly if its bytes are registered, waits exactly if the provider is still at work,
  // and remembers the ticket or the address that it was given.
  lemma OutcomeDecided(row: Job, w: World, v: Option<Id>)
    requires row.phase == Submitting || row.phase == Polling
    ensures var r := Outcome(row, w, v);
            && (r.phase == Completed <==> Delivers(row, w) && v.Some?) && (r.phase == AwaitingResult <==> Waits(row, w))
            && (row.phase == Submitting && Waits(row, w) ==>
                  r.remote == w.post.value.rid && r.result == Some(w.post.value.url))
            && (row.phase == Polling || !Waits(row, w) ==> r.remote == row.remote && r.result == row.result)
            && r.media == if !Delivers(row, w) || (row.phase == Submitting && w.kind == Demo) then row.media
                          else if row.phase == Submitting then w.post.value.media
                          else if row.media.Some? then row.media
                          else Some(w.status.media)
  {
  }

  // ----- recovery

  // The four updates of recovery, on one row.
  function SettleSubmit(row: Job): Job {
    if row.phase == Submitting then row.(phase := NeedsReview) else row
  }

  function SettlePoll(row: Job): Job {
    if row.phase == Polling && HasHandle(row) then row.(phase := AwaitingResult) else row
  }

  function SettleDownload(row: Job): Job {
    if row.phase == Downloading && row.media.Some? then row.(phase := AwaitingResult) else row
  }

  function SettleRest(row: Job): Job {
    if (row.phase == Downloading || row.phase == Polling) && !HasHandle(row) then row.(phase := NeedsReview) else row
  }

  lemma FourUpdates(row: Job)
    ensures SettleRest(SettleDownload(SettlePoll(SettleSubmit(row)))) == RecoveredRow(row)
  {
  }

  lemma RecoveredIs(before: Jobs, after: Jobs)
    requires after.Keys == before.Keys
    requires forall k | k in before :: after[k] == SettleRest(SettleDownload(SettlePoll(SettleSubmit(before[k]))))
    ensures after == Recovered(before)
  {
    forall k | k in before
      ensures after[k] == RecoveredRow(before[k])
    {
      FourUpdates(before[k]);
    }
  }

  class Store {
    var jobs: Jobs
    const history: VideoVersions.History

    constructor (history: VideoVersions.History)
      ensures jobs == map[] && this.history == history
    {
      this.history := history;
      jobs := map[];
    }

    // Fails on an unknown project, on an active job of the project, and on an identifier that is taken.
    method CreateJob(id: Id, project: Id, backend: string, now: nat) returns (ok: bool)
      modifies this`jobs
      ensures ok <==> project in history.projects && id !in old(jobs)
                      && forall k | k in old(jobs) :: !(old(jobs)[k].project == project && Active(old(jobs)[k].phase))
      ensures jobs == if ok then old(jobs)[id := NewJob(project, backend, now)] else old(jobs)
    {
      if project !in history.projects {
        return false;
      }
      if exists k | k in jobs :: jobs[k].project == project && Active(jobs[k].phase) {
        return false;
      }
      if id in jobs {
        return false;
      }
      jobs := jobs[id := NewJob(project, backend, now)];
      return true;
    }

    // Takes the oldest row that is due, if there is one.
    method ClaimJob(now: real) returns (claimed: Option<Id>)
      modifies this`jobs
      ensures claimed == None ==> jobs == old(jobs) && forall k | k in jobs :: !Ready(jobs[k], now)
      ensures claimed.Some? ==>
                && claimed.value in old(jobs) && Ready(old(jobs)[claimed.value], now)
                && jobs == old(jobs)[claimed.value := Claimed(old(jobs)[claimed.value])]
                && forall k | k in old(jobs) && Ready(old(jobs)[k], now) ::
                     old(jobs)[claimed.value].created <= old(jobs)[k].created
    {
      claimed := None;
      var left := jobs.Keys;
      while left != {}
        invariant left <= jobs.Keys
        invariant claimed == None ==> forall k | k in jobs && k !in left :: !Ready(jobs[k], now)
        invariant claimed.Some? ==> claimed.value in jobs && Ready(jobs[claimed.value], now)
        invariant claimed.Some? ==> forall k | k in jobs && k !in left && Ready(jobs[k], now) ::
                                      jobs[claimed.value].created <= jobs[k].created
        decreases left
      {
        var k :| k in left;
        left := left - {k};
        if Ready(jobs[k], now) && (claimed == None || jobs[k].created < jobs[claimed.value].created) {
          claimed := Some(k);
        }
      }
      if claimed.Some? {
        jobs := jobs[claimed.value := Claimed(jobs[claimed.value])];
      }
    }

    // One row update; the index may refuse it, and an unknown row is no update at all.
    method UpdateJob(id: Id, row: Job) returns (ok: bool)
      modifies this`jobs
      ensures ok <==> id in old(jobs) ==> IndexAllows(old(jobs), id, row)
      ensures jobs == if ok && id in old(jobs) then old(jobs)[id := row] else old(jobs)
    {
      if id !in jobs {
        return true;
      }
      if !IndexAllows(jobs, id, row) {
        return false;
      }
      jobs := jobs[id := row];
      return true;
    }

    method RetryJob(id: Id) returns (ok: bool)
      modifies this`jobs
      ensures ok <==> id in old(jobs) && Retryable(old(jobs)[id]) && IndexAllows(old(jobs), id, Requeued(old(jobs)[id]))
      ensures jobs == if ok then old(jobs)[id := Requeued(old(jobs)[id])] else old(jobs)
    {
      if id !in jobs || !Retryable(jobs[id]) {
        return false;
      }
      ok := UpdateJob(id, Requeued(jobs[id]));
    }

    // The four updates of one transaction, in their order.
    method Recover()
      modifies this`jobs
      ensures jobs == Recovered(old(jobs))
    {
      ghost var before := jobs;
      jobs := map k | k in jobs :: SettleSubmit(jobs[k]);
      jobs := map k | k in jobs :: SettlePoll(jobs[k]);
      assert jobs.Keys == before.Keys && forall k | k in before :: jobs[k] == SettlePoll(SettleSubmit(before[k]));
      jobs := map k | k in jobs :: SettleDownload(jobs[k]);
      jobs := map k | k in jobs :: SettleRest(jobs[k]);
      assert jobs.Keys == before.Keys
             && forall k | k in before :: jobs[k] == SettleRest(SettleDownload(SettlePoll(SettleSubmit(before[k]))));
      RecoveredIs(before, jobs);
    }

    // The tables are those of the service state x.
    ghost predicate Mirrors(x: Service)
      reads this, history
    {
      x.job.up && x.job.jobs == jobs && x.rows == history.rows && history.Valid()
    }

    // What registering the fetched bytes of the row as v does to the versions.
    ghost predicate Registered(rows: VideoVersions.Rows, row: Job, id: Id, w: World, v: Option<Id>)
      reads this, history
    {
      if v == None then history.rows == rows
      else w.fetched.Some? && VideoVersions.Has(history.rows, v.value, row.project, history.crypto.fingerprint(IdentityOf(row, id, w)))
    }

    // One claimed job, processed without interference: its commits are steps of the service.
    method ProcessJob(id: Id, w: World, ghost x: Service)
      returns (v: Option<Id>, ghost run: seq<Action>, ghost y: Service)
      requires Mirrors(x) && OneActivePerProject(jobs) && id in jobs
      requires if jobs[id].phase == Submitting then x.job.worker == ToSubmit(id, jobs[id].remote)
               else jobs[id].phase == Polling && x.job.worker == ToPoll(id, jobs[id].remote, jobs[id].media)
      modifies this`jobs, history
      ensures Leads(history.crypto, x, run, y) && Mirrors(y) && y.job.worker == Idle
      ensures jobs == old(jobs)[id := Outcome(old(jobs)[id], w, v)]
      ensures Registered(old(history.rows), old(jobs)[id], id, w, v)
      ensures Count(y.job.posts, id) == Count(x.job.posts, id) + (if Posts(old(jobs)[id], w) then 1 else 0)
    {
      if jobs[id].phase == Submitting {
        v, run, y := Submit(id, w, x);
      } else {
        v, run, y := Poll(id, w, x);
      }
    }

    method Submit(id: Id, w: World, ghost x: Service)
      returns (v: Option<Id>, ghost run: seq<Action>, ghost y: Service)
      requires Mirrors(x) && OneActivePerProject(jobs) && id in jobs
      requires jobs[id].phase == Submitting && x.job.worker == ToSubmit(id, jobs[id].remote)
      modifies this`jobs, history
      ensures Leads(history.crypto, x, run, y) && Mirrors(y) && y.job.worker == Idle
      ensures jobs == old(jobs)[id := Outcome(old(jobs)[id], w, v)]
      ensures Registered(old(history.rows), old(jobs)[id], id, w, v)
      ensures Count(y.job.posts, id) == Count(x.job.posts, id) + (if w.kind != Demo && w.ready then 1 else 0)
    {
      if w.kind == Demo {
        v, run, y := SubmitDemo(id, w, x);
      } else if w.ready {
        run, y := Extended(history.crypto, x, [], x, Post);
        v, run, y := Accept(id, w, x, run, y);
      } else {
        v := None;
        run, y := GiveUp(id, true, x, [], x);
      }
    }

    method SubmitDemo(id: Id, w: World, ghost x: Service)
      returns (v: Option<Id>, ghost run: seq<Action>, ghost y: Service)
      requires Mirrors(x) && id in jobs && w.kind == Demo
      requires jobs[id].phase == Submitting && x.job.worker == ToSubmit(id, jobs[id].remote)
      modifies this`jobs, history
      ensures Leads(history.crypto, x, run, y) && Mirrors(y) && y.job.worker == Idle && y.job.posts == x.job.posts
      ensures jobs == old(jobs)[id := Delivered(old(jobs)[id], v, true)]
      ensures Registered(old(history.rows), old(jobs)[id], id, w, v)
    {
      v := Register(jobs[id].project, "demo-pattern", VideoVersions.DemoBackend(id), w);
      if v.Some? {
        run, y := ExtendedBy(history.crypto, x, [], x, DemoImport(v.value, w.fetched.value.file.sha), history.rows);
        run, y := Finish(id, v.value, x, run, y);
      } else {
        run, y := GiveUp(id, true, x, [], x);
      }
    }

    // The fetched bytes become a file and then a version; None if anything raises.
    method Register(project: Id, origin: string, g: VideoVersions.Generator, w: World) returns (v: Option<Id>)
      requires history.Valid()
      modifies history
      ensures history.Valid()
      ensures v == None ==> history.rows == old(history.rows)
      ensures v.Some? ==> w.fetched.Some? && VideoVersions.Registers(history.crypto, old(history.rows), history.rows,
                            v.value, VideoVersions.Imported(project, w.fetched.value.file.sha, origin, Some(g)))
      ensures v.Some? <==>
                && w.fetched.Some?
                && VideoVersions.IngestionOf(history.projects, old(history.files), history.maxUpload, project,
                                             w.fetched.value.file, w.fetched.value.intact) == VideoVersions.Stored
                && (VideoVersions.Known(old(history.rows), project, history.crypto.fingerprint(
                      VideoVersions.Imported(project, w.fetched.value.file.sha, origin, Some(g))))
                    || w.fetched.value.id !in old(history.rows))
    {
      if w.fetched == None {
        return None;
      }
      var f := w.fetched.value;
      var stored := history.Ingest(project, f.file, f.intact);
      if stored != VideoVersions.Stored {
        return None;
      }
      var r := history.RegisterImport(f.id, f.nonce, f.rest, project, f.file.sha, origin, Some(g));
      return if r.Version? then Some(r.id) else None;
    }

    // What the provider's reply to the POST leads to.
    method Accept(id: Id, w: World, ghost x: Service, ghost run0: seq<Action>, ghost x0: Service)
      returns (v: Option<Id>, ghost run: seq<Action>, ghost y: Service)
      requires Mirrors(x0) && OneActivePerProject(jobs) && id in jobs && w.kind != Demo
      requires Leads(history.crypto, x, run0, x0)
      requires Active(jobs[id].phase) && x0.job.worker == Posted(id, jobs[id].remote)
      modifies this`jobs, history
      ensures Leads(history.crypto, x, run, y) && Mirrors(y) && y.job.worker == Idle && y.job.posts == x0.job.posts
      ensures jobs == old(jobs)[id := if w.post.Some? then AfterPost(old(jobs)[id], w.post.value, w, v)
                                      else Ended(old(jobs)[id], true)]
      ensures Registered(old(history.rows), old(jobs)[id], id, w, v)
    {
      if w.post.Some? && w.kind == HttpSync && w.post.value.media.Some? {
        v, run, y := AcceptMedia(id, w, w.post.value.media.value, x, run0, x0);
      } else if w.post.Some? && w.kind == FalQueue && w.post.value.rid.Some? {
        v := None;
        var ok := UpdateJob(id, Ticketed(jobs[id], w.post.value.rid.value, w.post.value.url, w.now));
        run, y := Extended(history.crypto, x, run0, x0, SubmitRemote(w.post.value.rid.value, w.post.value.url, w.now));
      } else {
        v := None;
        run, y := GiveUp(id, true, x, run0, x0);
      }
    }

    method AcceptMedia(id: Id, w: World, url: string, ghost x: Service, ghost run0: seq<Action>, ghost x0: Service)
      returns (v: Option<Id>, ghost run: seq<Action>, ghost y: Service)
      requires Mirrors(x0) && OneActivePerProject(jobs) && id in jobs && w.kind != Demo
      requires Leads(history.crypto, x, run0, x0)
      requires Active(jobs[id].phase) && x0.job.worker == Posted(id, jobs[id].remote)
      modifies this`jobs, history
      ensures Leads(history.crypto, x, run, y) && Mirrors(y) && y.job.worker == Idle && y.job.posts == x0.job.posts
      ensures jobs == old(jobs)[id := Delivered(Located(old(jobs)[id], url), v, true)]
      ensures Registered(old(history.rows), old(jobs)[id], id, w, v)
    {
      var row := Located(jobs[id], url);
      var ok := UpdateJob(id, row);
      run, y := Extended(history.crypto, x, run0, x0, SubmitMedia(url));
      v, run, y := Deliver(id, row.remote, true, w, x, run, y);
    }

    method Poll(id: Id, w: World, ghost x: Service)
      returns (v: Option<Id>, ghost run: seq<Action>, ghost y: Service)
      requires Mirrors(x) && OneActivePerProject(jobs) && id in jobs
      requires jobs[id].phase == Polling && x.job.worker == ToPoll(id, jobs[id].remote, jobs[id].media)
      modifies this`jobs, history
      ensures Leads(history.crypto, x, run, y) && Mirrors(y) && y.job.worker == Idle && y.job.posts == x.job.posts
      ensures jobs == old(jobs)[id := Outcome(old(jobs)[id], w, v)]
      ensures Registered(old(history.rows), old(jobs)[id], id, w, v)
    {
      if jobs[id].media.Some? {
        run, y := Extended(history.crypto, x, [], x, PollStored);
        v, run, y := Deliver(id, jobs[id].remote, false, w, x, run, y);
      } else if w.kind != FalQueue || jobs[id].remote == None || w.status == BadStatus {
        v := None;
        run, y := GiveUp(id, false, x, [], x);
      } else {
        v, run, y := AskStatus(id, w, x);
      }
    }

    method AskStatus(id: Id, w: World, ghost x: Service)
      returns (v: Option<Id>, ghost run: seq<Action>, ghost y: Service)
      requires Mirrors(x) && OneActivePerProject(jobs) && id in jobs
      requires jobs[id].phase == Polling && w.status != BadStatus
      requires jobs[id].remote.Some? && x.job.worker == ToPoll(id, jobs[id].remote, None)
      modifies this`jobs, history
      ensures Leads(history.crypto, x, run, y) && Mirrors(y) && y.job.worker == Idle && y.job.posts == x.job.posts
      ensures jobs == old(jobs)[id := AfterStatus(old(jobs)[id], w, v)]
      ensures Registered(old(history.rows), old(jobs)[id], id, w, v)
    {
      if w.status == Pending {
        v := None;
        var ok := UpdateJob(id, Postponed(jobs[id], w.now));
        run, y := Extended(history.crypto, x, [], x, PollPending(w.now));
      } else {
        v, run, y := FetchResult(id, w, w.status.media, x);
      }
    }

    method FetchResult(id: Id, w: World, url: string, ghost x: Service)
      returns (v: Option<Id>, ghost run: seq<Action>, ghost y: Service)
      requires Mirrors(x) && OneActivePerProject(jobs) && id in jobs && jobs[id].phase == Polling
      requires jobs[id].remote.Some? && x.job.worker == ToPoll(id, jobs[id].remote, None)
      modifies this`jobs, history
      ensures Leads(history.crypto, x, run, y) && Mirrors(y) && y.job.worker == Idle && y.job.posts == x.job.posts
      ensures jobs == old(jobs)[id := Delivered(Located(old(jobs)[id], url), v, false)]
      ensures Registered(old(history.rows), old(jobs)[id], id, w, v)
    {
      var row := Located(jobs[id], url);
      var ok := UpdateJob(id, row);
      run, y := Extended(history.crypto, x, [], x, PollCompleted(url));
      v, run, y := Deliver(id, row.remote, false, w, x, run, y);
    }

    // Registers the fetched bytes under the claimed remote id, then completes the job.
    method Deliver(id: Id, remote: Option<string>, submitted: bool, w: World, ghost x: Service, ghost run0: seq<Action>,
                   ghost x0: Service)
      returns (v: Option<Id>, ghost run: seq<Action>, ghost y: Service)
      requires Mirrors(x0) && id in jobs && Leads(history.crypto, x, run0, x0)
      requires x0.job.worker == Delivering(id, remote, submitted)
      modifies this`jobs, history
      ensures Leads(history.crypto, x, run, y) && Mirrors(y) && y.job.worker == Idle && y.job.posts == x0.job.posts
      ensures jobs == old(jobs)[id := Delivered(old(jobs)[id], v, submitted)]
      ensures v == None ==> history.rows == old(history.rows)
      ensures v.Some? ==> w.fetched.Some? && VideoVersions.Has(history.rows, v.value, old(jobs)[id].project,
                            history.crypto.fingerprint(Delivery(old(jobs)[id], id, remote, w.fetched.value.file.sha)))
    {
      v := Register(jobs[id].project, "provider-result", VideoVersions.Provider(jobs[id].backend, id, remote), w);
      if v.Some? {
        run, y := ExtendedBy(history.crypto, x, run0, x0, Import(v.value, w.fetched.value.file.sha), history.rows);
        run, y := Finish(id, v.value, x, run, y);
      } else {
        run, y := GiveUp(id, submitted, x, run0, x0);
      }
    }

    method Finish(id: Id, version: Id, ghost x: Service, ghost run0: seq<Action>, ghost x0: Service)
      returns (ghost run: seq<Action>, ghost y: Service)
      requires Mirrors(x0) && id in jobs && Leads(history.crypto, x, run0, x0)
      requires HasVersion(x0.job.worker) && x0.job.worker.id == id && x0.job.worker.version == version
      modifies this`jobs
      ensures Leads(history.crypto, x, run, y) && Mirrors(y) && y.job.worker == Idle && y.job.posts == x0.job.posts
      ensures jobs == old(jobs)[id := Done(old(jobs)[id], version)]
    {
      var ok := UpdateJob(id, Done(jobs[id], version));
      run, y := Extended(history.crypto, x, run0, x0, Complete);
    }

    method GiveUp(id: Id, submitted: bool, ghost x: Service, ghost run0: seq<Action>, ghost x0: Service)
      returns (ghost run: seq<Action>, ghost y: Service)
      requires Mirrors(x0) && id in jobs && Leads(history.crypto, x, run0, x0)
      requires x0.job.worker != Idle && x0.job.worker.id == id && FromSubmit(x0.job.worker) == submitted
      modifies this`jobs
      ensures Leads(history.crypto, x, run, y) && Mirrors(y) && y.job.worker == Idle && y.job.posts == x0.job.posts
      ensures jobs == old(jobs)[id := Ended(old(jobs)[id], submitted)]
    {
      var ok := UpdateJob(id, Ended(jobs[id], submitted));
      run, y := Extended(history.crypto, x, run0, x0, Fail);
    }
  }

  lemma ExtendedBy(c: VideoVersions.Crypto, x: Service, run0: seq<Action>, x0: Service, a: Action,
                   rows: VideoVersions.Rows)
    returns (run: seq<Action>, y: Service)
    requires Leads(c, x, run0, x0) && Offered(x0.job, a) && Next(c, x0, a, Service(Apply(x0.job, a), rows))
    ensures Leads(c, x, run, y) && y == Service(Apply(x0.job, a), rows)
  {
    run, y := run0 + [a], Service(Apply(x0.job, a), rows);
    assert Init(run) == run0 && Last(run) == a;
  }

  lemma Extended(c: VideoVersions.Crypto, x: Service, run0: seq<Action>, x0: Service, a: Action)
    returns (run: seq<Action>, y: Service)
    requires Leads(c, x, run0, x0) && Offered(x0.job, a) && !a.Import? && !a.DemoImport? && !a.Publish?
    ensures Leads(c, x, run, y) && y == Service(Apply(x0.job, a), x0.rows)
  {
    run, y := ExtendedBy(c, x, run0, x0, a, x0.rows);
  }
}

/** The voice worker: a control thread that moves an epoch gate, a capture thread that cuts speech
    into jobs, and an inference thread that answers them. Every action is one lock region, one atomic
    access, or one packet; any interleaving of the three threads is a run. */
module VoiceGate {
  import opened Options

  // The value that no one-shot gate and no seal can hold in effect: all 64 bits set, hence muted.
  const NO_GATE: nat := 0xFFFF_FFFF_FFFF_FFFF

  // The low bit of a gate value mutes; the others are the epoch.
  predicate Muted(gate: nat) {
    gate % 2 == 1
  }

  function Epoch(gate: nat): nat {
    gate / 2
  }

  // One sample: the step that read its block from the pipe, the later step that read the gate for that
  // block, and the gate value it read.
  datatype Sample = Sample(gate: nat, heard: nat, at: nat)

  // A job: the gate value it was captured under, its number, and its samples.
  datatype Job = Job(gate: nat, id: nat, samples: seq<Sample>)

  datatype Packet =
    | Begin(epoch: nat, id: nat)
    | Result(epoch: nat, id: nat)
    | Finish
    | Other                       // meters, acknowledgements, diagnostics

  datatype Capture =
    | Reading                                                   // waiting for the next block
    | Filled(heard: nat)                                        // a block read; the gate not yet
    | Cutting(gate: nat, oneShot: bool)                         // emptying the speech detector
    | Offering(gate: nat, oneShot: bool, samples: seq<Sample>)    // the gate was re-read; the queue not yet locked

  datatype Engine =
    | Waiting
    | Taken(job: Job)             // moved out of the queue
    | Begun(job: Job)             // B sent
    | Computing(job: Job)         // first gate check passed
    | Confirmed(job: Job)         // last gate check passed
    | Closing(job: Job)           // no more to say about the job
    | Released                    // working cleared, F not yet sent

  datatype State = State(
    gate: nat, oneShotGate: nat,
    available: bool, pending: Job, working: bool,
    capture: Capture, previous: nat, sealed: nat, lastId: nat,
    detector: seq<Sample>,        // the samples held by the speech detector
    engine: Engine,
    log: seq<Packet>,
    issued: set<nat>,             // every gate value so far
    oneShots: set<nat>,           // those that were issued as one-shot
    jobs: seq<Job>,               // every job so far
    clock: nat)                   // steps so far

  const INIT := State(1, NO_GATE, false, Job(0, 0, []), false, Reading, 1, NO_GATE, 0, [], Waiting, [], {1}, {}, [], 0)

  datatype Action =
    | Command(value: nat, oneShot: bool)
    | Report                                            // any thread sends a packet of the other kinds
    | ReadBlock
    | ReadConfig(replaceDetector: bool)
    | Drop                                              // a segment is discarded before the gate is re-read
    | Recheck(samples: seq<Sample>)                     // the gate is re-read for a segment
    | Offer
    | EndCutting(reset: bool)
    | Take
    | SendBegin
    | FirstCheck
    | Abstain                                           // no result although the gate still matches
    | LastCheck
    | SendResult
    | Release
    | SendFinish

  predicate Enabled(s: State, a: Action) {
    match a
    case Command(value, oneShot) => value <= NO_GATE && value !in s.issued   // each gate value is issued once
    case Report => true
    case ReadBlock => s.capture.Reading?
    case ReadConfig(_) => s.capture.Filled?
    case Drop => s.capture.Cutting?
    case Recheck(samples) => s.capture.Cutting? && s.sealed != s.capture.gate
                             && |samples| > 0 && forall x | x in samples :: x in s.detector
    case Offer => s.capture.Offering?
    case EndCutting(_) => s.capture.Cutting?
    case Take => s.engine.Waiting? && s.available
    case SendBegin => s.engine.Taken?
    case FirstCheck => s.engine.Begun?
    case Abstain => s.engine.Computing?
    case LastCheck => s.engine.Computing?
    case SendResult => s.engine.Confirmed?
    case Release => s.engine.Closing?
    case SendFinish => s.engine.Released?
  }

  // One block of the capture loop up to the detector: the configuration lock, the reset on a new
  // gate value, and the early exit on a muted or sealed one.
  function AfterConfig(s: State, replaceDetector: bool): State
    requires s.capture.Filled?
  {
    var g := s.gate;
    var kept := if replaceDetector || g != s.previous then [] else s.detector;
    if Muted(g) || s.sealed == g then s.(previous := g, detector := kept, capture := Reading)
    else s.(previous := g, detector := kept + [Sample(g, s.capture.heard, s.clock)], capture := Cutting(g, s.oneShotGate == g))
  }

  function Apply(s: State, a: Action): State
    requires Enabled(s, a)
  {
    Effect(s, a).(clock := s.clock + 1)
  }

  function Effect(s: State, a: Action): State
    requires Enabled(s, a)
  {
    match a
    case Command(value, oneShot) =>
      s.(gate := value, oneShotGate := if oneShot then value else NO_GATE,
         issued := s.issued + {value}, oneShots := if oneShot then s.oneShots + {value} else s.oneShots)
    case Report => s.(log := s.log + [Other])
    case ReadBlock => s.(capture := Filled(s.clock))
    case ReadConfig(replaceDetector) => AfterConfig(s, replaceDetector)
    case Drop => s
    case Recheck(samples) =>
      if s.gate == s.capture.gate then s.(capture := Offering(s.capture.gate, s.capture.oneShot, samples)) else s
    case Offer =>
      var t := s.(capture := Cutting(s.capture.gate, s.capture.oneShot));
      if !s.available && !s.working then
        var job := Job(s.capture.gate, s.lastId + 1, s.capture.samples);
        t.(pending := job, available := true, lastId := s.lastId + 1, jobs := s.jobs + [job],
           sealed := if s.capture.oneShot then s.capture.gate else s.sealed)
      else t
    case EndCutting(reset) => s.(capture := Reading, detector := if reset then [] else s.detector)
    case Take => s.(engine := Taken(s.pending), available := false, working := true)
    case SendBegin => s.(engine := Begun(s.engine.job), log := s.log + [Begin(Epoch(s.engine.job.gate), s.engine.job.id)])
    case FirstCheck =>
      s.(engine := if s.gate == s.engine.job.gate then Computing(s.engine.job) else Closing(s.engine.job))
    case Abstain => s.(engine := Closing(s.engine.job))
    case LastCheck =>
      s.(engine := if s.gate == s.engine.job.gate then Confirmed(s.engine.job) else Closing(s.engine.job))
    case SendResult =>
      s.(engine := Closing(s.engine.job), log := s.log + [Result(Epoch(s.engine.job.gate), s.engine.job.id)])
    case Release => s.(engine := Released, working := false)
    case SendFinish => s.(engine := Waiting, log := s.log + [Finish])
  }

  function Exec(s: State, run: seq<Action>): Option<State>
    decreases |run|
  {
    if run == [] then Some(s)
    else match Exec(s, run[..|run| - 1])
      case None => None
      case Some(t) => if Enabled(t, run[|run| - 1]) then Some(Apply(t, run[|run| - 1])) else None
  }

  // ----- the packet stream

  datatype Stream = Idle | Open(epoch: nat, id: nat, answered: bool)

  // Reads the packets in order; None when one is out of place. B opens a job, at most one result
  // with B's epoch and number may follow, and F closes it.
  function Parse(log: seq<Packet>): Option<Stream>
    decreases |log|
  {
    if log == [] then Some(Idle)
    else match Parse(log[..|log| - 1])
      case None => None
      case Some(st) =>
        match log[|log| - 1]
        case Begin(epoch, id) => if st == Idle then Some(Open(epoch, id, false)) else None
        case Result(epoch, id) => if st == Open(epoch, id, false) then Some(Open(epoch, id, true)) else None
        case Finish => if st.Open? then Some(Idle) else None
        case Other => Some(st)
  }

  lemma ParseSnoc(log: seq<Packet>, p: Packet)
    ensures Parse(log + [p]) ==
            match Parse(log)
            case None => None
            case Some(st) =>
              match p
              case Begin(epoch, id) => if st == Idle then Some(Open(epoch, id, false)) else None
              case Result(epoch, id) => if st == Open(epoch, id, false) then Some(Open(epoch, id, true)) else None
              case Finish => if st.Open? then Some(Idle) else None
              case Other => Some(st)
  {
    assert (log + [p])[..|log|] == log;
  }

  // ----- the invariant

  ghost predicate GoodJob(s: State, j: Job) {
    && !Muted(j.gate) && j.gate in s.issued
    && |j.samples| > 0 && forall x | x in j.samples :: x.gate == j.gate
  }

  ghost predicate QueueOk(s: State) {
    && !(s.available && s.working)
    && (s.available ==> s.jobs != [] && s.pending == s.jobs[|s.jobs| - 1])
    && s.working == (s.engine != Waiting && s.engine != Released)
    && (s.working ==> s.jobs != [] && s.engine.job == s.jobs[|s.jobs| - 1])
    && s.lastId == |s.jobs|
    && (forall i | 0 <= i < |s.jobs| :: s.jobs[i].id == i + 1 && GoodJob(s, s.jobs[i]))
  }

  ghost predicate GateOk(s: State) {
    && s.gate in s.issued && s.previous in s.issued && s.oneShots <= s.issued
    && (forall v | v in s.issued :: v <= NO_GATE)
    && (s.gate != NO_GATE ==> (s.oneShotGate == s.gate <==> s.gate in s.oneShots))
  }

  ghost predicate CaptureOk(s: State) {
    && (forall x | x in s.detector :: x.gate == s.previous)
    && (s.capture.Cutting? || s.capture.Offering? ==>
          && s.capture.gate == s.previous && !Muted(s.previous)
          && (s.capture.oneShot <==> s.previous in s.oneShots))
    && (s.capture.Offering? ==> s.sealed != s.previous && |s.capture.samples| > 0
                                && forall x | x in s.capture.samples :: x.gate == s.previous)
  }

  // A one-shot value that has had its job is sealed while the capture thread is under it, and over
  // once the thread has moved on.
  ghost predicate Spent(s: State, v: nat) {
    if s.previous == v then s.sealed == v else s.gate != v
  }

  ghost predicate OneShotOk(s: State) {
    && (forall i | 0 <= i < |s.jobs| && s.jobs[i].gate in s.oneShots :: Spent(s, s.jobs[i].gate))
    && (forall i, j | 0 <= i < j < |s.jobs| && s.jobs[i].gate == s.jobs[j].gate :: s.jobs[i].gate !in s.oneShots)
  }

  ghost predicate LogOk(s: State) {
    match s.engine
    case Waiting => Parse(s.log) == Some(Idle)
    case Taken(_) => Parse(s.log) == Some(Idle)
    case Begun(j) => Parse(s.log) == Some(Open(Epoch(j.gate), j.id, false))
    case Computing(j) => Parse(s.log) == Some(Open(Epoch(j.gate), j.id, false))
    case Confirmed(j) => Parse(s.log) == Some(Open(Epoch(j.gate), j.id, false))
    case Closing(j) => Parse(s.log).Some? && Parse(s.log).value.Open?
    case Released => Parse(s.log).Some? && Parse(s.log).value.Open?
  }

  // Jobs are begun in the order of their numbers, each at most once.
  ghost predicate BeginsOk(s: State) {
    && (forall k | 0 <= k < |s.log| && s.log[k].Begin? ::
          if s.available || s.engine.Taken? then s.log[k].id < s.lastId else s.log[k].id <= s.lastId)
    && (forall k, l | 0 <= k < l < |s.log| && s.log[k].Begin? && s.log[l].Begin? :: s.log[k].id < s.log[l].id)
  }

  ghost predicate Inv(s: State) {
    QueueOk(s) && GateOk(s) && CaptureOk(s) && OneShotOk(s) && LogOk(s) && BeginsOk(s)
  }

  lemma StepKeepsGate(s: State, a: Action)
    requires GateOk(s) && Enabled(s, a)
    ensures GateOk(Apply(s, a))
  {
  }

  lemma StepKeepsCapture(s: State, a: Action)
    requires GateOk(s) && CaptureOk(s) && Enabled(s, a)
    ensures CaptureOk(Apply(s, a))
  {
  }

  lemma StepKeepsQueue(s: State, a: Action)
    requires GateOk(s) && CaptureOk(s) && QueueOk(s) && Enabled(s, a)
    ensures QueueOk(Apply(s, a))
  {
    if a.Offer? {
      OfferKeepsQueue(s);
    }
  }

  lemma OfferKeepsQueue(s: State)
    requires GateOk(s) && CaptureOk(s) && QueueOk(s) && s.capture.Offering?
    ensures QueueOk(Apply(s, Offer))
  {
  }

  lemma StepKeepsOneShot(s: State, a: Action)
    requires Inv(s) && Enabled(s, a)
    ensures OneShotOk(Apply(s, a))
  {
    if a.Offer? {
      OfferKeepsOneShot(s);
    }
  }

  lemma OfferKeepsOneShot(s: State)
    requires Inv(s) && s.capture.Offering?
    ensures OneShotOk(Apply(s, Offer))
  {
  }

  lemma StepKeepsBegins(s: State, a: Action)
    requires QueueOk(s) && BeginsOk(s) && Enabled(s, a)
    ensures BeginsOk(Apply(s, a))
  {
  }

  lemma StepKeepsLog(s: State, a: Action)
    requires LogOk(s) && Enabled(s, a)
    ensures LogOk(Apply(s, a))
  {
    if a.SendBegin? || a.SendResult? {
      PacketKeepsLog(s, a);
    } else {
      ParseSnoc(s.log, Other);
      ParseSnoc(s.log, Finish);
    }
  }

  lemma PacketKeepsLog(s: State, a: Action)
    requires LogOk(s) && Enabled(s, a) && (a.SendBegin? || a.SendResult?)
    ensures LogOk(Apply(s, a))
  {
    var j := s.engine.job;
    ParseSnoc(s.log, if a.SendBegin? then Begin(Epoch(j.gate), j.id) else Result(Epoch(j.gate), j.id));
  }

  lemma {:induction false} RunKeepsInv(run: seq<Action>)
    ensures var t := Exec(INIT, run); t.Some? ==> Inv(t.value)
    decreases |run|
  {
    if run != [] {
      var head, a := run[..|run| - 1], run[|run| - 1];
      RunKeepsInv(head);
      var s := Exec(INIT, head);
      if s.Some? && Enabled(s.value, a) {
        StepKeepsGate(s.value, a);
        StepKeepsCapture(s.value, a);
        StepKeepsQueue(s.value, a);
        StepKeepsOneShot(s.value, a);
        StepKeepsBegins(s.value, a);
        StepKeepsLog(s.value, a);
      }
    }
  }

  // ----- what the invariant means for every interleaving

  // In a well-parsed stream, nothing but other packets separates a result from the B it answers.
  ghost predicate Answers(log: seq<Packet>, b: nat, k: nat) {
    && b < k < |log| && log[k].Result? && log[b] == Begin(log[k].epoch, log[k].id)
    && forall i | b < i < k :: log[i].Other?
  }

  ghost predicate OpenedAt(log: seq<Packet>, st: Stream, b: nat) {
    && st.Open? && b < |log| && log[b] == Begin(st.epoch, st.id)
    && (forall i | b < i < |log| :: log[i].Other? || log[i].Result?)
    && (!st.answered ==> forall i | b < i < |log| :: log[i].Other?)
  }

  lemma {:induction false} ParseMeans(log: seq<Packet>)
    requires Parse(log).Some?
    ensures Parse(log).value.Open? ==> exists b :: OpenedAt(log, Parse(log).value, b)
    ensures forall k | 0 <= k < |log| && log[k].Result? :: exists b :: Answers(log, b, k)
    decreases |log|
  {
    if log != [] {
      var n := |log| - 1;
      var head := log[..n];
      ParseMeans(head);
      if Parse(head).value.Open? {
        var b :| OpenedAt(head, Parse(head).value, b);
        if log[n].Result? {
          assert Answers(log, b, n);
        }
        if !log[n].Finish? {
          assert OpenedAt(log, Parse(log).value, b);
        }
      } else if log[n].Begin? {
        assert OpenedAt(log, Parse(log).value, n);
      }
      forall k | 0 <= k < n && log[k].Result?
        ensures exists b :: Answers(log, b, k)
      {
        assert head[k].Result?;
        var b :| Answers(head, b, k);
        assert Answers(log, b, k);
      }
    }
  }

  lemma EveryInterleavingIsSafe(run: seq<Action>, s: State)
    requires Exec(INIT, run) == Some(s)
    // at most one job is waiting or being worked on
    ensures !(s.available && s.working)
    // every result answers the latest B, with its epoch and number, before that job's F
    ensures Parse(s.log).Some?
    ensures forall k | 0 <= k < |s.log| && s.log[k].Result? :: exists b :: Answers(s.log, b, k)
    // no number is begun twice
    ensures forall k, l | 0 <= k < l < |s.log| && s.log[k].Begin? && s.log[l].Begin? :: s.log[k].id < s.log[l].id
    // the samples of a job all belong to its own gate value, which is not muted
    ensures forall j | j in s.jobs :: !Muted(j.gate) && j.samples != [] && forall x | x in j.samples :: x.gate == j.gate
    // a one-shot gate value yields at most one job
    ensures forall i, j | 0 <= i < j < |s.jobs| && s.jobs[i].gate == s.jobs[j].gate :: s.jobs[i].gate !in s.oneShots
  {
    RunKeepsInv(run);
    ParseMeans(s.log);
    forall j | j in s.jobs
      ensures GoodJob(s, j)
    {
      var i :| 0 <= i < |s.jobs| && s.jobs[i] == j;
    }
  }

  // ----- a result is about audio that no command has overtaken

  // The state before step i of a run.
  ghost function Before(run: seq<Action>, i: nat): Option<State>
    requires i <= |run|
  {
    Exec(INIT, run[..i])
  }

  lemma {:induction false} RunThrough(run: seq<Action>, i: nat)
    requires Exec(INIT, run).Some? && i <= |run|
    ensures Before(run, i).Some?
    ensures i < |run| ==> Enabled(Before(run, i).value, run[i])
                          && Before(run, i + 1) == Some(Apply(Before(run, i).value, run[i]))
    decreases |run| - i
  {
    if i < |run| {
      RunThrough(run, i + 1);
      assert run[..i + 1][..i] == run[..i];
    } else {
      assert run[..i] == run;
    }
  }

  // No gate value has been read for a block since step i.
  ghost predicate NoRead(run: seq<Action>, i: nat, l: nat) {
    forall m | i <= m < l && m < |run| :: !run[m].ReadConfig?
  }

  // The sample's block and then its gate value were read at their steps.
  ghost predicate ReadAt(run: seq<Action>, x: Sample) {
    && x.heard < x.at < |run| && run[x.heard].ReadBlock? && run[x.at].ReadConfig? && NoRead(run, x.heard, x.at)
    && Before(run, x.at).Some? && Before(run, x.at).value.gate == x.gate
  }

  // The last check of the job's gate value was step l, and it passed.
  ghost predicate CheckedAt(run: seq<Action>, l: nat, j: Job) {
    l < |run| && run[l].LastCheck? && Before(run, l).Some?
    && Before(run, l).value.engine == Computing(j) && Before(run, l).value.gate == j.gate
  }

  ghost predicate AllRead(run: seq<Action>, samples: seq<Sample>) {
    forall x | x in samples :: ReadAt(run, x)
  }

  ghost predicate DetectorRecorded(run: seq<Action>, s: State) {
    && s.clock == |run| && AllRead(run, s.detector)
    && (s.capture.Filled? ==>
          s.capture.heard < |run| && run[s.capture.heard].ReadBlock? && NoRead(run, s.capture.heard, |run|))
  }

  ghost predicate JobsRecorded(run: seq<Action>, s: State) {
    && (s.capture.Offering? ==> AllRead(run, s.capture.samples))
    && (forall i | 0 <= i < |s.jobs| :: AllRead(run, s.jobs[i].samples))
  }

  ghost predicate CheckRecorded(run: seq<Action>, s: State) {
    s.engine.Confirmed? ==> exists l :: CheckedAt(run, l, s.engine.job)
  }

  ghost predicate Recorded(run: seq<Action>, s: State) {
    DetectorRecorded(run, s) && JobsRecorded(run, s) && CheckRecorded(run, s)
  }

  lemma StillRead(run: seq<Action>, a: Action, samples: seq<Sample>)
    requires AllRead(run, samples)
    ensures AllRead(run + [a], samples)
  {
    forall x | x in samples
      ensures ReadAt(run + [a], x)
    {
      assert ReadAt(run, x);
      assert (run + [a])[..x.at] == run[..x.at];
    }
  }

  lemma StepKeepsDetector(run: seq<Action>, s: State, a: Action)
    requires Exec(INIT, run) == Some(s) && DetectorRecorded(run, s) && Enabled(s, a)
    ensures DetectorRecorded(run + [a], Apply(s, a))
  {
    if a.ReadConfig? {
      TakenIn(run, s, a);
    } else {
      StillRead(run, a, s.detector);
    }
  }

  lemma TakenIn(run: seq<Action>, s: State, a: Action)
    requires Exec(INIT, run) == Some(s) && DetectorRecorded(run, s) && Enabled(s, a) && a.ReadConfig?
    ensures DetectorRecorded(run + [a], Apply(s, a))
  {
    StillRead(run, a, s.detector);
    assert (run + [a])[..|run|] == run;
    assert ReadAt(run + [a], Sample(s.gate, s.capture.heard, s.clock));
  }

  lemma StepKeepsJobs(run: seq<Action>, s: State, a: Action)
    requires DetectorRecorded(run, s) && JobsRecorded(run, s) && Enabled(s, a)
    ensures JobsRecorded(run + [a], Apply(s, a))
  {
    var t := Apply(s, a);
    StillRead(run, a, s.detector);
    if s.capture.Offering? {
      StillRead(run, a, s.capture.samples);
    }
    forall i | 0 <= i < |t.jobs|
      ensures AllRead(run + [a], t.jobs[i].samples)
    {
      if i < |s.jobs| {
        StillRead(run, a, s.jobs[i].samples);
      }
    }
  }

  lemma StepKeepsCheck(run: seq<Action>, s: State, a: Action)
    requires Exec(INIT, run) == Some(s) && CheckRecorded(run, s) && Enabled(s, a)
    ensures CheckRecorded(run + [a], Apply(s, a))
  {
    var t := Apply(s, a);
    assert (run + [a])[..|run|] == run;
    if a.LastCheck? && t.engine.Confirmed? {
      assert CheckedAt(run + [a], |run|, t.engine.job);
    } else if t.engine.Confirmed? {
      var l: nat :| CheckedAt(run, l, s.engine.job);
      assert (run + [a])[..l] == run[..l];
      assert CheckedAt(run + [a], l, t.engine.job);
    }
  }

  lemma {:induction false} RunKeepsRecord(run: seq<Action>)
    requires Exec(INIT, run).Some?
    ensures Recorded(run, Exec(INIT, run).value)
    decreases |run|
  {
    if run != [] {
      var head, a := run[..|run| - 1], run[|run| - 1];
      RunKeepsRecord(head);
      var s := Exec(INIT, head).value;
      StepKeepsDetector(head, s, a);
      StepKeepsJobs(head, s, a);
      StepKeepsCheck(head, s, a);
      assert head + [a] == run;
    }
  }

  ghost predicate NoCommand(run: seq<Action>, i: nat, l: nat) {
    forall m | i <= m < l && m < |run| :: !run[m].Command?
  }

  lemma StepAndGate(s: State, a: Action, v: nat)
    requires v in s.issued && Enabled(s, a)
    ensures v in Apply(s, a).issued
    ensures if a.Command? then Apply(s, a).gate != v else Apply(s, a).gate == s.gate
  {
  }

  // Every value is issued once: when the gate has a former value, no command has come in between.
  lemma {:induction false} GateNeverReturns(run: seq<Action>, i: nat, l: nat)
    requires Exec(INIT, run).Some? && i <= l <= |run|
    ensures Before(run, i).Some? && Before(run, l).Some?
    ensures Before(run, i).value.gate in Before(run, l).value.issued
    ensures Before(run, l).value.gate == Before(run, i).value.gate ==> NoCommand(run, i, l)
    decreases l
  {
    RunThrough(run, i);
    if i < l {
      var v, m := Before(run, i).value.gate, l - 1;
      GateNeverReturns(run, i, m);
      RunThrough(run, m);
      StepAndGate(Before(run, m).value, run[m], v);
    } else {
      GateIssued(run[..i]);
    }
  }

  lemma GateIssued(run: seq<Action>)
    requires Exec(INIT, run).Some?
    ensures Exec(INIT, run).value.gate in Exec(INIT, run).value.issued
  {
    RunKeepsInv(run);
  }

  // At step p a result is sent. Its job's gate value was in force at the last check, and no command had
  // come since the gate was read for any of its samples: nor, therefore, since any block but the first
  // one of that gate value was read from the pipe.
  ghost predicate Current(run: seq<Action>, l: nat, p: nat) {
    && l < p < |run| && Before(run, p).Some? && Before(run, p).value.engine.Confirmed?
    && var j := Before(run, p).value.engine.job;
       && CheckedAt(run, l, j) && j.samples != [] && Untouched(run, l, j)
  }

  ghost predicate ReadsGate(run: seq<Action>, i: nat, v: nat) {
    i < |run| && run[i].ReadConfig? && Before(run, i).Some? && Before(run, i).value.gate == v
  }

  ghost predicate Untouched(run: seq<Action>, l: nat, j: Job) {
    && (forall x | x in j.samples :: x.gate == j.gate && x.at < l && ReadAt(run, x) && NoCommand(run, x.at, l))
    && (forall x, i | x in j.samples && 0 <= i < x.at && ReadsGate(run, i, j.gate) :: NoCommand(run, x.heard, l))
  }

  // The packet k of the log is the result that step p sends.
  ghost predicate SentAt(run: seq<Action>, p: nat, k: nat, packet: Packet) {
    && p < |run| && run[p].SendResult? && Before(run, p).Some? && Before(run, p).value.engine.Confirmed?
    && |Before(run, p).value.log| == k
    && var j := Before(run, p).value.engine.job; packet == Result(Epoch(j.gate), j.id)
  }

  lemma StepExtendsLog(s: State, a: Action)
    requires Enabled(s, a)
    ensures var log := Apply(s, a).log;
            && |s.log| <= |log| <= |s.log| + 1 && log[..|s.log|] == s.log
            && (|log| > |s.log| && log[|s.log|].Result? ==>
                  a.SendResult? && log[|s.log|] == Result(Epoch(s.engine.job.gate), s.engine.job.id))
  {
  }

  lemma {:induction false} ResultSent(run: seq<Action>, s: State, k: nat) returns (p: nat)
    requires Exec(INIT, run) == Some(s) && k < |s.log| && s.log[k].Result?
    ensures SentAt(run, p, k, s.log[k])
    decreases |run|
  {
    var n := |run| - 1;
    var t := Exec(INIT, run[..n]).value;
    StepExtendsLog(t, run[n]);
    if k < |t.log| {
      assert s.log[k] == s.log[..|t.log|][k];
      p := ResultSent(run[..n], t, k);
      assert run[..n][..p] == run[..p];
    } else {
      p := n;
    }
  }

  // Every result in the log answers a job whose gate value was still in force at the last check, with
  // no command since the job's audio was taken in.
  lemma ResultsAreCurrent(run: seq<Action>, s: State)
    requires Exec(INIT, run) == Some(s)
    ensures forall k | 0 <= k < |s.log| && s.log[k].Result? ::
              exists p: nat, l: nat :: SentAt(run, p, k, s.log[k]) && Current(run, l, p)
  {
    forall k | 0 <= k < |s.log| && s.log[k].Result?
      ensures exists p: nat, l: nat :: SentAt(run, p, k, s.log[k]) && Current(run, l, p)
    {
      var p := ResultSent(run, s, k);
      var l, j := LastCheckOf(run, p);
      JobRead(run, l, j);
      assert Current(run, l, p);
    }
  }

  lemma LastCheckOf(run: seq<Action>, p: nat) returns (l: nat, j: Job)
    requires Exec(INIT, run).Some? && p < |run| && run[p].SendResult?
    ensures l < p && Before(run, p).Some? && Before(run, p).value.engine == Confirmed(j) && CheckedAt(run, l, j)
  {
    RunThrough(run, p);
    RunKeepsRecord(run[..p]);
    j := Before(run, p).value.engine.job;
    l :| CheckedAt(run[..p], l, j);
    assert run[..p][..l] == run[..l];
  }

  lemma JobRead(run: seq<Action>, l: nat, j: Job)
    requires Exec(INIT, run).Some? && CheckedAt(run, l, j)
    ensures j.samples != [] && Untouched(run, l, j)
  {
    var s := Recalled(run, l, j);
    forall x | x in j.samples
      ensures x.at < l && ReadAt(run, x) && NoCommand(run, x.at, l)
    {
      assert ReadAt(run[..l], x);
      assert run[..l][..x.at] == run[..x.at];
      GateNeverReturns(run, x.at, l);
    }
    forall x, i | x in j.samples && 0 <= i < x.at && ReadsGate(run, i, j.gate)
      ensures NoCommand(run, x.heard, l)
    {
      LaterBlock(run, l, x, i);
    }
  }

  // The job as it was recorded when its last check came.
  lemma Recalled(run: seq<Action>, l: nat, j: Job) returns (s: State)
    requires Exec(INIT, run).Some? && CheckedAt(run, l, j)
    ensures Before(run, l) == Some(s) && GoodJob(s, j) && AllRead(run[..l], j.samples) && s.gate == j.gate
  {
    RunThrough(run, l);
    s := Before(run, l).value;
    RunKeepsInv(run[..l]);
    RunKeepsRecord(run[..l]);
    assert j == s.jobs[|s.jobs| - 1];
  }

  // The gate had been read under this value before the sample's block came: no command since the block.
  lemma LaterBlock(run: seq<Action>, l: nat, x: Sample, i: nat)
    requires Exec(INIT, run).Some? && l < |run| && ReadAt(run, x) && x.at < l && i < x.at
    requires Before(run, l).Some? && ReadsGate(run, i, Before(run, l).value.gate)
    ensures NoCommand(run, x.heard, l)
  {
    assert i < x.heard;
    GateNeverReturns(run, i, l);
  }

  // ----- the first block may be older than the command that opened the gate

  lemma Onward(run: seq<Action>, s: State, a: Action) returns (t: State)
    requires Exec(INIT, run) == Some(s) && Enabled(s, a)
    ensures t == Apply(s, a) && Exec(INIT, run + [a]) == Some(t)
  {
    t := Apply(s, a);
    assert (run + [a])[..|run|] == run;
  }

  const STALE := Job(2, 1, [Sample(2, 0, 2)])

  // A block is read while the gate mutes; the gate opens before it is read for that block.
  lemma StaleSampleReachable() returns (run: seq<Action>, s: State)
    ensures Exec(INIT, run) == Some(s) && run == [ReadBlock, Command(2, false), ReadConfig(false)]
    ensures s.engine.Waiting? && !s.available && !s.working && s.gate == 2 && s.lastId == 0
    ensures s.capture == Cutting(2, false) && s.sealed == NO_GATE && s.detector == STALE.samples
  {
    s := Onward([], INIT, ReadBlock);
    s := Onward([ReadBlock], s, Command(2, false));
    s := Onward([ReadBlock] + [Command(2, false)], s, ReadConfig(false));
    run := [ReadBlock] + [Command(2, false)] + [ReadConfig(false)];
  }

  lemma StaleJobReachable() returns (run: seq<Action>, s: State)
    ensures Exec(INIT, run) == Some(s) && |run| == 5 && run[0].ReadBlock? && run[1] == Command(2, false)
    ensures s.engine.Waiting? && s.available && s.pending == STALE && s.gate == 2
  {
    run, s := StaleSampleReachable();
    s := Onward(run, s, Recheck(STALE.samples));
    run := run + [Recheck(STALE.samples)];
    s := Onward(run, s, Offer);
    run := run + [Offer];
  }

  // Its result is sent although that audio was recorded before the command that unmuted it.
  lemma StaleResultReachable() returns (run: seq<Action>, p: nat)
    ensures Exec(INIT, run).Some? && p < |run| && run[p].SendResult? && Before(run, p).Some?
    ensures Before(run, p).value.engine == Confirmed(STALE)
    ensures exists x | x in STALE.samples :: Before(run, x.heard).Some? && Muted(Before(run, x.heard).value.gate)
                                             && !NoCommand(run, x.heard, x.at)
  {
    var head, s := StaleJobReachable();
    var t := Onward(head, s, Take);
    t := Onward(head + [Take], t, SendBegin);
    t := Onward(head + [Take] + [SendBegin], t, FirstCheck);
    t := Onward(head + [Take] + [SendBegin] + [FirstCheck], t, LastCheck);
    var sending := head + [Take] + [SendBegin] + [FirstCheck] + [LastCheck];
    t := Onward(sending, t, SendResult);
    run, p := sending + [SendResult], |sending|;
    assert run[..p] == sending && run[..0] == [] && run[1] == Command(2, false);
    assert Sample(2, 0, 2) in STALE.samples;
  }

  // A gate value is the epoch and, below it, the mute bit.
  lemma GateParts(gate: nat)
    ensures gate == 2 * Epoch(gate) + (if Muted(gate) then 1 else 0)
  {
  }

  const BLOCKS := [Sample(2, 1, 2), Sample(2, 4, 5)]

  // The detector keeps what it was given: a job may consist of several blocks.
  lemma TwoBlocksReachable() returns (run: seq<Action>, s: State)
    ensures Exec(INIT, run) == Some(s) && s.detector == BLOCKS && s.capture == Cutting(2, false)
    ensures !s.available && !s.working && s.gate == 2 && s.lastId == 0 && s.sealed == NO_GATE
  {
    s := Onward([], INIT, Command(2, false));
    run := [Command(2, false)];
    s := Onward(run, s, ReadBlock);
    run := run + [ReadBlock];
    s := Onward(run, s, ReadConfig(false));
    run := run + [ReadConfig(false)];
    s := Onward(run, s, EndCutting(false));
    run := run + [EndCutting(false)];
    s := Onward(run, s, ReadBlock);
    run := run + [ReadBlock];
    s := Onward(run, s, ReadConfig(false));
    run := run + [ReadConfig(false)];
  }

  lemma TwoBlockJobReachable() returns (run: seq<Action>, s: State)
    ensures Exec(INIT, run) == Some(s) && s.available && s.pending == Job(2, 1, BLOCKS)
  {
    run, s := TwoBlocksReachable();
    s := Onward(run, s, Recheck(BLOCKS));
    run := run + [Recheck(BLOCKS)];
    s := Onward(run, s, Offer);
    run := run + [Offer];
  }
}

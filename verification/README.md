# Verified models of DamageBDD's algorithms and protocols

A Dafny project that models nine self-contained pieces of DamageBDD and proves what they are for. Each file holds
the model and the proofs of one piece; `dafny verify dfyconfig.toml` checks them all.

| files | piece |
|---|---|
| `rings.dfy`, `fft.dfy` | the in-place radix-2 Fourier transform of the phrase matcher, over any commutative ring |
| `dtw.dfy`, `dtw_scores.dfy` | its banded time warping over two rolling rows |
| `reals.dfy`, `lpc.dfy`, `lpc_optimality.dfy`, `lpc_stability.dfy`, `lpc_exactness.dfy` | the linear prediction of the phrase synthesiser |
| `video_names.dfy`, `video_jobs.dfy`, `video_versions.dfy` | the video job protocol with its crashes, and the signed version history |
| `video_delivery.dfy`, `video_store.dfy` | both together: deliveries across crashes, and the store's own methods |
| `voice_gate.dfy` | the epoch gate, job slot and one-shot seal shared by three threads of the voice worker |
| `slab_index.dfy` | the posting index of linked slabs |
| `isogeny_export.dfy` | the depth-bounded graph exporter |
| `numbers.dfy`, `hash_to_curve.dfy`, `hash_to_curve_inputs.dfy` | hashing to Curve25519 |
| `linear_code.dfy`, `bech32.dfy`, `bech32_field.dfy`, `npub.dfy`, `npub_reader.dfy` | the npub text of a key (BIP-173) |
| `bytes.dfy`, `nip44_padding.dfy`, `base64.dfy`, `nip44.dfy`, `nip44_format.dfy`, `exchange.dfy` | payload encryption (NIP-44 version 2) |
| `secp256k1.dfy`, `schnorr.dfy`, `schnorr_equation.dfy` | signatures of BIP-340 and shared secrets |
| `json_text.dfy`, `json_reader.dfy`, `json_scan.dfy`, `json_search.dfy` | the hand-written JSON printer and readers |

Loops and in-place updates are methods on arrays, classes and locals, proved against specification functions or
predicates; protocols are state machines whose steps are the commits, lock regions and atomic accesses of the code.
Hashes, signatures, the cipher's block function and the renderer are parameters with the few laws that are used, the
curve is a group of prime order in which only the field arithmetic of `lift_x` is spelled out, and clocks, providers
and files give arbitrary answers.

## Where the code and its promises differ

- A retry reads the job in one transaction and writes it in another. If two retries of one failed job overlap and the
  second commits while the worker is asking the provider about the job that the first one restarted, the job loses its
  remote id and is then left awaiting a result without any handle. `VideoJobs.StepKeepsHandles` says that this is the
  only step that breaks the promise, `VideoJobs.RaceReachable` and `VideoJobs.RaceLosesHandle` that it does.
- The same race breaks the promise that delivering the same bytes again yields the same version. The worker registers
  a delivery under the remote id of its own copy of the row, while the row has lost it; if the process then crashes, the
  next claim reads no remote id and registers the bytes a second time. `VideoDelivery.SecondVersionReachable` reaches
  that state, and `VideoDelivery.RedeliveryAfterCrash` says exactly when it is avoided: if the row, at the crash, still
  has the remote id that the delivery was claimed with. A demo job is not delivered again at all
  (`VideoDelivery.DemoIsNotRedelivered`).
- The capture thread reads a block from the pipe before it reads the gate. The first block of a new gate value may
  therefore hold audio from before the command, recorded while the gate muted, although epochs are meant to keep such
  audio out: `VoiceGate.StaleResultReachable`. `VoiceGate.ResultsAreCurrent` says that no other block can.
- The key search of the JSON readers looks for the quoted key anywhere. `FlatObjects.LookupExact` says for which keys
  that is harmless on printed flat objects.
- Printing escapes every control character, but reading turns `\u` escapes into question marks.
  `JsonText.RoundTrip` says for which texts the round trip holds.
- `nip44_unpad` does not look at the padding bytes. `Nip44Padding.Unpad` says exactly what it accepts.

## Model

| member | source | states |
|---|---|---|
| Fft.Transform | apps/erm/c_src/erm_phrase_features.h:89-97 | the in-place passes leave a[k] = sum of x[n]·w^(nk) for every k, for every power-of-two length, every commutative ring and every w with w^(N/2) = -1 |
| Fft.BitReverse | apps/erm/c_src/erm_phrase_features.h:89-92 | the incremental loop permutes the array into bit-reversed order: place p holds the sample at the reversal of p |
| Fft.ReversedIncrement | apps/erm/c_src/erm_phrase_features.h:90 | the carry loop adds one at the top of a bit-reversed counter |
| Bits.CarryDownIsSuccessor | apps/erm/c_src/erm_phrase_features.h:90 | a carry that travels down from the top bit takes the reversal of b to the reversal of b + 1 |
| Bits.RevInvolution | apps/erm/c_src/erm_phrase_features.h:89-92 | reversing the low d bits twice is the identity, so swapping each pair once is enough |
| Fft.ReversedIsDone | apps/erm/c_src/erm_phrase_features.h:89-93 | after the reversal the blocks of length one are transforms of their samples |
| Fft.PassInPlace | apps/erm/c_src/erm_phrase_features.h:94-97 | one in-place pass is the pass as a function, on the strided twiddle factors |
| Fft.PassStep | apps/erm/c_src/erm_phrase_features.h:93-97 | a pass takes finished blocks of one length to finished blocks of twice that length |
| Fft.Butterfly | apps/erm/c_src/erm_phrase_features.h:95-96 | sum and difference of a butterfly are the values of the polynomial at v and at -v |
| Fft.StridedSuits | apps/erm/c_src/erm_phrase_features.h:54-95 | every stride of the one twiddle table holds the half turn that its pass needs |
| Fft.EvalIsDft | apps/erm/c_src/erm_phrase_features.h:89-97 | the value of the sample polynomial at w^k is the k-th term of the transform |
| ComplexNumbers.ComplexIsRing | apps/erm/c_src/erm_phrase_features.h:48-54 | complex numbers with exact real parts satisfy the ring laws used above |
| Dtw.Distance | apps/erm/c_src/erm_phrase_features.h:120-136 | 1000 exactly if an input is invalid; otherwise at most 128, and its square times n + m is the minimum cost over all warping paths in the band |
| Dtw.LastEntry | apps/erm/c_src/erm_phrase_features.h:122-134 | the two rolling rows end with the last entry of the whole table |
| Dtw.FillRow | apps/erm/c_src/erm_phrase_features.h:126-132 | one row of the table from the row before it, with unreachable cells at the sentinel |
| Dtw.LastEntryIsMinimum | apps/erm/c_src/erm_phrase_features.h:127-134 | the last entry is the cost of some path and no path costs less |
| Dtw.EntryIsLowerBound | apps/erm/c_src/erm_phrase_features.h:128-131 | no path inside the band costs less than the table entry at its end |
| Dtw.EntryIsAchieved | apps/erm/c_src/erm_phrase_features.h:128-131 | every entry below the sentinel is the cost of a path |
| Dtw.BandHasPath | apps/erm/c_src/erm_phrase_features.h:128 | whatever the two lengths, the band holds a path from corner to corner |
| Dtw.PathWeight | apps/erm/c_src/erm_phrase_features.h:131-135 | the weights of a path to (i,j) total i + j, which is what the score divides by |
| Dtw.ScoreSymmetric | apps/erm/c_src/erm_phrase_features.h:120-136 | the score does not depend on the order of its arguments, and it is 0 on equal ones |
| DtwScores.UniformScore | apps/erm/c_src/erm_phrase_features.h:120-136 | where all pairs of frames differ by the same mean square c, the score is the root of c: dividing by n + m takes the mean over the path |
| DtwScores.PathCostIsSum | apps/erm/c_src/erm_phrase_features.h:129-131 | the cost of a path is the sum over the cells it enters of the mean of the thirteen squared differences, once for every row and every column that the step advances by |
| DtwScores.PathVisits | apps/erm/c_src/erm_phrase_features.h:124-131 | read forwards, a path starts before (1,1), ends at (n,m), and every cell it enters lies in the grid and in the band, in whole numbers |
| DtwScores.BandIsNear | apps/erm/c_src/erm_phrase_features.h:128 | the band is 5·min·|i·m - j·n| <= n·m·(min + 5) |
| DtwScores.ValidMeans | apps/erm/c_src/erm_phrase_features.h:41-45 | an input is valid exactly if it has 1 to 160 frames of thirteen finite values from -64 to 64 |
| Lpc.Analyse | apps/erm/c_src/erm_phrase_synth.h:62-69 | the recursion yields the clamped reflections and floored error of the specification, and its filter is the one that those reflections rebuild, clamped or not |
| Lpc.Coefficients | apps/erm/c_src/erm_phrase_synth.h:29-35 | the stored reflections are turned into the filter of the step-up recursion |
| Lpc.StepUp | apps/erm/c_src/erm_phrase_synth.h:30-33 | one in-place step up, from a copy of the previous filter |
| Lpc.LevinsonPredicts | apps/erm/c_src/erm_phrase_synth.h:63-69 | while no clamp and no floor binds, the filter leaves no correlation at lags 1..n and exactly the error at lag 0 |
| Lpc.LevinsonStep | apps/erm/c_src/erm_phrase_synth.h:65-69 | one step solves the normal equations of the next order and shrinks the error by 1 - k² |
| Lpc.ReflectionsClamped | apps/erm/c_src/erm_phrase_synth.h:66 | every reflection stays within the clamp |
| LpcStability.ContractingIsStable | apps/erm/c_src/erm_phrase_synth.h:25-35 | the filter rebuilt from reflections below 1 has no zero on or outside the unit circle, so the synthesis filter is stable |
| LpcStability.StepOutweighs | apps/erm/c_src/erm_phrase_synth.h:30-33 | inside the unit circle a step up keeps the filter different from zero and no smaller than its reversal |
| LpcStability.AnalysisIsStable | apps/erm/c_src/erm_phrase_synth.h:63-70 | every filter of the recursion is stable, clamped or not |
| Lpc.FilterInjective | apps/erm/c_src/erm_phrase_synth.h:29-35 | reflections below 1 and filters determine each other |
| LpcExactness.AnalysisSolves | apps/erm/c_src/erm_phrase_synth.h:61-69 | where the normal equations of every order up to n, with r[0]·1.0001, have solutions with last coefficient within 0.97 and error of at least 10^-7·r[0] and 10^-12, the recursion returns those reflections, the last error and the last filter |
| LpcExactness.ExactIsTame | apps/erm/c_src/erm_phrase_synth.h:63-69 | and it reports that nothing bound only then |
| LpcExactness.SolutionUnique | apps/erm/c_src/erm_phrase_synth.h:63-69 | those solutions are unique while the lower orders have positive errors |
| LpcExactness.NearestReflection | apps/erm/c_src/erm_phrase_synth.h:66 | of all reflections from -0.97 to 0.97 the one taken leaves the least correlation at its lag, whether the clamp binds or not |
| LpcExactness.ErrorShrinks | apps/erm/c_src/erm_phrase_synth.h:65-69 | the error starts at r[0], or 10^-12, and is multiplied by 1 - k², not below 10^-7·r[0] nor below 10^-12 |
| LpcOptimality.LeastResidual | apps/erm/c_src/erm_phrase_synth.h:61-69 | while nothing binds, no filter of the same order with leading 1 leaves less than the filter found |
| LpcOptimality.EnergyIsResidue | apps/erm/c_src/erm_phrase_synth.h:61 | the quadratic form of the correlations is the energy of the filtered window |
| LpcOptimality.Correlate | apps/erm/c_src/erm_phrase_synth.h:61 | the correlation loop computes the lag products of the zero-padded window |
| VideoJobs.EveryRunIsSafe | apps/ecai_video_fastpath/ecai_video_fastpath/providers.py:85-207 | in every reachable state, with crashes anywhere: one active job per project, downloading has a media URL, completed has a version of its project, and POSTs never exceed one plus the committed retries |
| VideoJobs.StepKeepsInv | apps/ecai_video_fastpath/ecai_video_fastpath/store.py:373-446 | every commit of worker, client, crash and recovery keeps that invariant |
| VideoJobs.RecoverySettles | apps/ecai_video_fastpath/ecai_video_fastpath/store.py:404-413 | after a crash at any point recovery leaves no job submitting, polling or downloading |
| VideoJobs.ScheduleMeans | apps/ecai_video_fastpath/ecai_video_fastpath/store.py:373-446 | new and retried jobs are due at once, others two or five seconds after they were written; only failed and doubtful ones can be retried, and nothing of their provider is kept |
| VideoJobs.AttemptsCountClaims | apps/ecai_video_fastpath/ecai_video_fastpath/store.py:424-425 | over every run the attempts of a job count its claims |
| VideoJobs.CountersCount | apps/ecai_video_fastpath/ecai_video_fastpath/providers.py:103-112 | over every run the counters of the state are the POSTs made for the job claimed last and the retries that took effect |
| VideoJobs.PostsAreEarned | apps/ecai_video_fastpath/ecai_video_fastpath/providers.py:103-112 | counted on the run itself: no run posts more often for a job than once for its creation and once for each retry that took effect |
| VideoJobs.StepKeepsHandles | apps/ecai_video_fastpath/ecai_video_fastpath/store.py:440-446 | a step keeps every awaiting or polling job pollable if and only if it is not a second retry that commits while the worker asks for that job |
| VideoJobs.UnracedRunKeepsHandles | apps/ecai_video_fastpath/ecai_video_fastpath/providers.py:134-171 | in every run without such a retry an awaiting or polling job has a remote id or a media URL |
| VideoJobs.RaceLosesHandle | apps/ecai_video_fastpath/ecai_video_fastpath/store.py:440-446 | after such a retry a pending answer leaves the job awaiting a result that has no handle |
| VideoJobs.RaceReachable | apps/ecai_video_fastpath/ecai_video_fastpath/store.py:440-446 | two retries that read the same failed row reach that situation |
| VideoStore.Store.CreateJob | apps/ecai_video_fastpath/ecai_video_fastpath/store.py:373-387 | a job is created exactly if its project exists and has no active one; nothing else changes |
| VideoStore.Store.ClaimJob | apps/ecai_video_fastpath/ecai_video_fastpath/store.py:415-428 | the oldest due job is claimed, or none is due |
| VideoStore.Store.UpdateJob | apps/ecai_video_fastpath/ecai_video_fastpath/store.py:430-438 | one row is written, unless the partial unique index would see two active rows |
| VideoStore.Store.RetryJob | apps/ecai_video_fastpath/ecai_video_fastpath/store.py:440-446 | only failed or doubtful jobs are put back, with all handles cleared |
| VideoStore.Store.Recover | apps/ecai_video_fastpath/ecai_video_fastpath/store.py:404-413 | the four updates in their order amount to one map of the rows |
| VideoStore.Store.ProcessJob | apps/ecai_video_fastpath/ecai_video_fastpath/providers.py:198-207 | every path through one claimed job is a run of the service that ends with an idle worker, leaves the row that the provider's answers call for and completes it only with a version that the history holds under the print of the fetched bytes; it POSTs once if the job was queued for a real provider whose checks pass, and otherwise not at all |
| VideoStore.OutcomeSettles | apps/ecai_video_fastpath/ecai_video_fastpath/providers.py:85-207 | processing never puts a job back in the queue, leaves a failed submission for review, and completes a job only with the registered version |
| VideoStore.OutcomeDecided | apps/ecai_video_fastpath/ecai_video_fastpath/providers.py:85-207 | a row is completed exactly if its bytes are fetched and registered, waits exactly if a ticket was issued or the answer is pending, and keeps the ticket or address that it was given |
| VideoStore.Store.Submit | apps/ecai_video_fastpath/ecai_video_fastpath/providers.py:85-132 | submission is a run of the service with at most one POST, and leaves the row that the reply calls for |
| VideoStore.Store.Poll | apps/ecai_video_fastpath/ecai_video_fastpath/providers.py:134-171 | polling is a run of the service without a POST, and leaves the row that the answer calls for |
| VideoStore.Store.Deliver | apps/ecai_video_fastpath/ecai_video_fastpath/providers.py:173-196 | delivery registers the bytes under project, backend, job and the remote id of the worker's copy of the row, and only then completes the job with that version |
| VideoStore.Store.SubmitDemo | apps/ecai_video_fastpath/ecai_video_fastpath/providers.py:89-104 | the demo video is registered under its job, and the job completed with it |
| VideoStore.Store.Register | apps/ecai_video_fastpath/ecai_video_fastpath/providers.py:188-191 | a registration succeeds exactly if the file is stored and its print is known or the new identifier is free |
| VideoVersions.History.Verify | apps/ecai_video_fastpath/ecai_video_fastpath/store.py:301-349 | verification reports each check by itself; on an API-built history it succeeds exactly if the file is intact and the version has at most 99 ancestors |
| VideoVersions.History.CheckLineage | apps/ecai_video_fastpath/ecai_video_fastpath/store.py:317-344 | the bounded walk accepts exactly the good lineages of at most 99 links |
| VideoVersions.SealFixesAncestors | apps/ecai_video_fastpath/ecai_video_fastpath/store.py:322-336 | two databases that accept the same sealed version hold the same sealed ancestors up to the root, or two of those very manifests are a collision of the hash |
| VideoVersions.HistoryWithoutCollision | apps/ecai_video_fastpath/ecai_video_fastpath/store.py:192-234 | there are a hash and an accepted history without any such collision |
| VideoVersions.BuiltLineage | apps/ecai_video_fastpath/ecai_video_fastpath/store.py:192-234 | every row written through the API has a good lineage as long as its ancestry |
| VideoVersions.LineageUnique | apps/ecai_video_fastpath/ecai_video_fastpath/store.py:317-344 | a version has lineages of one length only |
| VideoVersions.LineageLinks | apps/ecai_video_fastpath/ecai_video_fastpath/store.py:317-344 | a good lineage is n parents of the same project, each signed, named by its child's signed manifest and equal to what the child was made from, and then a root |
| VideoVersions.SameManifestSameRow | apps/ecai_video_fastpath/ecai_video_fastpath/store.py:303-316 | two rows that pass the identity check against one manifest have the same fields |
| VideoVersions.InsertKeepsBuilt | apps/ecai_video_fastpath/ecai_video_fastpath/store.py:226-231 | a signed row linked to its parent keeps the history built, with one version per fingerprint |
| VideoVersions.History.WriteVersion | apps/ecai_video_fastpath/ecai_video_fastpath/store.py:192-234 | exactly one sealed row is added, or nothing if its identifier is taken |
| VideoVersions.History.RegisterImport | apps/ecai_video_fastpath/ecai_video_fastpath/store.py:236-248 | an import known by its fingerprint returns its version and writes nothing; otherwise one root version is added |
| VideoVersions.History.CreateRevision | apps/ecai_video_fastpath/ecai_video_fastpath/store.py:250-299 | the outcome of every request: refusals in their order, cache hits, rendering failures, or one new version linked to its parent, with the whole new row and which file is then stored |
| VideoVersions.History.Ingest | apps/ecai_video_fastpath/ecai_video_fastpath/store.py:136-154 | refusals in their order, or the file is stored under its hash once; storing it again changes nothing |
| VideoVersions.IngestionMeans | apps/ecai_video_fastpath/ecai_video_fastpath/store.py:136-154 | a file is stored exactly if the project exists, the size and the probe allow it, and a file stored under its hash before is intact |
| VideoVersions.ImportRowMeans | apps/ecai_video_fastpath/ecai_video_fastpath/store.py:236-248 | an import has no parent, is its own source, and is marked as generated exactly if a backend made it |
| VideoVersions.FingerprintIsStable | apps/ecai_video_fastpath/ecai_video_fastpath/store.py:243-247 | as rows are added a fingerprint never moves to another version |
| VideoVersions.ReviseTwice | apps/ecai_video_fastpath/ecai_video_fastpath/store.py:250-299 | a revision asked for once more, whatever is uploaded or revised in between and whatever the renderer would do now, is the version that it was |
| VideoVersions.ReviseApart | apps/ecai_video_fastpath/ecai_video_fastpath/store.py:277-278 | and two revisions that return one version, whatever is served in between, have the same project, parent and options, unless the fingerprint takes what they asked for for one |
| VideoVersions.AcceptedOptions | apps/ecai_video_fastpath/ecai_video_fastpath/store.py:251-272 | exactly which options an operation accepts, and what it keeps of them |
| VideoVersions.RefusalMeans | apps/ecai_video_fastpath/ecai_video_fastpath/store.py:251-276 | exactly which revision requests pass the checks, and what each early refusal says |
| VideoVersions.ImportTwice | apps/ecai_video_fastpath/ecai_video_fastpath/store.py:236-248 | an import asked for once more is the version that it was |
| VideoVersions.Serve | apps/ecai_video_fastpath/ecai_video_fastpath/store.py:236-299 | a request of a client adds one signed row with a new fingerprint, or none |
| VideoDelivery.NextRefines | apps/ecai_video_fastpath/ecai_video_fastpath/providers.py:85-207 | what the history does at an import is what the job protocol allows: the version is new or the project's own |
| VideoDelivery.LeadsIsRun | apps/ecai_video_fastpath/ecai_video_fastpath/providers.py:85-207 | every run of jobs and history together is a run of the job protocol, loses no version, and keeps one version per fingerprint |
| VideoDelivery.SameBytesAgain | apps/ecai_video_fastpath/ecai_video_fastpath/providers.py:188-191 | however the service goes on, a later import of the same bytes for the same job is the first version exactly if the worker's copies of the row had the same remote id, or the fingerprint takes these two identities for one |
| VideoDelivery.DeliveriesApart | apps/ecai_video_fastpath/ecai_video_fastpath/providers.py:188-191 | two deliveries that return one version have the same project, bytes, backend, job and remote id, unless the fingerprint takes the one for the other |
| VideoDelivery.DemosApart | apps/ecai_video_fastpath/ecai_video_fastpath/providers.py:99-100 | so have two demo imports, of the same project, bytes and job |
| VideoDelivery.ResumesWhereItStood | apps/ecai_video_fastpath/ecai_video_fastpath/store.py:404-428 | whatever else happens between a crash during delivery and the next claim, the row stays as recovery left it, and the claim resumes the stored result |
| VideoDelivery.RedeliveryAfterCrash | apps/ecai_video_fastpath/ecai_video_fastpath/providers.py:173-196 | a crash between registration and completion, recovery, any other steps, a new claim and a second delivery of the same bytes: the job ends with the first version exactly if the row, at the crash, still had the remote id that the first delivery was claimed with, or the fingerprint takes the two identities for one; unless a retry had reset the row it takes no further POST |
| VideoDelivery.StepKeepsRemote | apps/ecai_video_fastpath/ecai_video_fastpath/store.py:440-446 | a step keeps the row's remote id equal to the worker's copy exactly if it is not a retry that resets the row which the worker is at work on |
| VideoDelivery.RaceForgetsRemote | apps/ecai_video_fastpath/ecai_video_fastpath/store.py:440-446 | every racing retry that leaves a row without a handle is one of these: it takes the remote id as well |
| VideoDelivery.UndisturbedRedelivery | apps/ecai_video_fastpath/ecai_video_fastpath/providers.py:173-196 | if no such retry comes between the claim and the crash, the second delivery ends with the job at the first version |
| VideoDelivery.SecondVersionReachable | apps/ecai_video_fastpath/ecai_video_fastpath/providers.py:188-191 | two overlapping retries and a crash reach a state in which the same bytes have two versions and the job points at the second, under every fingerprint that tells this one pair of identities apart |
| VideoDelivery.SecondVersionExists | apps/ecai_video_fastpath/ecai_video_fastpath/providers.py:188-191 | there are such a fingerprint and such a run |
| VideoDelivery.DemoIsNotRedelivered | apps/ecai_video_fastpath/ecai_video_fastpath/providers.py:89-104 | a crash between the demo import and the completion leaves the job for review: until a retry of it commits the row stays so and nobody works on it |
| VoiceGate.EveryInterleavingIsSafe | apps/erm/c_src/erm_native_voice.cpp:75-242 | in every interleaving of the three threads: at most one job pending or in work, every result answers the latest B with its epoch and number before its F, a job holds samples of one unmuted gate value, and a one-shot value yields at most one job |
| VoiceGate.ResultsAreCurrent | apps/erm/c_src/erm_native_voice.cpp:144-187 | every result in the log was sent for a job whose gate value was in force at its last check, and no command came between the gate being read for any of its samples and that check, nor since any block but the first one of that gate value was read from the pipe: a mute or cancel invalidates the result |
| VoiceGate.StaleResultReachable | apps/erm/c_src/erm_native_voice.cpp:77-92 | the first block may have been read from the pipe, under a muted gate, before the command that opened it, and its result is sent |
| VoiceGate.TwoBlockJobReachable | apps/erm/c_src/erm_native_voice.cpp:77-111 | a job may consist of several blocks read under one gate value |
| VoiceGate.GateParts | apps/erm/c_src/erm_native_voice.cpp:143-198 | a gate value is the epoch that packets carry and the mute bit below it |
| VoiceGate.GateNeverReturns | apps/erm/c_src/erm_native_voice.cpp:221-242 | as every gate value is issued once, a gate that reads the same twice has seen no command in between |
| VoiceGate.RunKeepsInv | apps/erm/c_src/erm_native_voice.cpp:75-242 | every lock region and atomic access keeps the invariant |
| VoiceGate.StepKeepsOneShot | apps/erm/c_src/erm_native_voice.cpp:105-111 | a one-shot gate value that has had its job is sealed or over |
| VoiceGate.StepKeepsCapture | apps/erm/c_src/erm_native_voice.cpp:78-92 | the detector only ever holds samples of the gate value last seen |
| VoiceGate.StepKeepsQueue | apps/erm/c_src/erm_native_voice.cpp:107-142 | the one-slot queue and the worker never hold two jobs, and numbers rise by one |
| VoiceGate.StepKeepsLog | apps/erm/c_src/erm_native_voice.cpp:142-198 | the packets sent so far always parse, in step with the state of the worker |
| VoiceGate.ParseMeans | apps/erm/c_src/erm_native_voice.cpp:142-198 | in a log that parses, every result directly answers an earlier B with its epoch and number |
| SlabIndex.DynIndex.Append | apps/ecai/c_src/ecai_gpu_nif.c:208-233 | a document goes behind the others of its term and no other term changes; out of slabs exactly if the tail is full and the pool used up, and then nothing changes |
| SlabIndex.DynIndex.GetPostings | apps/ecai/c_src/ecai_gpu_nif.c:236-256 | reading a term returns exactly its documents in order, and changes nothing |
| SlabIndex.AppendAll | apps/ecai/c_src/ecai_gpu_nif.c:208-233 | after any run of appends each term reads as before followed by the documents accepted for it |
| SlabIndex.DynIndex.constructor | apps/ecai/c_src/ecai_gpu_nif.c:182-205 | a new index is well formed and every term is empty |
| SlabIndex.DynIndex.CountPostings | apps/ecai/c_src/ecai_gpu_nif.c:242-244 | the first walk ends and counts the documents, modulo 2^32 |
| SlabPool.ChainsDisjoint | apps/ecai/c_src/ecai_gpu_nif.c:216-231 | chains of different terms share no slab |
| SlabPool.PutInTailContents | apps/ecai/c_src/ecai_gpu_nif.c:231 | filling the tail adds the document to its term only and keeps the pool well formed |
| SlabPool.PutInNewContents | apps/ecai/c_src/ecai_gpu_nif.c:219-231 | a new tail slab adds the document to its term only and keeps the pool well formed |
| IsogenyExport.Export | apps/ecai/priv/math_pathfinder/export_sage.py:15-104 | an export succeeds exactly if the depth, limits, degrees and coefficients are in order, the whole ball and its maps fit the limits and the file fits 2 MiB, and then holds exactly the curves within depth and the maps leaving curves below it, with both endpoints of every map |
| IsogenyExport.SeedWritten | apps/ecai/priv/math_pathfinder/export_sage.py:16-73 | the seed is the curve of a2, a4 and a6 in this order, each of at most 310 characters and 1024 bits |
| IsogenyExport.DegreesWritten | apps/ecai/priv/math_pathfinder/export_sage.py:67-69 | the degrees allowed are the primes up to 31 |
| IsogenyExport.Search | apps/ecai/priv/math_pathfinder/export_sage.py:74-98 | the breadth-first search ends, and fails rather than truncate |
| IsogenyExport.RecordMaps | apps/ecai/priv/math_pathfinder/export_sage.py:84-98 | the maps of one curve are recorded one by one within the limits |
| IsogenyExport.BallIsWalks | apps/ecai/priv/math_pathfinder/export_sage.py:77-98 | a curve is in the ball exactly if a walk of at most that many maps leads to it |
| IsogenyExport.PushKeeps | apps/ecai/priv/math_pathfinder/export_sage.py:94-98 | a newly found curve is queued at its shortest distance |
| HashToCurve.Hash | apps/ecai/c_src/ecai_nif.c:268-382 | the least counter whose candidate lies on the curve, with the even ordinate and both coordinates as exported; NotFound only if all counters fail |
| HashToCurve.FpSqrt | apps/ecai/c_src/ecai_nif.c:230-256 | for a prime p = 5 (mod 8) the square root succeeds exactly on the squares |
| HashToCurve.SqrtComplete | apps/ecai/c_src/ecai_nif.c:234-252 | if neither candidate squares to a then a is no square |
| HashToCurve.Rhs | apps/ecai/c_src/ecai_nif.c:178-196 | the right-hand side is x³ + 486662x² + x, reduced |
| HashToCurve.CanonicalizeEvenY | apps/ecai/c_src/ecai_nif.c:258-263 | of the two roots the even one is kept |
| HashToCurve.EvenPointUnique | apps/ecai/c_src/ecai_nif.c:258-263 | an abscissa has at most one even ordinate |
| HashToCurve.SeedInputInjective | apps/ecai/c_src/ecai_nif.c:291-314 | different pairs of domain and input are never hashed as the same bytes |
| HashToCurveInputs.CandidateWritten | apps/ecai/c_src/ecai_nif.c:291-341 | byte by byte, what is hashed for the seed and for the candidate at each counter, and the abscissa read from it |
| HashToCurveInputs.CandidateMessageDetermines | apps/ecai/c_src/ecai_nif.c:323-336 | no two seeds or counters are hashed as the same bytes |
| HashToCurveInputs.EvenPointWritten | apps/ecai/c_src/ecai_nif.c:178-196 | a point found satisfies y^2 = x^3 + 486662·x^2 + x modulo p with y even |
| HashToCurve.ExportRoundTrip | apps/ecai/c_src/ecai_nif.c:149-170 | the little-endian export with its cleared top bit loses nothing below 2^255 |
| Numbers.TwoToTheHalf | apps/ecai/c_src/ecai_nif.c:214-218 | 2^((p-1)/2) is -1 for p = 5 (mod 8), so the fix-up factor squares to -1 |
| Numbers.EulerOnSquares | apps/ecai/c_src/ecai_nif.c:234-252 | a square has half of Fermat's power equal to 1 |
| Bech32.ChecksumCloses | priv/crypto/damage-nsecbunker-crypto-c/src/main.c:810-814 | appending the six computed symbols brings the checksum register to 1, for every word |
| Bech32.ChecksumUnique | priv/crypto/damage-nsecbunker-crypto-c/src/main.c:810-814 | no other six symbols do |
| Bech32.ChangeDetected | priv/crypto/damage-nsecbunker-crypto-c/src/main.c:765-777 | two words that differ only within six consecutive symbols never leave the same register |
| Bech32.Polymod | priv/crypto/damage-nsecbunker-crypto-c/src/main.c:765-777 | the two loops fold the symbols into the register |
| Bech32.TurnLinear | priv/crypto/damage-nsecbunker-crypto-c/src/main.c:770-774 | moving the register up and reducing it is linear over exclusive or |
| Bech32.TurnInjective | priv/crypto/damage-nsecbunker-crypto-c/src/main.c:770-774 | and loses none of its 30 bits |
| LinearCode.BurstDetected | priv/crypto/damage-nsecbunker-crypto-c/src/main.c:765-777 | any register that is linear, shifting and injective detects every change confined to as many symbols as it holds |
| Bech32Field.RegisterIsRemainder | priv/crypto/damage-nsecbunker-crypto-c/src/main.c:765-777 | the register holds the remainder of the word modulo x^6 + 29x^5 + 22x^4 + 20x^3 + 21x^2 + 29x + 18 over the field of 32 elements |
| Bech32Field.StepDivides | priv/crypto/damage-nsecbunker-crypto-c/src/main.c:769-775 | one round multiplies by x, adds the symbol, and takes away the top coefficient times that generator |
| Npub.Conv8to5 | priv/crypto/damage-nsecbunker-crypto-c/src/main.c:788-803 | the regrouped symbols are the same number, filled up with zero bits, although the 32-bit accumulator wraps |
| Npub.RegroupsInjective | priv/crypto/damage-nsecbunker-crypto-c/src/main.c:788-803 | regrouping loses nothing |
| Npub.RegroupsUnique | priv/crypto/damage-nsecbunker-crypto-c/src/main.c:788-803 | and is unambiguous |
| Npub.HrpExpand | priv/crypto/damage-nsecbunker-crypto-c/src/main.c:778-787 | the prefix is expanded to its high bits, a zero and its low bits |
| Npub.NpubEncode | priv/crypto/damage-nsecbunker-crypto-c/src/main.c:804-824 | the text is the prefix, the regrouped key and its checksum in the alphabet of BIP-173 |
| Npub.NpubInjective | priv/crypto/damage-nsecbunker-crypto-c/src/main.c:804-824 | the text determines the key |
| Npub.NpubUnique | priv/crypto/damage-nsecbunker-crypto-c/src/main.c:804-824 | and the key determines the text |
| Npub.TypoDetected | priv/crypto/damage-nsecbunker-crypto-c/src/main.c:804-824 | texts of different keys never agree outside six consecutive characters |
| NpubReader.NpubReads | priv/crypto/damage-nsecbunker-crypto-c/src/main.c:778-824 | a reader that expands the characters before the separator and divides by the generator of BIP-173 accepts every text, and its symbols are the bytes of the key regrouped |
| Nip44Padding.CalcPaddedLen | priv/crypto/damage-nsecbunker-crypto-c/src/main.c:1240-1252 | the loop and the branches compute the padded length of the specification |
| Nip44Padding.PaddedCovers | priv/crypto/damage-nsecbunker-crypto-c/src/main.c:1246-1252 | a padded length is at least the length and at least 32 |
| Nip44Padding.PaddedWaste | priv/crypto/damage-nsecbunker-crypto-c/src/main.c:1246-1252 | fewer than 32 bytes, or less than a quarter of the text, are wasted |
| Nip44Padding.PaddedMonotone | priv/crypto/damage-nsecbunker-crypto-c/src/main.c:1246-1252 | longer texts are padded no shorter |
| Nip44Padding.PaddedIdempotent | priv/crypto/damage-nsecbunker-crypto-c/src/main.c:1246-1252 | a padded length is padded to itself |
| Nip44Padding.Pad | priv/crypto/damage-nsecbunker-crypto-c/src/main.c:1253-1276 | texts of 1 to 262144 bytes are padded: header, text, zeros |
| Nip44Padding.Unpad | priv/crypto/damage-nsecbunker-crypto-c/src/main.c:1277-1306 | the text is returned exactly if the buffer is a header, that text and any filling of the right length |
| Nip44Padding.PaddedCarries | priv/crypto/damage-nsecbunker-crypto-c/src/main.c:1253-1306 | a padded text is accepted as itself |
| Nip44Padding.CarriedUnique | priv/crypto/damage-nsecbunker-crypto-c/src/main.c:1277-1306 | a buffer carries at most one text |
| Nip44Format.PaddedMeans | priv/crypto/damage-nsecbunker-crypto-c/src/main.c:1246-1252 | up to 32 bytes are padded to 32, a length between two powers of two to the next multiple of an eighth of the greater one, or of 32 |
| Nip44Format.HeaderMeans | priv/crypto/damage-nsecbunker-crypto-c/src/main.c:1253-1276 | the header is the length, most significant byte first, in two bytes, or in four behind two zeros from 65536 on |
| Nip44.HkdfExpand | priv/crypto/damage-nsecbunker-crypto-c/src/main.c:715-744 | the loop computes HKDF-Expand of RFC 5869, with its one-byte counter |
| Nip44.ExpandPrefix | priv/crypto/damage-nsecbunker-crypto-c/src/main.c:715-744 | longer outputs extend shorter ones |
| Nip44Format.ExpandBlocks | priv/crypto/damage-nsecbunker-crypto-c/src/main.c:715-744 | each block of 32 bytes of the output is the HMAC of the block before it, the info and the block's number, and the last one is cut |
| Nip44.ChachaXor | priv/crypto/damage-nsecbunker-crypto-c/src/main.c:1225-1239 | the block loop applies the key stream byte by byte |
| Nip44.StreamInvolution | priv/crypto/damage-nsecbunker-crypto-c/src/main.c:1225-1239 | applying the key stream twice restores the data |
| Nip44.Encrypt | priv/crypto/damage-nsecbunker-crypto-c/src/main.c:1357-1413 | a payload is produced exactly for texts of 1 to 262144 bytes under a shared secret: version, nonce, ciphertext and code |
| Nip44.Decrypt | priv/crypto/damage-nsecbunker-crypto-c/src/main.c:1414-1466 | a text is returned exactly if the payload opens: version 2, authentic, and carrying that text |
| Nip44.SealedOpens | priv/crypto/damage-nsecbunker-crypto-c/src/main.c:1357-1466 | decryption undoes encryption for every text of 1 to 262144 bytes |
| Nip44Format.SealedOnWire | priv/crypto/damage-nsecbunker-crypto-c/src/main.c:1309-1412 | byte by byte, the payload of a text: the three HMACs that give cipher key, cipher nonce and MAC key, the key stream, and what the MAC covers |
| Nip44.OpenedUnique | priv/crypto/damage-nsecbunker-crypto-c/src/main.c:1414-1466 | a payload opens to at most one text |
| Nip44.CStringWhole | priv/crypto/damage-nsecbunker-crypto-c/src/main.c:1458 | a text without NUL survives being read as a C string |
| Nip44.PayloadLength | priv/crypto/damage-nsecbunker-crypto-c/src/main.c:1357-1413 | the length of a payload depends on the padded length and the header size only |
| Base64.Decode | priv/crypto/damage-nsecbunker-crypto-c/src/main.c:1336-1356 | the bytes of the trimmed text's blocks without those that trailing padding stands for |
| Base64.RoundTrip | priv/crypto/damage-nsecbunker-crypto-c/src/main.c:1327-1356 | decoding undoes encoding (RFC 4648, section 4) |
| Base64.EncodeChunks | priv/crypto/damage-nsecbunker-crypto-c/src/main.c:1326-1335 | every three bytes are encoded by themselves |
| Base64.ChunkSpells | priv/crypto/damage-nsecbunker-crypto-c/src/main.c:1326-1335 | they are spelled as one number in base 64 in the alphabet of RFC 4648, filled up with zero bits and the padding character |
| Base64.TrimEndMeans | priv/crypto/damage-nsecbunker-crypto-c/src/main.c:1336-1341 | behind, the decoder drops spaces, tabs, line ends and dashes as long as more than three characters are left |
| Exchange.Send | priv/crypto/damage-nsecbunker-crypto-c/src/main.c:1130-1466 | agree, encrypt, agree and decrypt: every NUL-free text of 1 to 262144 bytes arrives whole, any other of that length up to its first NUL, and nothing is sent outside those lengths |
| Exchange.MessageArrives | priv/crypto/damage-nsecbunker-crypto-c/src/main.c:1130-1466 | what one key holder encrypts for another opens on the other side to that text and to no other |
| Secp256k1.LiftX | priv/crypto/damage-nsecbunker-crypto-c/src/main.c:843-890 | the even point with this x coordinate is returned, and failure means that no point has it |
| Secp256k1.RootOfSquare | priv/crypto/damage-nsecbunker-crypto-c/src/main.c:861-872 | for a prime p = 3 (mod 4) the power (p+1)/4 of a square is a square root |
| Secp256k1.LiftUnique | priv/crypto/damage-nsecbunker-crypto-c/src/main.c:873-876 | at most one even point has an x coordinate |
| Secp256k1.MulMod | priv/crypto/damage-nsecbunker-crypto-c/src/main.c:969-1053 | multiples of a point depend on the factor modulo the group order only |
| Schnorr.NormalizePriv | priv/crypto/damage-nsecbunker-crypto-c/src/main.c:928-955 | normalisation succeeds exactly for scalars in range, with the scalar whose point has an even y and the same public form |
| Schnorr.Sign | priv/crypto/damage-nsecbunker-crypto-c/src/main.c:969-1053 | a signature is produced exactly if key and nonce are in range; it is accepted under the returned key and names the nonce point of the derived nonce |
| Schnorr.SignatureAccepted | priv/crypto/damage-nsecbunker-crypto-c/src/main.c:969-1129 | through all even-y negations a signature built from key and nonce satisfies the verification equation |
| Schnorr.Verify | priv/crypto/damage-nsecbunker-crypto-c/src/main.c:1061-1129 | verification accepts exactly if s·G - e·P is the even point that the signature names, s being in range |
| Schnorr.AcceptedUnique | priv/crypto/damage-nsecbunker-crypto-c/src/main.c:1061-1129 | for one key, message and nonce point at most one signature is accepted |
| SchnorrEquation.AcceptsIffEquation | priv/crypto/damage-nsecbunker-crypto-c/src/main.c:1061-1129 | a signature is accepted exactly if s < n and s·G = R + e·P for the even points R and P that it and the key name, where e is the hash of R, key and message under the tag of BIP-340 |
| SchnorrEquation.MessageBound | priv/crypto/damage-nsecbunker-crypto-c/src/main.c:1090-1096 | one signature is accepted for two messages only if their challenge hashes agree modulo n |
| SchnorrEquation.NonceHashes | priv/crypto/damage-nsecbunker-crypto-c/src/main.c:978-1012 | the nonce is the hash of the key masked bit by bit with the hash of the auxiliary bytes, the public key and the message |
| SchnorrEquation.NonceBound | priv/crypto/damage-nsecbunker-crypto-c/src/main.c:1003-1022 | two nonces name the same point only if they agree or cancel modulo n |
| SchnorrEquation.OnWritten | priv/crypto/damage-nsecbunker-crypto-c/src/main.c:846-877 | the points are solutions of y^2 = x^3 + 7 modulo p |
| Schnorr.Ecdh | priv/crypto/damage-nsecbunker-crypto-c/src/main.c:1130-1168 | a secret is returned exactly if one exists: the x coordinate of the scalar times the lifted peer key |
| Schnorr.SharedAgrees | priv/crypto/damage-nsecbunker-crypto-c/src/main.c:1130-1168 | the two sides of an exchange get the same secret, whatever the parities of their keys |
| SchnorrEquation.SharedIsProduct | priv/crypto/damage-nsecbunker-crypto-c/src/main.c:1130-1176 | the secret is the x coordinate of the product of both private keys with the generator |
| Schnorr.SharedExists | priv/crypto/damage-nsecbunker-crypto-c/src/main.c:1130-1168 | and between two valid keys there always is one |
| JsonText.EscapeText | priv/crypto/damage-nsecbunker-crypto-c/src/main.c:269-315 | the printed text is the escapes of its characters in order |
| JsonText.UnescapeSlice | priv/crypto/damage-nsecbunker-crypto-c/src/main.c:544-601 | the index loop reads the escapes that the specification reads, and refuses the same texts |
| JsonText.RoundTrip | priv/crypto/damage-nsecbunker-crypto-c/src/main.c:269-601 | reading undoes printing if and only if every control character is one of the five with an escape of one letter |
| JsonReader.PrintedReads | priv/crypto/damage-nsecbunker-crypto-c/src/main.c:265-315 | any reader of RFC 8259 reads every printed text back, control characters and all |
| JsonReader.ReadersAgree | priv/crypto/damage-nsecbunker-crypto-c/src/main.c:544-600 | without \u escapes the program's reader agrees with that reading |
| JsonText.UnescapeEscape | priv/crypto/damage-nsecbunker-crypto-c/src/main.c:269-601 | in general the other control characters come back as question marks |
| JsonSearch.FindKey | priv/crypto/damage-nsecbunker-crypto-c/src/main.c:526-538 | the loop returns what follows the colon of the first occurrence that has one |
| JsonSearch.GetString | priv/crypto/damage-nsecbunker-crypto-c/src/main.c:602-625 | the reader finds the key, the closing quote and the unescaped text |
| JsonSearch.GetRawValue | priv/crypto/damage-nsecbunker-crypto-c/src/main.c:626-691 | the reader returns the raw text of a string, bracketed or plain value |
| JsonScan.ScanWhole | priv/crypto/damage-nsecbunker-crypto-c/src/main.c:656-684 | the scan of any properly nested text ends exactly at its closing bracket, although it counts one kind of bracket only |
| JsonSearch.RawValueWhole | priv/crypto/damage-nsecbunker-crypto-c/src/main.c:626-691 | so an object or array is returned whole, whatever follows it |
| JsonSearch.RawStringWhole | priv/crypto/damage-nsecbunker-crypto-c/src/main.c:631-655 | and so is a string |
| JsonSearch.RawScalarWhole | priv/crypto/damage-nsecbunker-crypto-c/src/main.c:687-691 | numbers and names are returned whole up to the white space or delimiter behind them, or the end |
| JsonSearch.StrStrMeans | priv/crypto/damage-nsecbunker-crypto-c/src/main.c:526-537 | the search finds the leftmost place of the quoted key, or none if there is none |
| FlatObjects.LookupFinds | priv/crypto/damage-nsecbunker-crypto-c/src/main.c:526-625 | on a printed flat object the lookup of a searchable key gives the text of the first field that has it |
| FlatObjects.LookupMisses | priv/crypto/damage-nsecbunker-crypto-c/src/main.c:526-625 | and nothing if no field has it |
| FlatObjects.LookupExact | priv/crypto/damage-nsecbunker-crypto-c/src/main.c:526-625 | a plain key is found in every object that has it if and only if it has at most 125 characters and is neither a comma nor a colon |
| FlatObjects.CommaMissed | priv/crypto/damage-nsecbunker-crypto-c/src/main.c:526-538 | the key "," is taken for the comma between two strings |
| FlatObjects.ColonMissed | priv/crypto/damage-nsecbunker-crypto-c/src/main.c:526-538 | the key ":" is taken for the colon after another key |
| FlatObjects.LongMissed | priv/crypto/damage-nsecbunker-crypto-c/src/main.c:527-528 | a longer key is cut by its buffer and not found |

## Left out

- Network, HTTP, TLS, ffmpeg, SQLite and file-system mechanics: a commit is one atomic step, a fetch or render gives an arbitrary result.
- Failures of the temporary-file cleanup in `deliver`.
- How a video is probed, and how a numeral is read as a double: both results are given with the file and with the option.
- The error text, timestamps and event log of the job store; a project identifier stands for the pair of tenant and project, and a history for the tables of one tenant.
- The numbers behind the phrase features: rounding, the mel and cosine tables, the pitch picker, `classify` and the reduction to 160 frames.
- Lpc.Analyse: works on exact reals, because rounding and the cast of stored reflections to single precision are not the point of the recursion.
- Dtw.Distance: takes the square root as a function on reals with its defining law and does not model the cast of the result to single precision.
- The window before the correlations, the pitch estimate and the rendering filter of the synthesiser.
- SlabIndex.DynIndex.Append: requires the request counter below 2^32 - 1, because the code lets it wrap after that many failed appends.
- SlabIndex.AppendAll: requires that the run of appends keeps the request counter below 2^32, for the same reason.
- SlabIndex.DynIndex.GetPostings: requires fewer than 2^32 documents in a term, because the counter that sizes the buffer has 32 bits.
- Freeing an index, and the CUDA kernels that read it.
- The algebra system behind the exporter, the reading of a fraction and the serialisation of curves and maps.
- VoiceGate.ResultsAreCurrent: places a result with respect to the last gate check, because the gate may change between that check and the packet; it also relies on every gate value being issued once.
- Nip44.Encrypt: takes ChaCha20's block function and HMAC as parameters, because only the use of their output is at stake here.
- Which padding bytes `nip44_unpad` receives: it accepts any, and so does the model.
- Schnorr.Sign: takes the tagged hash as a parameter; random keys and nonces, and the vault that stores keys, are not modelled.
- The meaning of `\u` escapes, which the reader does not decode.
- The commands of the crypto worker, its framing and its vault file.
- The Erlang platform, user interfaces, browser code, provisioning and packaging.

# Verified model of cronix

A Dafny model of the parts of cronix whose behaviour depends on long runs: the reconciler over the crontab and
Kubernetes backends, the two locks, the trigger shim with the log fold that reads its records, and the canonical form,
hash and signature codec. `dafny verify dfyconfig.toml` checks all of it.

| file | what it holds |
|---|---|
| `Wrappers`, `Sequences`, `Powers`, `Text` | options, laws of sequences, powers of two, and the parts of Go's `strings` and `strconv` in use |
| `Manifest`, `Validation`, `Rules`, `Defaults`, `Validated` | the normalised manifest; validation and its rules one by one; defaults in Go and TypeScript; what a valid schedule may still be |
| `KeyOrder`, `Canonical`, `JsonText`, `Policy` | the order of header names, canonical JSON in Go and TypeScript and its bytes, a reader of JSON, schedule names, the change-detection hash |
| `Cron`, `OwnerLine`, `CrontabLines`, `Crontab` | translated schedules, owner lines, the file as lines and blocks, the edits and the class that makes them |
| `Reconcile`, `Converge`, `JobBlocks`, `Convergence` | `Compute`, `Apply`, and what both together do to a file and to the blocks of each job |
| `Commands`, `Matching`, `Insertions`, `Adopt`, `AdoptAnswers`, `AdoptedFiles`, `AdoptedPlans` | `Adopt` step by step, its answers, its effect, and the plan after it |
| `CrontabRuns`, `LostMarkers`, `MarkerLoss` | runs of all four writing operations; losing owner lines and adopting them again |
| `Kubernetes`, `KubernetesRounds` | the cluster, one API call at a time, and repeated applies |
| `Flock`, `Redis` | the locks as state machines over atomic steps of any number of processes |
| `Shim`, `History`, `HistoryEntries`, `Timing` | one fire and its log records, the fold of many fires' records and the entries it reports, and the clock of a fire |
| `Auth`, `Verdicts` | signature headers and payloads in Go and TypeScript, and what a verifier decides |

## How to read the model

- Code that loops over or updates variables is a method proved equal to a function (`StripOwnedFor` and `Strip`); what
  the code is for is then proved of the function. Each result is also said without the function: what every field of a
  plan, an answer, a fire, a default, an entry or a verdict is, from the inputs alone and with the texts and numbers
  written out (`Reads`, `Answers`, `FireIs`, `ManifestFilled`, `IsEntry`, `Broken`, `VerdictIs`). The crontab file and
  the cluster are classes whose methods change their fields; a call may fail, and the contract says what is left then.
- A crontab is *well-formed* (`WellFormed`) when every owner line stands behind a line that is none. The code relies on
  this and never checks it. `StripEatsForeignLine` shows what happens without it.
- A well-formed file is also a sequence of plain lines and blocks (`Items`); most proofs are about items.
- `Hasher` is any hash whose text fits an owner line, with `Policy.Hash` among them. The reconciler theorems hold for
  every hash that the backend and the reconciler share. Where two jobs with one hash matter, which is in what a
  Kubernetes cluster runs once the plan is empty, the condition is about the pairs at hand (`NoClash`).
- `Mac` is any keyed hash with 32-byte results, in the place of HMAC-SHA256 (section 2 of RFC 2104).
- Strings are sequences of Unicode scalar values. In `Auth` one character is one byte.
- Lock runs are sequences of states and steps; a step belongs to one process, and processes interleave freely and may
  die at any step. One key is modelled, since keys share nothing.

## Where the code does less than it seems

Each of these is a lemma with the exact condition, or with a family of inputs that fail.

- A schedule that validation accepts need not translate (`ValidTranslatesExactly`; every seven minutes, for one:
  `SevenMinutes`), and `render` skips such a schedule silently, so the job is updated again by every apply
  (`UpdateSettlesExactly`).
- A schedule may hold a newline between two of its fields; the file then reads back as other lines than were written
  (`CreateReadsBackExactly`, `TwoLinesMisread`).
- Every rewrite of the crontab takes the lock for itself. Two overlapping applies can both create a job, and no later
  apply removes the second copy of its blocks (`CreatedTwiceStays`); an apply leaves one block for each schedule exactly
  when it did not skip the job with such copies (`OneBlockEachExactly`), since of several entries for one schedule the
  last one alone counts (`ActionExactly`).
- `Adopt` after a loss of owner lines restores the file only for single-spaced translations that do not begin with `#`
  and a trigger path that does not begin with white space (`AdoptUndoesMarkerLoss`). After an adoption the plan skips
  the job exactly when it had no stale owner lines (`AdoptedIsSkippedExactly`).
- A Kubernetes create keeps a ConfigMap that an interrupted call left, so that one complete apply may leave work for a
  second (`OneRoundIsNotEnough`, `CreateSettlesExactly`); two always suffice (`TwoRoundsSettle`, `TwoRoundsExist`). A
  plan that does nothing means that the manifest is deployed exactly when no ConfigMap holds another job with the same
  hash (`NoopMeansDeployed`).
- A Replace contender of flock signals the process that wrote the sidecar it has read, and that process may no longer
  hold the lock: the sidecar may have been stale when it was read, because its removal failed (`StaleSignal`), or,
  without any failure, the owner may have released the lock between the read and the signal (`LateSignal`).
  `SignalReachesTheOwnerExactly` says when the signalled process is the owner.
- A Redis ttl that is not in whole seconds is shortened by its first refresh (`ShortRefresh`).
- The comment at go/internal/trigger/shim.go:200 says that a fire cannot outlive its lock; the default policy does not
  meet the condition for that (`LockOutlivesFire`, `DefaultTiming`).
- `computeBackoff` doubles and caps the wait for all smallest waits exactly when the largest wait is at most 4611686019
  seconds (`BackoffExact`); above, a duration wraps around.
- go/internal/policy/policy.go calls its hash FNV-1a, but its offset constant is not that of FNV-1a; the model uses the
  constant of the code.
- The TypeScript and the Go defaults agree exactly when both trim every schedule alike and no header is named
  `__proto__` (`ImplementationsAgree`, `TrimsExactly`). The canonical texts of a manifest, for which
  go/internal/manifest/manifest.go:433 promises identical bytes, agree exactly when no text holds one of five characters
  that only Go escapes and no job has two header names that Go and JavaScript order differently (`TextsAgreeExactly`,
  `CanonicalTextsAgreeExactly`): `9` and `10` are two such names, and U+FF5E and U+1F600 two others (`OrdersDiffer`).
- Two apps can share a schedule name, exactly when one is the other extended by a hyphen and the beginning of the
  other's job (`AppsShareNameExactly`); within one app, and among apps without hyphens, they cannot.
- A dot in a request path leaves open where the path ends in a signed payload (`PayloadConfusesPathAndBody`).

## Model

| member | source | states |
|---|---|---|
| CrontabLines.ReadBack | go/internal/backends/crontab/client.go:52-88 | lines written by atomicWrite are read back by parseLines exactly when no line holds a newline or ends in a carriage return |
| CrontabLines.WellFormedIffItems | go/internal/backends/crontab/parse.go:61-75 | a file meets the unwritten invariant exactly when it splits into foreign lines and whole two-line blocks |
| CrontabLines.StripOwnedFor | go/internal/backends/crontab/parse.go:61-75 | the loop that pops the last kept line computes Strip |
| CrontabLines.StripFlatten | go/internal/backends/crontab/parse.go:61-75 | on a well-formed file it removes the blocks of that job and nothing else |
| CrontabLines.ListFlatten | go/internal/backends/crontab/backend.go:81-102 | a well-formed file lists one entry for each block, in order, with what its owner line says |
| CrontabLines.ForeignFlatten | go/internal/backends/crontab/parse.go:59-60 | the lines outside owned blocks are the plain lines, in order |
| Crontab.StripEatsForeignLine | go/internal/backends/crontab/parse.go:65-70 | without the invariant a foreign line is lost |
| OwnerLine.MarkerExactly | go/internal/backends/crontab/parse.go:20-23 | the owner-line grammar both ways: which lines match, and the four values each yields |
| OwnerLine.MarkerRoundTrip | go/internal/backends/crontab/render.go:28-32 | a rendered owner line is recognised and read back as what was rendered |
| OwnerLine.ScheduleIsNotMarker | go/internal/backends/crontab/render.go:28-32 | no rendered schedule line can pass for an owner line, whatever its cron text and trigger path |
| Cron.EveryMinutesExact | go/internal/backends/crontab/cron.go:38-58 | for 0 < n < 60, in any spelling that the number parser takes, the minutes form is accepted exactly when the step field it would become fires every n minutes forever |
| Cron.EveryHoursExact | go/internal/backends/crontab/cron.go:38-58 | for 0 < n < 24, in any such spelling, the hours form is accepted exactly when the step field it would become fires every n hours forever |
| Crontab.Render | go/internal/backends/crontab/render.go:19-35 | the loop writes the two lines of each schedule that translates, in order |
| Crontab.RenderValid | go/internal/backends/crontab/render.go:19-35 | what is rendered is a sequence of whole blocks |
| Crontab.RenderOwns | go/internal/backends/crontab/render.go:19-35 | every rendered block is owned by the job, there is one exactly when some schedule translates, and no other line is written |
| Crontab.CrontabFile.AtomicWrite | go/internal/backends/crontab/client.go:52-88 | the lines are written one by one to another file, any write may fail, and only the rename at the end changes the crontab |
| Crontab.CrontabFile.Rewrite | go/internal/backends/crontab/backend.go:206-219 | the file is replaced as a whole or stays as it was |
| Crontab.CrontabFile.List | go/internal/backends/crontab/backend.go:81-102 | it reports what the owner lines of the file say |
| Crontab.CrontabFile.Create | go/internal/backends/crontab/backend.go:105-115 | rejects invalid names; otherwise appends the rendered job or leaves the file alone |
| Crontab.CrontabFile.Update | go/internal/backends/crontab/backend.go:119-127 | replaces the blocks of the job by freshly rendered ones or leaves the file alone |
| Crontab.CrontabFile.Delete | go/internal/backends/crontab/backend.go:130-137 | removes the blocks of the job or leaves the file alone |
| Crontab.EditKeepsFile | go/internal/backends/crontab/backend.go:104-137 | every edit, of jobs with any schedules, keeps the file well-formed and the lines outside owned blocks as they are, in order |
| Reconcile.PlaceHash | go/internal/reconcile/reconcile.go:79-82 | the inner loop grows the list with empty hashes up to the index and sets it |
| Reconcile.GroupEntries | go/internal/reconcile/reconcile.go:69-84 | the map holds, for each app and job, its installed hashes by index and its indices |
| Reconcile.AppendDeletes | go/internal/reconcile/reconcile.go:138-152 | each installed job of the app that is not wanted is deleted once, in any order |
| Reconcile.Compute | go/internal/reconcile/reconcile.go:58-155 | the plan is that of the listed entries and the manifest, for some order of the deletes; and each of its operations reads so: the new hash holds the hash of each schedule, the old hash for each index that of the last entry with it, equal for a skip and empty for a create, the indices are 0 to n-1, and a delete has no new hash and the indices of the entries in the order of the listing |
| Reconcile.PlanReads | go/internal/reconcile/reconcile.go:91-152 | the same of any order of the deletes, one operation for each job of the manifest and one for each unwanted job |
| Reconcile.LastHashExactly | go/internal/reconcile/reconcile.go:69-84 | of several entries for one schedule the last in the listing is the one that counts |
| Reconcile.ActionExactly | go/internal/reconcile/reconcile.go:91-132 | for any entries: a job is skipped exactly when for each of its schedules the last entry has that schedule's hash and no entry has another index, and created exactly when it has no entry |
| Converge.ApplyPass | go/internal/reconcile/reconcile.go:173-202 | a pass makes its edits in order and stops at the first that fails |
| Converge.Apply | go/internal/reconcile/reconcile.go:171-209 | deletes, updates, creates: each counter says how far its pass came, the file is the one after that prefix of the edits, and skips are counted only when all went through, when the four counters sum to the plan |
| Converge.EditStep | go/internal/reconcile/reconcile.go:171-209 | every edit of a plan leaves a state whose own plan is the rest of the edits, with the same settled file |
| Converge.SomeEdits | go/internal/reconcile/reconcile.go:157-162 | after any number of edits of a plan, the rest is a plan of what is there, for the same settled items |
| Converge.UpdateSettlesExactly | go/internal/backends/crontab/render.go:22-27 | after an update a job is up to date exactly when all its schedules translate |
| Convergence.CreateReadsBackExactly | go/internal/backends/crontab/backend.go:206-219 | a created job reads back as written exactly when no schedule translates to a text with a newline |
| Convergence.ApplyConverges | go/internal/reconcile/reconcile.go:157-227 | after a complete apply the app owns exactly the manifest's jobs, each that was not skipped with exactly its rendered blocks and each other with those it had; every further plan is empty, and foreign lines and other apps' entries are unchanged |
| Convergence.OneBlockEachExactly | go/internal/reconcile/reconcile.go:157-227 | a complete apply leaves a job with exactly one block for each schedule unless it skipped the job with two blocks for one |
| Convergence.CreatedTwiceStays | go/internal/backends/crontab/backend.go:206-219 | a job that two overlapping applies created passes for up to date, and every later apply leaves both copies |
| JobBlocks.SkippedOnceExactly | go/internal/reconcile/reconcile.go:91-132 | a job that is up to date has one block for each schedule exactly when it has no two for one |
| Convergence.RetrySettles | go/internal/reconcile/reconcile.go:157-162 | an apply cut short after any edit and then run anew, with any order of the deletes, ends in the same file byte for byte |
| Convergence.RetriesSettle | go/internal/reconcile/reconcile.go:157-162 | so does any number of applies cut short in a row, followed by a complete one |
| Convergence.ReconcileOnce | go/internal/reconcile/reconcile.go:58-209 | list, compute and apply in one: the file is that of a prefix of a plan's edits, and settled when no call failed |
| Commands.SplitScheduleAndCommand | go/internal/backends/crontab/adopt.go:229-254 | searching for each field in turn never goes astray: the result is the five fields, and the rest with its own spacing |
| Commands.IndexOfFirstField | go/internal/backends/crontab/adopt.go:246-250 | the first occurrence of a field is where it begins, and the fields after it are the remaining ones |
| Commands.FieldsSpread | go/internal/backends/crontab/adopt.go:229-254 | a text is its first fields, with white space before each, and the rest |
| Commands.FieldsEndConcat | go/internal/backends/crontab/adopt.go:238-252 | in two texts with a space between, the fields of the first end where it ends |
| Matching.MatchGreedy | go/internal/backends/crontab/adopt.go:110-126 | the nested loops give each wanted schedule the first free candidate with its fields, and the bitmap says which are taken |
| Matching.GreedyExact | go/internal/backends/crontab/adopt.go:110-162 | every schedule is matched and every candidate used exactly when both have the same multiset of five-field texts |
| Matching.GreedySelf | go/internal/backends/crontab/adopt.go:115-126 | candidates in the order of the schedules are matched in that order, repetitions included |
| Matching.MatchedExactly | go/internal/backends/crontab/adopt.go:115-126 | the m-th wanted schedule of a text gets the m-th candidate of that text, and none when there are fewer |
| Matching.TakenExactly | go/internal/backends/crontab/adopt.go:115-126 | a candidate is taken exactly when fewer of its text stand before it than are wanted |
| Insertions.SortDescending | go/internal/backends/crontab/adopt.go:203-209 | the exchange sort orders the insertions downwards and keeps them all |
| Insertions.InsertOne | go/internal/backends/crontab/adopt.go:210-212 | an insertion above all others, by position, amounts to inserting it with them |
| Insertions.InsertMarkers | go/internal/backends/crontab/adopt.go:194-213 | sorted insertion one by one equals inserting all markers at once, at pairwise distinct positions |
| Adoption.FindCandidates | go/internal/backends/crontab/adopt.go:71-89 | the candidates are the unmanaged lines with exactly the expected command |
| Adoption.Adopt | go/internal/backends/crontab/adopt.go:30-219 | the whole call: its answer for every branch, which AdoptAnswers takes apart field by field, and the file, which changes only when it answers that it adopted |
| AdoptAnswers.AnswersExactly | go/internal/backends/crontab/adopt.go:43-219 | every field of an answer, of dry runs too, from the file and the job: which lines invoke the job, when it is managed already, which line serves which schedule and becomes the raw text of its entry, and in a divergence exactly the schedules without a line and the lines without a schedule, by number, or the first schedule that does not translate |
| AdoptAnswers.InvokesExactly | go/internal/backends/crontab/adopt.go:70-90 | a line is a candidate exactly when it is five words, the first without a number sign in front, and the trigger command, with any white space around them |
| AdoptAnswers.DryRunAnswers | go/internal/backends/crontab/adopt.go:178-217 | a dry run answers what a wet run does, but that it never adopts |
| AdoptedFiles.AdoptsExactly | go/internal/backends/crontab/adopt.go:102-162 | a translatable job is adopted exactly when it is not already managed and the multisets of wanted and candidate texts are equal; it diverges exactly when it reports a divergence |
| AdoptedFiles.AdoptKeepsFile | go/internal/backends/crontab/adopt.go:185-214 | adoption keeps the invariant, every line and its order, and the entries of other jobs, and turns exactly the lines that invoke the job into owned ones |
| MarkerLoss.AdoptUndoesMarkerLoss | go/internal/backends/crontab/adopt.go:63-219 | in a file with the job's rendered blocks anywhere: lose the owner lines, adopt, and the file is the same byte for byte, if and only if the path and the translated texts meet the stated condition |
| MarkerLoss.MarkerLossInRun | go/internal/backends/crontab/adopt.go:63-219 | so it is after a create and any edits of other jobs behind it |
| LostMarkers.InvokesRendered | go/internal/backends/crontab/adopt.go:71-89 | what Adopt reads in a rendered line: its fields joined by single spaces, or nothing |
| LostMarkers.TranslationsFiveFielded | go/internal/backends/crontab/cron.go:12-33 | every translation has five fields and no space around them |
| CrontabRuns.StepKeepsFile | go/internal/backends/crontab/backend.go:104-137 | each of the four writing operations keeps the file good, and takes away from the foreign lines none but those of the job it adopts |
| CrontabRuns.RunKeepsFile | go/internal/backends/crontab/parse.go:61-75 | over every run of them the invariant holds, the foreign lines keep their order with nothing added, and those that invoke no adopted job are all kept |
| CrontabRuns.EditsKeepForeign | go/internal/backends/crontab/backend.go:104-137 | without adoptions the foreign lines of any run stay as they were |
| AdoptedPlans.AdoptedIsSkippedExactly | go/internal/backends/crontab/adopt.go:164-219 | the plan after an adoption skips the job exactly when no old owner line of it has the index of no schedule, and the last old one below the line adopted for a schedule, if there is one, has that schedule's hash |
| Kubernetes.TranslationsAgree | go/internal/backends/kubernetes/kubernetes.go:566-588 | how far its schedule translation agrees with that of the crontab |
| Kubernetes.Cluster.List | go/internal/backends/kubernetes/kubernetes.go:183-212 | one entry for each CronJob, in any order, with the hash computeListHash gives it |
| Kubernetes.Cluster.Create | go/internal/backends/kubernetes/kubernetes.go:256-276 | a ConfigMap and then a CronJob for each schedule, existing ones kept; an early stop leaves a prefix of these calls |
| Kubernetes.Cluster.Update | go/internal/backends/kubernetes/kubernetes.go:283-288 | a delete and then a create, either of which may stop early |
| Kubernetes.Cluster.Delete | go/internal/backends/kubernetes/kubernetes.go:294-327 | removes all resources labelled with the job; an early stop removes ConfigMaps only after all the CronJobs |
| KubernetesRounds.NamesDiffer | go/internal/policy/policy.go:38-40 | for one app no two schedules share the name of a CronJob or of a ConfigMap |
| KubernetesRounds.CallKeeps | go/internal/backends/kubernetes/kubernetes.go:256-327 | a call that stops at any API call keeps names, labels and specs consistent, and a ConfigMap for every CronJob |
| KubernetesRounds.InterruptedKeeps | go/internal/backends/kubernetes/kubernetes.go:256-327 | so does every series of interrupted calls from an empty cluster |
| KubernetesRounds.EffectOn | go/internal/backends/kubernetes/kubernetes.go:256-327 | a complete call settles its own job and leaves every other job's resources as they were |
| KubernetesRounds.CreatedExactly | go/internal/backends/kubernetes/kubernetes.go:256-276 | a complete create leaves for every schedule a CronJob and a ConfigMap of its name, new ones with the app, the job, its hash and the index |
| KubernetesRounds.ActionOnStore | go/internal/reconcile/reconcile.go:91-132 | a job is skipped exactly when it has a CronJob for each of its schedules and no other, each listed with the desired hash |
| KubernetesRounds.PlanIsWanted | go/internal/reconcile/reconcile.go:58-155 | the calls of a plan are exactly the deletes, updates and creates that the store wants for the manifest |
| KubernetesRounds.ApplyToCluster | go/internal/reconcile/reconcile.go:171-209 | the three passes make a prefix of the calls, and the call after it is the only one that may have been interrupted |
| KubernetesRounds.ReconcileCluster | go/internal/reconcile/reconcile.go:58-209 | one apply keeps the invariant, and if no call fails installs every job of the manifest, removes all others and settles those that were there |
| KubernetesRounds.NoopExactly | go/internal/reconcile/reconcile.go:220-227 | a plan does nothing exactly when every job of the manifest is up to date and no other is there |
| KubernetesRounds.TwoRoundsSettle | go/internal/backends/kubernetes/kubernetes.go:183-327 | from any state that interruptions leave, the plan after two complete rounds does nothing |
| KubernetesRounds.TwoRoundsExist | go/internal/backends/kubernetes/kubernetes.go:183-327 | from any such state there are two complete rounds and a plan after them |
| KubernetesRounds.TwoRoundsDeploy | go/internal/backends/kubernetes/kubernetes.go:183-327 | after two rounds every job runs with its own spec and schedules and no other job does, if no ConfigMap held another job with the same hash at the start |
| KubernetesRounds.ReconcileTwice | go/internal/backends/kubernetes/kubernetes.go:183-327 | the same of the methods: two applies without an error leave nothing to do, and the manifest deployed |
| KubernetesRounds.UpToDateExactly | go/internal/backends/kubernetes/kubernetes.go:221-244 | a job is up to date exactly when each of its schedules, and no other index, has a pair whose spec has the same hash and whose CronJob runs on the schedule of that spec |
| KubernetesRounds.UpToDateMeansInstalled | go/internal/backends/kubernetes/kubernetes.go:221-244 | a schedule of an up-to-date job is installed with the job's own spec and schedule exactly when its ConfigMap holds no other job with the same hash |
| KubernetesRounds.NoopMeansDeployed | go/internal/reconcile/reconcile.go:220-227 | when a plan does nothing, the cluster runs exactly the manifest if and only if there is no such ConfigMap |
| KubernetesRounds.CreateSettlesExactly | go/internal/backends/kubernetes/kubernetes.go:256-276 | a create settles its job at once exactly when no surviving ConfigMap disagrees in schedule or hash |
| KubernetesRounds.OneRoundIsNotEnough | go/internal/backends/kubernetes/kubernetes.go:268-270 | after a create that was interrupted, a complete round for a changed job leaves a plan with work to do |
| Flock.ReadHolder | go/internal/locks/flock/flock.go:188-214 | the loop over the lines of the sidecar computes ParseHolder |
| Flock.HolderRoundTrip | go/internal/locks/flock/flock.go:174-214 | a written sidecar is read back, but for white space around the host |
| Flock.StepKeeps | go/internal/locks/flock/flock.go:73-245 | every step of every process keeps the invariant |
| Flock.FlockSafety | go/internal/locks/flock/flock.go:73-245 | over every interleaving: one holder at most; a sidecar names the owner, a process that died holding the lock or one that could not remove it; every signalled pid belongs to another process of the same host that held the lock |
| Flock.OnlyTheOwnerTouchesTheSidecar | go/internal/locks/flock/flock.go:233-245 | whoever changes the sidecar owns the lock, so that no release deletes that of another live holder |
| Flock.ReplaceTargetsTheHolder | go/internal/locks/flock/flock.go:117-149 | once the holder's write went through, a contender of its host reads exactly the holder |
| Flock.SignalReachesTheOwnerExactly | go/internal/locks/flock/flock.go:117-149 | every signal goes to the process that wrote the sidecar last read, and that process owns the lock then exactly when it owned it at the read and has kept it, or has locked it again since |
| Flock.StaleSignal | go/internal/locks/flock/flock.go:240-243 | a run with a failed removal, in which a contender signals a process that has released the lock |
| Flock.LateSignal | go/internal/locks/flock/flock.go:117-149 | a run without any failure, in which it does so because the lock changed hands between the read and the signal |
| Flock.LockableExactly | go/internal/locks/flock/flock.go:148-163 | over every run, a process that has not begun or polls after its signal can lock exactly when no process is between lock and unlock |
| Flock.FreedExactly | go/internal/locks/flock/flock.go:233-245 | only the owner's unlock or death frees the lock, and then everybody who waits can take it |
| Flock.ReplaceSucceeds | go/internal/locks/flock/flock.go:112-165 | runs in which the signalled holder dies, or releases, and the contender then owns the lock |
| Redis.StepKeeps | go/internal/locks/redis/redis.go:47-167 | every command, late script, lost reply and clock tick keeps the leases of unreleased handles |
| Redis.SoleOwner | go/internal/locks/redis/redis.go:47-167 | safety over every interleaving: a handle acquired or refreshed less than its ttl ago owns the key, no other such handle does, and after its ttl it owns it no longer; that a release frees it at once is ReleaseFrees |
| Redis.OthersCannotTouch | go/internal/locks/redis/redis.go:47-59 | no script of another handle changes the stored token or its expiry |
| Redis.AcquireOwnsExactly | go/internal/locks/redis/redis.go:64-103 | over every interleaving, until one of its own scripts runs a token owns the key for its ttl to the millisecond and no longer |
| Redis.AcquirableExactly | go/internal/locks/redis/redis.go:77-87 | an unused token can acquire exactly when no unexpired entry is stored |
| Redis.ReleaseFrees | go/internal/locks/redis/redis.go:48-52 | the release script deletes the key of its own token, which every unused token can then acquire at once, and changes nothing else |
| Redis.ReleasedForGood | go/internal/locks/redis/redis.go:137-151 | after its release script has run a token owns the key at no later state of any run |
| Redis.RefreshExtends | go/internal/locks/redis/redis.go:54-58 | a refresh by the owner moves the expiry to whole seconds from now, or deletes the key when there are none; any other does nothing |
| Redis.HandOver | go/internal/locks/redis/redis.go:47-167 | a run in which one client releases and another acquires in the same millisecond |
| Redis.ShortRefresh | go/internal/locks/redis/redis.go:159 | for every other ttl a run in which two handles are current at once |
| Shim.RunAttempts | go/internal/trigger/shim.go:280-331 | the retry loop computes Attempts, and what it returns is as AttemptsAre says with the numbers and texts written out: it stops at the first attempt answered 2xx or 4xx, that panics, is cancelled or is the last, after one warning for each attempt before |
| Shim.Run | go/internal/trigger/shim.go:91-332 | a whole fire: exit code, run id, attempts, status and every log record, with the numbers and texts written out (FireIs), for every way the lock and the attempts can go |
| Shim.AttemptsExactly | go/internal/trigger/shim.go:287-331 | Attempts without recursion: one warning for each attempt before the one that ends the fire, and its own result and records |
| Shim.ExitsExactly | go/internal/trigger/shim.go:279-331 | a fire whose attempts run exits 0 exactly when some attempt is answered 200 to 299 and all before it neither panicked nor were answered 2xx or 4xx nor were cancelled, 1 likewise with 400 to 499, 2 exactly when the last attempt is made and left unsettled too, and 3 exactly when an attempt panics or is cancelled after; with the attempts and the status of the result |
| History.FoldShimLogs | go/internal/backends/historyutil/historyutil.go:55-111 | the loops over map and order report Folded |
| History.RunsAreIndependent | go/internal/backends/historyutil/historyutil.go:62-101 | the entry of a run depends on its own records alone |
| History.FoldedExactly | go/internal/backends/historyutil/historyutil.go:102-110 | the report holds exactly the entries with the wanted status |
| History.FoldedInOrder | go/internal/backends/historyutil/historyutil.go:82-110 | at most one entry for each run, in the order of the runs' first relevant records |
| History.HistoryShowsExit | go/internal/backends/historyutil/historyutil.go:130-149 | however a fire's records are interleaved with others, the history shows its exit: status and attempt for every exit code |
| History.NamelessIsInvisible | go/internal/backends/historyutil/historyutil.go:67-70 | records without a run id leave no entry |
| HistoryEntries.ReportedExactly | go/internal/backends/historyutil/historyutil.go:62-111 | an entry is reported exactly when it has the status asked for and is that of a run: status, attempt and finish from the last stamped record, the start the earliest stamped time after the last record without one |
| HistoryEntries.OthersChangeNothing | go/internal/backends/historyutil/historyutil.go:67-79 | a record of another app or job, without run id or with any other text can be left out |
| HistoryEntries.FoldedByStatus | go/internal/backends/historyutil/historyutil.go:102-110 | a query for a status reports, in the same order, the entries with that status |
| Timing.ComputeBackoff | go/internal/trigger/shim.go:446-459 | the loop, in 64-bit arithmetic, computes BackoffFrom |
| Timing.BackoffClosed | go/internal/trigger/shim.go:446-459 | in whole seconds: the first wait is the smallest one; attempt a waits min(max, min * 2^(a-1)) |
| Timing.BackoffExact | go/internal/trigger/shim.go:281-282 | this holds of all smallest waits up to the largest exactly when the largest wait is at most 4611686019 seconds, conversion to a duration included |
| Timing.FreshExactly | go/internal/trigger/shim.go:143 | every attempt of every possible fire is within the replay window exactly when the latest start of the last attempt is |
| Timing.LockOutlivesFire | go/internal/trigger/shim.go:200-201 | no fire outlives its lock exactly when all before the last attempt fits in 30 seconds |
| Timing.DefaultTiming | go/internal/trigger/shim.go:200-201 | the defaults meet the first condition with up to 177 seconds for the lock and not the second; a single attempt meets the second always |
| Canonical.CanonicalizeInjective | go/internal/manifest/manifest.go:438-443 | different normalised manifests have different canonical bytes |
| Canonical.PrintManifestInjective | go/internal/manifest/manifest.go:86-127 | the nested printer, with sorted header keys, can be read back |
| Canonical.Utf8Injective | go/internal/manifest/manifest.go:438-443 | so can the bytes |
| Canonical.BytesOrder | go/internal/manifest/manifest.go:433-437 | sorting header names by their bytes is sorting them by characters |
| Canonical.TextsAgreeExactly | ts/packages/sdk/src/core/manifest.ts:204-233 | TypeScript prints a manifest as Go does exactly when its version is 1, no text in it holds one of five characters, and no job has two header names whose orders differ |
| JsonText.ManifestReadsBack | go/internal/manifest/manifest.go:86-127 | a reader of JSON defined apart from the printers reads what either implementation prints as the object with the keys of the structs in their order, and leaves nothing over |
| KeyOrder.ListedAlikeExactly | ts/packages/sdk/src/core/manifest.ts:149-153 | both list a set of header names alike exactly when their orders agree on every two of them |
| KeyOrder.OrdersAgreeExactly | ts/packages/sdk/src/core/manifest.ts:149-153 | for which two names they do: array indices, and characters that UTF-16 orders the other way round |
| KeyOrder.OrdersDiffer | ts/packages/sdk/src/core/manifest.ts:149-153 | two pairs of names for which they do not |
| Policy.ScheduleNameInjective | go/internal/policy/policy.go:38-40 | for one app the name determines job and index |
| Policy.ScheduleNamesCollideExactly | go/internal/policy/policy.go:38-40 | any two schedules share a name exactly when their indices are equal and app and job joined by a hyphen are the same |
| Policy.AppsShareNameExactly | go/internal/policy/policy.go:38-40 | two apps do exactly when one is the other, a hyphen and the beginning of the other's job |
| Policy.HyphenlessAppsNeverCollide | go/internal/policy/policy.go:38-40 | two apps without hyphens never do, and two with one can |
| Policy.DifferentJobsDifferentBytes | go/internal/policy/policy.go:52-57 | different jobs feed different bytes to the hash |
| Policy.ComputeHash | go/internal/policy/policy.go:52-70 | the byte loop computes Hash |
| Policy.HashInjectiveInIndex | go/internal/policy/policy.go:67-69 | the schedules of one job never share a hash |
| Policy.OneByteChangesHash | go/internal/policy/policy.go:62-69 | encodings of one length that differ in exactly one byte never share a hash |
| Policy.HashInRounds | go/internal/policy/policy.go:52-70 | the hash of any job in numbers: from the offset on, each byte is mixed in and the word multiplied by the prime modulo 2^64, then the index, and the sixteen hexadecimal digits |
| Policy.XorBits | go/internal/policy/policy.go:62-68 | every bit of an exclusive or is set exactly when the two bits differ |
| Validation.Validate | go/internal/manifest/manifest.go:171-199 | the loop reports Issues |
| Validation.ValidExactly | go/internal/manifest/manifest.go:171-310 | no issue is reported exactly for the manifests that meet the stated rules |
| Rules.ValidScheduleExactly | go/internal/manifest/cron.go:27-69 | a text is a schedule exactly when it is one of seven words, or a number of units that comes to 60 seconds or more, or five fields that the cron parser takes |
| Rules.IssuesExactly | go/internal/manifest/manifest.go:171-310 | an issue is reported exactly when its rule is broken, with the path, the code and the limit of every rule written out |
| Defaults.ApplyDefaults | go/internal/manifest/manifest.go:316-405 | the loop and the sort compute ApplyDefaultsWith; and the result holds each raw job once, in a stable order by name, with every field that was given unchanged and every missing one the stated default |
| Defaults.OneFilledEach | go/internal/manifest/manifest.go:316-405 | for each raw job there is exactly one result job of its name, filled from it field by field: POST, the empty body, UTC, Forbid, host, 60 seconds, three attempts, waits of 1 to 60 seconds, no secrets, and trimmed schedules |
| Defaults.TsFills | ts/packages/sdk/src/core/manifest.ts:155-193 | so does TypeScript, but for the header it drops and its own white space |
| Defaults.DefaultPolicyTiming | go/internal/manifest/manifest.go:352-374 | what these defaults mean for a fire: fresh exactly with up to 177 seconds for the lock, and it may outlive its lock |
| Defaults.DefaultsSortPermutation | go/internal/manifest/manifest.go:398 | the jobs are the strictly name-sorted permutation of the normalised ones |
| Defaults.DefaultsIgnoreOrder | go/internal/manifest/manifest.go:398 | the order of the jobs in the manifest does not matter |
| Defaults.DefaultRanges | go/internal/manifest/manifest.go:260-294 | timeout in 1..600, attempts in 1..10, and the smallest wait at most the largest unless only a smallest wait above 60 was given |
| Defaults.ImplementationsAgree | ts/packages/sdk/src/core/manifest.ts:155-193 | the TypeScript result, whatever its sort, is the Go result exactly when both trim every schedule alike and no header is named `__proto__` |
| Defaults.CanonicalTextsAgreeExactly | ts/packages/sdk/src/core/manifest.ts:149-233 | from a raw manifest to its canonical text, both implementations agree exactly under these conditions and those of TextsAgreeExactly |
| Defaults.TrimsExactly | ts/packages/sdk/src/core/manifest.ts:163 | for which texts they do |
| Validated.ValidTranslatesExactly | go/internal/manifest/cron.go:27-69 | which valid schedules the crontab can express |
| Validated.UndividedHour | go/internal/manifest/cron.go:27-69 | every number of minutes that does not divide the hour is valid and cannot be expressed |
| Validated.SevenMinutes | go/internal/manifest/cron.go:27-69 | seven minutes, for one |
| Validated.TwoLinesMisread | go/internal/manifest/cron.go:27-69 | a schedule with a newline between two fields is valid if the cron parser takes it, and its create reads back as other lines |
| Validated.ConvergenceApplies | go/internal/backends/crontab/render.go:22-27 | validation gives all that convergence needs but translation and the absence of newlines |
| Auth.GoParseHeader | go/internal/auth/auth.go:148-194 | the loop computes GoParse |
| Auth.TsParseHeader | ts/packages/sdk/src/core/auth.ts:106-137 | the loop computes TsParse |
| Auth.ParsersAgree | ts/packages/sdk/src/core/auth.ts:106-137 | what TypeScript accepts Go accepts, with the same timestamp and bytes; and exactly which headers only Go accepts |
| Auth.HexToBytes | ts/packages/sdk/src/core/auth.ts:163-172 | for any text, the loop computes JsDecodeHex, which reads two characters at a time as the number parser of JavaScript does |
| Auth.JsDecodesMore | ts/packages/sdk/src/core/auth.ts:163-172 | on hexadecimal texts it is the decoder of Go; for which others it is not |
| Auth.ConstantTimeEqual | ts/packages/sdk/src/core/auth.ts:178-185 | the loop over all bytes says whether they are equal |
| Auth.Verify | go/internal/auth/auth.go:93-127 | the whole call, with its defaults and 64-bit subtraction, computes GoVerdict |
| Auth.FirstMatchExactly | go/internal/auth/auth.go:117-126 | a match is the first secret that is not empty and gives the signature; a mismatch means there is none |
| Auth.HeaderRoundTrip | go/internal/auth/auth.go:84-87 | a printed header is read back, by Go exactly when its timestamp is not negative |
| Auth.VerifySigned | go/internal/auth/auth.go:74-127 | for any 64-bit times: a signed request is malformed before 1970, else stale exactly when its distance, with the wrap of 64 bits, is out of the skew, and otherwise judged by the first secret with the same mac |
| Auth.SignedIsAccepted | go/internal/auth/auth.go:74-127 | within the skew, and not before 1970, it is accepted when its secret is configured |
| Auth.PayloadDetermines | go/internal/auth/auth.go:130-136 | a payload determines the timestamp, the upper-cased dot-free method, and path and body joined by a dot |
| Auth.PayloadDeterminesAll | ts/packages/sdk/src/core/auth.ts:86-95 | and all four when no path holds a dot |
| Auth.PayloadConfusesPathAndBody | go/internal/auth/auth.go:130-136 | with a dot in the path it does not |
| Auth.VerifiersAgree | ts/packages/sdk/src/core/auth.ts:52-84 | what the TypeScript verifier decides about a header it can parse, the Go verifier decides too, for every time whose distance from such timestamps does not wrap around |
| Verdicts.GoParseExactly | go/internal/auth/auth.go:148-194 | a header is taken exactly when every segment has an equals sign, every time is a number that is not negative and every signature has 64 characters, and its time and signature are those of the last of each |
| Verdicts.VerdictExactly | go/internal/auth/auth.go:93-127 | every verdict from the header, the secrets and the numbers: malformed, stale beyond the skew or 300 seconds, the first secret that signs the request so, or a mismatch |
| Verdicts.StaleAfterFiveMinutes | go/internal/auth/auth.go:101-115 | with the default skew a signed request is stale exactly more than 300 seconds away, which is what the clock of a fire calls fresh |
| Verdicts.CaseExactly | go/internal/auth/auth.go:130-132 | upper-casing turns each of the 26 small letters into the capital in its place and keeps every other character, and lower-casing is its counterpart |

## Left out

- Flock.FlockSafety: assumes that a host name holds no newline and no space around it, that pids are unique over the
  run, and that the bytes of a sidecar are written at once after the truncation.
- Redis.SoleOwner: speaks of the ttls that a refresh keeps, measured at the server; `ShortRefresh` covers all others.
- History.HistoryShowsExit: for exhausted runs the folded attempt is 0, because the shim logs another key than the fold
  reads; that is what the code does.
- Convergence.ApplyConverges: supposes schedules that translate and hold no newline; `UpdateSettlesExactly` and
  `CreateReadsBackExactly` say what happens without.
- Timing.FreshExactly: takes an attempt's start for its arrival; network latency is no part of it.
- Auth.VerifiersAgree: for times at which the 64-bit difference to a timestamp that TypeScript can parse does not wrap
  around, which all times that a JavaScript number counts exactly are among.
- Canonical.TextsAgreeExactly: for numbers that JavaScript holds exactly; Go's integers reach further.
- The regular expression engine, the JSON decoder, HMAC-SHA256, UUIDs and the robfig and cron-parser grammars; the last
  two and URL parsing are parameters of validation.
- The scanner's limit of one megabyte for a line, and the memory that a huge index in a foreign owner line makes
  `Compute` allocate.
- File permissions, directory creation, the apply-lock file of the crontab and other writers between `Adopt`'s read and
  its rewrite.
- Kubernetes foreground deletion and resource-version conflicts, fields of a CronJob other than its schedule, and several
  apps in one namespace, where names may collide.
- The Vercel, systemd and AWS backends: the first two break the laws the convergence proof needs, and the last two
  translate to calendar grammars of their own.
- HTTP, tracing, secret resolution, reading spec files, and the text of log messages and errors.
- Upper-casing of methods outside ASCII.
- Ties between equal names in a sort, which a valid manifest does not have.

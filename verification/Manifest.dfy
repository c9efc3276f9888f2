/** The manifest after defaults: what the reconciler, the hash and the trigger work on. */
module NormalizedManifests {

  const MAX_SCHEDULES_PER_JOB: nat := 64

  datatype NormalizedRetries = NormalizedRetries(maxAttempts: int, minSeconds: int, maxSeconds: int)

  datatype NormalizedPolicy = NormalizedPolicy(
    concurrency: string, concurrencyScope: string, timeoutSeconds: int, retries: NormalizedRetries)

  datatype NormalizedRequest = NormalizedRequest(method_: string, url: string, headers: map<string, string>,
      body: string)

  datatype NormalizedJob = NormalizedJob(
    name: string, schedules: seq<string>, timezone: string, request: NormalizedRequest, policy: NormalizedPolicy,
    secretRefs: seq<string>)

  datatype NormalizedManifest = NormalizedManifest(version: int, app: string, jobs: seq<NormalizedJob>)
}

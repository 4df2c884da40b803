/** The worker wrapper around the two use cases: it counts jobs and reports failures. */
module Telemetry {
  import opened Wrappers
  import opened Errors

  datatype Job = Job(name: string, failed: bool)

  /** What the worked function returns: a 4xx is an answer, not a failure of the job. */
  function JobError(err: Option<Error>): Option<Error> {
    if IsClientError(err) then None else err
  }

  class Telemetry {
    var jobs: seq<Job>

    constructor ()
      ensures jobs == []
    {
      jobs := [];
    }

    // WorkerContext runs its function once and returns that function's error.
    method WorkerContext(name: string, worked: Option<Error>) returns (err: Option<Error>)
      modifies this
      ensures err == worked && jobs == old(jobs) + [Job(name, worked.Some?)]
    {
      jobs := jobs + [Job(name, worked.Some?)];
      err := worked;
    }
  }
}

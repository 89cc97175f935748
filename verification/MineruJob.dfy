// One OCR job directory, run and resumed any number of times by processes that may
// die between any two durable actions. The directory lock admits one at a time.
module MineruJob {
  import opened Common

  datatype Mode = Service | Local

  datatype Config = Config(mode: Mode, settings: int)

  datatype Status = Prepared | Submitting | Submitted | Running | FailedLocally | Ready | Completed

  datatype Job = Job(config: Config, digest: int, status: Status, taskId: Option<string>)

  // Results appear as a whole with a download receipt, or grow under the local tool.
  datatype Raw = Downloaded(taskId: string, digest: int) | Produced

  // What the service, the tool and the result files turn out to be in one call.
  datatype World = World(healthy: bool, reply: Reply, remote: Remote, archiveOk: bool,
                         toolOk: bool, toolStarts: bool, exit: Exit, resultsOk: bool)

  datatype Reply = NoReply | InvalidTask | Task(id: string)

  datatype Remote = RemoteCompleted | RemoteFailed | RemoteUnknown

  datatype Exit = ExitCode(code: int) | TimedOut

  datatype Refusal =
    | JobCorrupt | SubmissionUncertain | LocalInterrupted | LocalFailed | LocalTimeout
    | ServiceUnavailable | BadReply | RemoteTaskFailed | BadArchive | BadResult

  // Died stands for a crash, or an exception of the caller's checkpoint.
  datatype Result = Finished | Refused(why: Refusal) | Died

  class JobDirectory {
    // The visible directory; steps is how many more durable or outside actions the
    // current process lives to do.
    var job: Option<Job>
    var input: int
    var raw: Option<Raw>
    var bundle: Option<int>
    var steps: nat

    // How often the service was asked to start work, and the local tool launched.
    ghost var posts: nat
    ghost var launches: nat

    ghost predicate Valid()
      reads this
    {
      if job.None? then raw.None? && bundle.None? && posts == 0 && launches == 0
      else
        var j := job.value;
        && input == j.digest
        && (bundle.Some? ==> bundle.value == j.digest && (j.status.Ready? || j.status.Completed?))
        && (j.status.Completed? ==> bundle.Some?)
        && if j.config.mode.Service? then ServiceFits(j) else LocalFits(j)
    }

    ghost predicate ServiceFits(j: Job)
      reads this
    {
      && launches == 0 && posts <= 1
      && !j.status.Running? && !j.status.FailedLocally?
      && (j.status.Prepared? ==> posts == 0)
      && (j.taskId.Some? <==> j.status.Submitted? || j.status.Ready? || j.status.Completed?)
      && (j.taskId.Some? ==> posts == 1)
      && (raw.Some? ==> j.taskId.Some? && raw.value == Downloaded(j.taskId.value, j.digest))
      && (j.status.Ready? || j.status.Completed? ==> raw.Some?)
    }

    ghost predicate LocalFits(j: Job)
      reads this
    {
      && posts == 0 && launches <= 1 && j.taskId.None?
      && !j.status.Submitting? && !j.status.Submitted?
      && (j.status.Prepared? ==> launches == 0 && raw.None?)
      && (j.status.FailedLocally? || j.status.Ready? || j.status.Completed? ==> launches == 1)
      && (raw.Some? ==> raw.value.Produced?)
    }

    constructor ()
      ensures Valid() && job.None?
    {
      job, input, raw, bundle, steps, posts, launches := None, 0, None, None, 0, 0, 0;
    }

    method Live() returns (alive: bool)
      modifies this`steps
      ensures alive <==> old(steps) > 0
      ensures steps == if alive then old(steps) - 1 else 0
    {
      alive := steps > 0;
      if alive {
        steps := steps - 1;
      }
    }

    // The job may run on, or must not: some earlier run may have started work that
    // is unaccounted for, or ended it in failure.
    static predicate Resumable(status: Status) {
      !status.Submitting? && !status.Running? && !status.FailedLocally?
    }

    static predicate Continuable(job: Option<Job>, config: Config, digest: int) {
      job.Some? ==> job.value.config == config && job.value.digest == digest && Resumable(job.value.status)
    }

    // The outside world lets a job of this mode finish.
    static predicate Favourable(w: World, mode: Mode) {
      && w.resultsOk
      && if mode.Service? then w.healthy && w.reply.Task? && w.remote.RemoteCompleted? && w.archiveOk
         else w.toolOk && w.toolStarts && w.exit == ExitCode(0)
    }

    // The refusal's cause: in the job as it was found, or in the outside world.
    static predicate Blames(why: Refusal, job: Option<Job>, config: Config, digest: int, w: World) {
      match why
      case JobCorrupt => job.Some? && (job.value.config != config || job.value.digest != digest)
      case SubmissionUncertain => job.Some? && job.value.status.Submitting?
      case LocalInterrupted => job.Some? && job.value.status.Running?
      case LocalFailed =>
        config.mode.Local? && ((job.Some? && job.value.status.FailedLocally?) || !w.toolOk || !w.toolStarts || w.exit != ExitCode(0))
      case LocalTimeout => config.mode.Local? && w.exit.TimedOut?
      case ServiceUnavailable => config.mode.Service? && (!w.healthy || w.reply.NoReply?)
      case BadReply => config.mode.Service? && (w.reply.InvalidTask? || w.remote.RemoteUnknown?)
      case RemoteTaskFailed => config.mode.Service? && w.remote.RemoteFailed?
      case BadArchive => config.mode.Service? && !w.archiveOk
      case BadResult => !w.resultsOk
    }

    // Runs or resumes the job for one input and configuration.
    method Parse(config: Config, digest: int, w: World, budget: nat) returns (r: Result)
      requires Valid()
      modifies this
      ensures Valid()
      // A finished job is completed, for this input, with its bundle.
      ensures r.Finished? ==> job.Some? && job.value == Job(config, digest, Completed, job.value.taskId) && bundle == Some(digest)
      // Another input or configuration, or unaccounted work, is refused untouched.
      ensures old(job).Some? && (old(job).value.config != config || old(job).value.digest != digest) ==> r == Refused(JobCorrupt)
      ensures old(job).Some? && old(job).value.config == config && old(job).value.digest == digest ==>
        match old(job).value.status
        case Submitting => r == Refused(SubmissionUncertain)
        case Running => r == Refused(LocalInterrupted)
        case FailedLocally => r == Refused(LocalFailed)
        case _ => r != Refused(JobCorrupt) && r != Refused(SubmissionUncertain) && r != Refused(LocalInterrupted)
      ensures !Continuable(old(job), config, digest) ==>
        job == old(job) && raw == old(raw) && bundle == old(bundle) && posts == old(posts) && launches == old(launches)
      // Work is started only from a job nothing was started for, and at most once.
      ensures posts == old(posts) || (posts == old(posts) + 1 && (old(job).None? || old(job).value.status.Prepared?))
      ensures launches == old(launches) || (launches == old(launches) + 1 && (old(job).None? || old(job).value.status.Prepared?))
      // What is durable stays: the job's identity, its task, its results, its completion.
      ensures old(job).Some? ==> job.Some? && job.value.config == old(job).value.config && job.value.digest == old(job).value.digest
      ensures old(job).None? && job.Some? ==> job.value.config == config && job.value.digest == digest
      ensures old(job).Some? && old(job).value.taskId.Some? ==> job.value.taskId == old(job).value.taskId
      ensures old(job).Some? && old(job).value.status.Completed? ==> job == old(job)
      ensures old(raw).Some? && config.mode.Service? ==> raw == old(raw)
      ensures old(bundle).Some? ==> bundle == old(bundle)
      // A task is the one the service named, and a job is prepared before anything else.
      ensures job.Some? && job.value.taskId.Some? && (old(job).None? || old(job).value.taskId.None?) ==>
        w.reply == Task(job.value.taskId.value)
      ensures old(job).None? ==> (job.None? <==> budget == 0)
      // A failure of the local tool that the call lives to see is recorded.
      ensures launches > old(launches) && w.exit.ExitCode? && w.exit.code != 0 && budget >= 5 ==>
        r == Refused(LocalFailed) && job.Some? && job.value.status.FailedLocally?
      // A refusal names what went wrong, and a call that lives long enough ends.
      ensures r.Refused? ==> Blames(r.why, old(job), config, digest, w)
      ensures budget >= 10 ==> r != Died
      // Any resumable job finishes in one call that lives long enough.
      ensures Continuable(old(job), config, digest) && Favourable(w, config.mode) && budget >= 10 ==> r.Finished?
    {
      steps := budget;
      var there := Prepare(config, digest);
      if !there {
        return Died;
      }
      var state := job.value;
      if state.config != config || state.digest != digest || input != digest {
        return Refused(JobCorrupt);
      }
      if state.status.Ready? || state.status.Completed? {
        r := Finish(w);
        return;
      }
      if config.mode.Service? && state.status.Submitted? && raw.Some? {
        r := TakeDownload(w);
        return;
      }
      if config.mode.Local? {
        r := RunLocally(w);
      } else {
        r := RunRemotely(w);
      }
    }

    // The job directory appears whole, unless it is there.
    method Prepare(config: Config, digest: int) returns (there: bool)
      requires Valid()
      modifies this
      ensures Valid() && raw == old(raw) && bundle == old(bundle) && posts == old(posts) && launches == old(launches)
      ensures there <==> old(job).Some? || old(steps) >= 1
      ensures old(job).Some? ==> job == old(job) && steps == old(steps)
      ensures old(job).None? ==>
        job == (if there then Some(Job(config, digest, Prepared, None)) else None) && steps == if there then old(steps) - 1 else 0
    {
      if job.Some? {
        return true;
      }
      there := Live();
      if there {
        job, input := Some(Job(config, digest, Prepared, None)), digest;
      }
    }

    // Results that were published before the status was.
    method TakeDownload(w: World) returns (r: Result)
      requires Valid() && job.Some? && job.value.config.mode.Service? && job.value.status.Submitted? && raw.Some?
      modifies this
      ensures Valid() && posts == old(posts) && launches == old(launches) && raw == old(raw)
      ensures exists status :: job == Some(old(job).value.(status := status))
      ensures r.Finished? ==> job.value.status.Completed? && bundle == Some(job.value.digest)
      ensures r.Refused? ==> r.why.BadResult? && !w.resultsOk
      ensures w.resultsOk && old(steps) >= 3 ==> r.Finished?
      ensures old(steps) >= 3 ==> r != Died
    {
      var state := job.value;
      if raw != Some(Downloaded(state.taskId.value, state.digest)) {
        return Refused(JobCorrupt);
      }
      var alive := Live();
      if !alive {
        return Died;
      }
      job := Some(state.(status := Ready));
      r := Finish(w);
    }

    // From results to a verified bundle and the completed status.
    method Finish(w: World) returns (r: Result)
      requires Valid() && job.Some? && (job.value.status.Ready? || job.value.status.Completed?)
      modifies this
      ensures Valid() && posts == old(posts) && launches == old(launches) && raw == old(raw) && input == old(input)
      ensures job == old(job) || job == Some(old(job).value.(status := Completed))
      ensures r.Finished? ==> job == Some(old(job).value.(status := Completed))
      ensures bundle == old(bundle) || (old(bundle).None? && bundle == Some(job.value.digest))
      ensures r.Refused? <==> old(bundle).None? && !w.resultsOk
      ensures r.Refused? ==> r.why.BadResult?
      ensures r.Finished? <==> if old(bundle).Some? then old(steps) >= 1 else w.resultsOk && old(steps) >= 2
      ensures bundle.Some? <==> old(bundle).Some? || (w.resultsOk && old(steps) >= 1)
    {
      var alive := true;
      if bundle.Some? {
        if bundle.value != job.value.digest {
          return Refused(JobCorrupt);
        }
      } else {
        if !w.resultsOk {
          return Refused(BadResult);
        }
        alive := Live();
        if !alive {
          return Died;
        }
        bundle := Some(input);
      }
      alive := Live();
      if !alive {
        return Died;
      }
      job := Some(job.value.(status := Completed));
      return Finished;
    }

    method RunLocally(w: World) returns (r: Result)
      requires Valid() && job.Some? && job.value.config.mode.Local?
      requires !job.value.status.Ready? && !job.value.status.Completed?
      modifies this
      ensures Valid() && posts == old(posts) && job.Some?
      ensures job.value.config == old(job).value.config && job.value.digest == old(job).value.digest
      ensures bundle == old(bundle) || old(bundle).None?
      ensures !old(job).value.status.Prepared? ==>
        && r == Refused(if old(job).value.status.FailedLocally? then LocalFailed else LocalInterrupted)
        && job == old(job) && raw == old(raw) && bundle == old(bundle) && launches == old(launches)
      ensures r.Refused? ==> Blames(r.why, old(job), job.value.config, job.value.digest, w)
      // The intent is durable before the launch, and the results appear with it.
      ensures old(job).value.status.Prepared? ==>
        var launched := w.toolOk && w.toolStarts && old(steps) >= 2;
        && launches == old(launches) + (if launched then 1 else 0)
        && raw == (if launched then Some(Produced) else old(raw))
        && (job == old(job) <==> !w.toolOk || old(steps) == 0)
        && (job.value.status.FailedLocally? <==> launched && old(steps) >= 4 && w.exit.ExitCode? && w.exit.code != 0)
        && (job.value.status.Running? <==>
              w.toolOk && old(steps) >= 1 && !(launched && old(steps) >= 4 && w.exit.ExitCode?))
      ensures old(job).value.status.Prepared? && job.value.status.FailedLocally? ==> r == Refused(LocalFailed)
      ensures old(job).value.status.Prepared? && old(steps) >= 6 ==> r != Died
      ensures r.Finished? ==> job.value.status.Completed? && bundle == Some(job.value.digest)
      ensures old(job).value.status.Prepared? && Favourable(w, Local) && old(steps) >= 6 ==> r.Finished?
    {
      var state := job.value;
      if state.status.FailedLocally? {
        return Refused(LocalFailed);
      }
      if !state.status.Prepared? {
        return Refused(LocalInterrupted);
      }
      if !w.toolOk {
        return Refused(LocalFailed);
      }
      var alive := Live();
      if !alive {
        return Died;
      }
      job := Some(state.(status := Running));
      alive := Live();
      if !alive {
        return Died;
      }
      if !w.toolStarts {
        return Refused(LocalFailed);
      }
      launches := launches + 1;
      raw := Some(Produced);
      alive := Live();
      if !alive {
        return Died;
      }
      if w.exit.TimedOut? {
        return Refused(LocalTimeout);
      }
      alive := Live();
      if !alive {
        return Died;
      }
      if w.exit.code != 0 {
        job := Some(state.(status := FailedLocally));
        return Refused(LocalFailed);
      }
      job := Some(state.(status := Ready));
      r := Finish(w);
    }

    method RunRemotely(w: World) returns (r: Result)
      requires Valid() && job.Some? && job.value.config.mode.Service?
      requires !job.value.status.Ready? && !job.value.status.Completed? && raw.None?
      modifies this
      ensures Valid() && launches == old(launches) && job.Some?
      ensures job.value.config == old(job).value.config && job.value.digest == old(job).value.digest
      ensures old(job).value.taskId.Some? ==> job.value.taskId == old(job).value.taskId
      ensures bundle == old(bundle) || old(bundle).None?
      ensures old(job).value.status.Submitting? ==>
        && r == Refused(SubmissionUncertain)
        && job == old(job) && raw == old(raw) && bundle == old(bundle) && posts == old(posts)
      ensures r.Refused? ==> Blames(r.why, old(job), job.value.config, job.value.digest, w)
      ensures !old(job).value.status.Submitting? && !w.healthy ==>
        r == Refused(ServiceUnavailable) && job == old(job) && raw == old(raw) && bundle == old(bundle)
      // The intent is durable before the request, and the task of its answer after it.
      ensures posts == old(posts) + if old(job).value.status.Prepared? && w.healthy && old(steps) >= 2 then 1 else 0
      ensures old(job).value.status.Prepared? && w.healthy ==>
        && (job == old(job) <==> old(steps) == 0)
        && job.value.taskId == (if old(steps) >= 3 && w.reply.Task? then Some(w.reply.id) else None)
        && (job.value.status.Submitting? <==> old(steps) >= 1 && job.value.taskId.None?)
      ensures old(steps) >= 7 ==> r != Died
      ensures r.Finished? ==> job.value.status.Completed? && bundle == Some(job.value.digest)
      ensures !old(job).value.status.Submitting? && Favourable(w, Service) && old(steps) >= 7 ==> r.Finished?
    {
      var state := job.value;
      if state.status.Submitting? {
        return Refused(SubmissionUncertain);
      }
      if !w.healthy {
        return Refused(ServiceUnavailable);
      }
      var alive := true;
      if state.status.Prepared? {
        alive := Live();
        if !alive {
          return Died;
        }
        state := state.(status := Submitting);
        job := Some(state);
        alive := Live();
        if !alive {
          return Died;
        }
        posts := posts + 1;
        if w.reply.NoReply? {
          return Refused(ServiceUnavailable);
        }
        if w.reply.InvalidTask? {
          return Refused(BadReply);
        }
        alive := Live();
        if !alive {
          return Died;
        }
        state := state.(taskId := Some(w.reply.id), status := Submitted);
        job := Some(state);
      }
      if !state.status.Submitted? || state.taskId.None? {
        return Refused(JobCorrupt);
      }
      r := Download(w);
    }

    // Waits for the remote task and publishes its results with their receipt.
    method Download(w: World) returns (r: Result)
      requires Valid() && job.Some? && job.value.config.mode.Service? && job.value.status.Submitted? && raw.None?
      modifies this
      ensures Valid() && launches == old(launches) && posts == old(posts) && job.Some?
      ensures exists status :: job.value == old(job).value.(status := status)
      ensures bundle == old(bundle) || old(bundle).None?
      ensures !(w.remote.RemoteCompleted? && w.archiveOk) ==>
        && r == Refused(if w.remote.RemoteFailed? then RemoteTaskFailed else if w.remote.RemoteUnknown? then BadReply else BadArchive)
        && job == old(job) && raw == old(raw) && bundle == old(bundle)
      ensures w.remote.RemoteCompleted? && w.archiveOk ==>
        && raw == (if old(steps) >= 1 then Some(Downloaded(old(job).value.taskId.value, old(job).value.digest)) else None)
        && (job.value.status.Submitted? <==> old(steps) < 2)
        && (r.Refused? ==> r.why.BadResult? && !w.resultsOk)
      ensures old(steps) >= 4 ==> r != Died
      ensures r.Finished? ==> job.value.status.Completed? && bundle == Some(job.value.digest)
      ensures Favourable(w, Service) && old(steps) >= 4 ==> r.Finished?
    {
      var state := job.value;
      if w.remote.RemoteFailed? {
        return Refused(RemoteTaskFailed);
      }
      if w.remote.RemoteUnknown? {
        return Refused(BadReply);
      }
      if !w.archiveOk {
        return Refused(BadArchive);
      }
      if raw.Some? {
        return Refused(JobCorrupt);
      }
      var alive := Live();
      if !alive {
        return Died;
      }
      raw := Some(Downloaded(state.taskId.value, state.digest));
      alive := Live();
      if !alive {
        return Died;
      }
      job := Some(state.(status := Ready));
      r := Finish(w);
    }
  }

  datatype Call = Call(config: Config, digest: int, world: World, budget: nat)

  // Over any sequence of calls, by any callers, living any length: work is started
  // at most once, and the job keeps the identity its first call gave it.
  method RunMany(calls: seq<Call>) returns (dir: JobDirectory)
    ensures fresh(dir) && dir.Valid()
    ensures dir.posts + dir.launches <= 1
    ensures dir.job.Some? && dir.job.value.config.mode.Service? && dir.raw.Some? ==>
      dir.job.value.taskId.Some? && dir.raw == Some(Downloaded(dir.job.value.taskId.value, dir.job.value.digest))
    ensures dir.job.Some? && dir.job.value.status.Completed? ==> dir.bundle == Some(dir.job.value.digest)
    ensures dir.job.Some? ==> exists c :: c in calls && c.config == dir.job.value.config && c.digest == dir.job.value.digest
  {
    dir := new JobDirectory();
    for k := 0 to |calls|
      invariant fresh(dir) && dir.Valid()
      invariant dir.job.Some? ==>
        exists c :: c in calls[..k] && c.config == dir.job.value.config && c.digest == dir.job.value.digest
    {
      var r := dir.Parse(calls[k].config, calls[k].digest, calls[k].world, calls[k].budget);
      assert calls[..k + 1] == calls[..k] + [calls[k]];
      assert calls[k] in calls[..k + 1];
    }
    assert calls[..|calls|] == calls;
  }
}

/** The batch bookkeeping of `CollectorManager`: the `status` record, the
    messages `update_status` appends to it, the per-artifact statistics and
    the step sequencing of a batch run. Creating a spec, building, pushing
    and executing a collector, connecting, pulling and processing are
    outcomes handed in from outside, each with the status messages it
    posts. */
module Bookkeeping {
  import opened Text
  import opened Status
  import opened Transport
  import opened Paths
  import Wrappers

  /** An entry of `artifact_stats`; execution time in whole seconds. */
  datatype ArtifactInfo = ArtifactInfo(name: string, executionTime: nat)

  /** The outcome of an external step and the messages it posted. */
  datatype Step = Step(ok: bool, posts: seq<Post>)

  /** What one artifact's run meets: whether its spec is created, the build
      and push/execute steps, and how long it took. */
  datatype ArtifactRun = ArtifactRun(specOk: bool, build: Step, push: Step, elapsed: nat)

  /** What a batch run meets: cleaning the work directories, opening the
      connections, each artifact's run, pulling and processing the data. */
  datatype BatchEnv = BatchEnv(cleanOk: bool, connect: Step, runs: seq<ArtifactRun>, pull: Step, process: Step)

  /** The messages of `create_artifact_spec`. */
  function SpecPosts(name: string, ok: bool): seq<Post> {
    [Post("Creating spec for " + name, false)]
    + if ok then [Post("Created spec file for " + name, false)] else [Post("Failed to create spec for " + name, true)]
  }

  /** The messages of `create_combined_artifact_spec`. */
  function CombinedSpecPosts(count: nat, ok: bool): seq<Post> {
    [Post("Creating combined spec for " + NatToString(count) + " artifacts", false)]
    + if ok then [Post("Created combined spec file with " + NatToString(count) + " artifacts", false)]
      else [Post("Failed to create combined spec", true)]
  }

  /** Spec, then (when building) build, then push/execute: every step runs
      only when the ones before it succeeded. */
  predicate StepsOk(specOk: bool, building: bool, build: Step, push: Step) {
    specOk && (!building || (build.ok && push.ok))
  }

  /** The messages posted along that sequence. */
  function StepsPosts(specPosts: seq<Post>, specOk: bool, building: bool, build: Step, push: Step): seq<Post> {
    specPosts + if !specOk || !building then [] else build.posts + if build.ok then push.posts else []
  }

  /** Whether one artifact's run succeeds, and the messages it posts. */
  predicate RunOk(r: ArtifactRun, building: bool) {
    StepsOk(r.specOk, building, r.build, r.push)
  }

  function RunPosts(name: string, r: ArtifactRun, building: bool): seq<Post> {
    StepsPosts(SpecPosts(name, r.specOk), r.specOk, building, r.build, r.push)
  }

  /** The statistics entries the runs add to `successful` (`ok`) or to
      `failed` (`!ok`), in order. */
  function Recorded(names: seq<string>, runs: seq<ArtifactRun>, building: bool, ok: bool): (r: seq<ArtifactInfo>)
    requires |names| == |runs|
    ensures |r| <= |names|
    decreases |names|
  {
    if names == [] then []
    else
      var n := |names| - 1;
      Recorded(names[..n], runs[..n], building, ok)
      + if RunOk(runs[n], building) == ok then [ArtifactInfo(names[n], runs[n].elapsed)] else []
  }

  /** Every run is recorded once: as a success or as a failure. */
  lemma {:induction false} RecordedOnce(names: seq<string>, runs: seq<ArtifactRun>, building: bool)
    requires |names| == |runs|
    ensures |Recorded(names, runs, building, true)| + |Recorded(names, runs, building, false)| == |names|
    decreases |names|
  {
    if names != [] {
      var n := |names| - 1;
      RecordedOnce(names[..n], runs[..n], building);
    }
  }

  /** All runs succeed. */
  predicate AllOk(runs: seq<ArtifactRun>, building: bool) {
    forall i :: 0 <= i < |runs| ==> RunOk(runs[i], building)
  }

  /** When every run succeeds nothing is recorded as failed. */
  lemma {:induction false} AllOkNoFailure(names: seq<string>, runs: seq<ArtifactRun>, building: bool)
    requires |names| == |runs|
    ensures AllOk(runs, building) <==> Recorded(names, runs, building, false) == []
    decreases |names|
  {
    if names != [] {
      var n := |names| - 1;
      AllOkNoFailure(names[..n], runs[..n], building);
      if AllOk(runs, building) {
        assert AllOk(runs[..n], building) by {
          forall i | 0 <= i < n ensures RunOk(runs[..n][i], building) {
            assert runs[..n][i] == runs[i];
          }
        }
      }
      if Recorded(names, runs, building, false) == [] {
        forall i | 0 <= i < |runs| ensures RunOk(runs[i], building) {
          if i < n {
            assert runs[..n][i] == runs[i];
          }
        }
      }
    }
  }

  function RunsPosts(names: seq<string>, runs: seq<ArtifactRun>, building: bool): seq<Post>
    requires |names| == |runs|
    decreases |names|
  {
    if names == [] then []
    else
      var n := |names| - 1;
      RunsPosts(names[..n], runs[..n], building) + RunPosts(names[n], runs[n], building)
  }

  lemma AllOkSnoc(runs: seq<ArtifactRun>, building: bool, i: nat)
    requires i < |runs|
    ensures AllOk(runs[..i + 1], building) == (AllOk(runs[..i], building) && RunOk(runs[i], building))
  {
    assert forall k :: 0 <= k < i ==> runs[..i + 1][k] == runs[..i][k];
    assert runs[..i + 1][i] == runs[i];
  }

  /** Extending the runs by one adds that run's entry and messages. */
  lemma RunsSnoc(names: seq<string>, runs: seq<ArtifactRun>, building: bool, i: nat)
    requires |names| == |runs| && i < |names|
    ensures Recorded(names[..i + 1], runs[..i + 1], building, true)
      == Recorded(names[..i], runs[..i], building, true)
         + if RunOk(runs[i], building) then [ArtifactInfo(names[i], runs[i].elapsed)] else []
    ensures Recorded(names[..i + 1], runs[..i + 1], building, false)
      == Recorded(names[..i], runs[..i], building, false)
         + if RunOk(runs[i], building) then [] else [ArtifactInfo(names[i], runs[i].elapsed)]
    ensures RunsPosts(names[..i + 1], runs[..i + 1], building)
      == RunsPosts(names[..i], runs[..i], building) + RunPosts(names[i], runs[i], building)
  {
    assert names[..i + 1][..i] == names[..i] && runs[..i + 1][..i] == runs[..i];
    assert names[..i + 1][i] == names[i] && runs[..i + 1][i] == runs[i];
  }

  /** The messages of the pull and of the processing after it. */
  function PullPosts(pull: Step, process: Step): seq<Post> {
    pull.posts + if pull.ok then process.posts else []
  }

  /** A batch run gets past cleaning and connecting. */
  predicate Reaches(env: BatchEnv, building: bool) {
    env.cleanOk && (!building || env.connect.ok)
  }

  /** The data is pulled only when building was asked for and every
      artifact succeeded. */
  predicate Pulls(env: BatchEnv, building: bool) {
    Reaches(env, building) && building && AllOk(env.runs, building)
  }

  /** The messages of a batch run. */
  function BatchPosts(artifacts: seq<string>, building: bool, env: BatchEnv): seq<Post>
    requires |env.runs| == |artifacts|
  {
    if !env.cleanOk then [Post("Failed to clean directories", true)] else ConnectedPosts(artifacts, building, env)
  }

  /** The messages of a batch run once the directories are clean. */
  function ConnectedPosts(artifacts: seq<string>, building: bool, env: BatchEnv): seq<Post>
    requires |env.runs| == |artifacts|
  {
    (if building then env.connect.posts else [])
    + if building && !env.connect.ok then [] else ReachedPosts(artifacts, building, env)
  }

  /** The messages of a batch run once connected: every artifact's, then
      the pull's when building and every artifact succeeded. */
  function ReachedPosts(artifacts: seq<string>, building: bool, env: BatchEnv): seq<Post>
    requires |env.runs| == |artifacts|
  {
    RunsPosts(artifacts, env.runs, building)
    + if building && AllOk(env.runs, building) then PullPosts(env.pull, env.process) else []
  }

  /** A batch run that gets past connecting records every artifact exactly
      once, and it pulls exactly when building and nothing was recorded as
      failed. */
  lemma BatchOutcome(artifacts: seq<string>, building: bool, env: BatchEnv)
    requires |env.runs| == |artifacts|
    ensures Reaches(env, building) ==>
      |Recorded(artifacts, env.runs, building, true)| + |Recorded(artifacts, env.runs, building, false)| == |artifacts|
    ensures Pulls(env, building) <==> Reaches(env, building) && building && Recorded(artifacts, env.runs, building, false) == []
  {
    RecordedOnce(artifacts, env.runs, building);
    AllOkNoFailure(artifacts, env.runs, building);
  }

  /** A failed cleaning posts one error and nothing else; a failed
      connection ends the run after the connection's own messages. */
  lemma BatchStopsEarly(artifacts: seq<string>, building: bool, env: BatchEnv)
    requires |env.runs| == |artifacts|
    ensures !env.cleanOk ==> BatchPosts(artifacts, building, env) == [Post("Failed to clean directories", true)]
    ensures env.cleanOk && building && !env.connect.ok ==> BatchPosts(artifacts, building, env) == env.connect.posts
  {
    if env.cleanOk && building && !env.connect.ok {
      assert env.connect.posts + [] == env.connect.posts;
    }
  }

  class CollectorManager {
    var processing: bool
    var totalArtifacts: nat
    var processed: nat
    var currentArtifact: string
    var messages: seq<StatusUpdate>
    var completed: bool
    /** `task_start_time is not None`. */
    var clockRunning: bool
    var successful: seq<ArtifactInfo>
    var failed: seq<ArtifactInfo>

    constructor ()
      ensures !processing && totalArtifacts == 0 && processed == 0 && currentArtifact == ""
      ensures messages == [] && !completed && !clockRunning
      ensures successful == [] && failed == []
    {
      processing := false;
      totalArtifacts := 0;
      processed := 0;
      currentArtifact := "";
      messages := [];
      completed := false;
      clockRunning := false;
      successful := [];
      failed := [];
    }

    /** `update_status`: appends one entry and (re)starts the clock. */
    method UpdateStatus(message: string, isError: bool)
      modifies this
      ensures messages == old(messages) + [StatusUpdate(message, isError, old(clockRunning))]
      ensures clockRunning
      ensures processing == old(processing) && completed == old(completed)
      ensures totalArtifacts == old(totalArtifacts) && processed == old(processed)
      ensures currentArtifact == old(currentArtifact)
      ensures successful == old(successful) && failed == old(failed)
    {
      messages := messages + [StatusUpdate(message, isError, clockRunning)];
      clockRunning := true;
    }

    /** `update_status` for each of `posts`, in order. */
    method PostAll(posts: seq<Post>)
      modifies this
      ensures messages == old(messages) + Updates(posts, old(clockRunning))
      ensures clockRunning == (old(clockRunning) || posts != [])
      ensures processing == old(processing) && completed == old(completed)
      ensures totalArtifacts == old(totalArtifacts) && processed == old(processed)
      ensures currentArtifact == old(currentArtifact)
      ensures successful == old(successful) && failed == old(failed)
    {
      for i := 0 to |posts|
        invariant messages == old(messages) + Updates(posts[..i], old(clockRunning))
        invariant clockRunning == (old(clockRunning) || i > 0)
        invariant processing == old(processing) && completed == old(completed)
        invariant totalArtifacts == old(totalArtifacts) && processed == old(processed)
        invariant currentArtifact == old(currentArtifact)
        invariant successful == old(successful) && failed == old(failed)
      {
        UpdatesAppend(posts[..i], [posts[i]], old(clockRunning));
        assert posts[..i] + [posts[i]] == posts[..i + 1];
        Wrappers.AppendAssoc(old(messages), Updates(posts[..i], old(clockRunning)), Updates([posts[i]], old(clockRunning) || i > 0));
        UpdateStatus(posts[i].message, posts[i].isError);
      }
      assert posts[..|posts|] == posts;
    }

    /** `update_artifact_statistics`: one entry in the list the outcome
        selects, and one more artifact processed. */
    method UpdateArtifactStatistics(name: string, success: bool, executionTime: nat)
      modifies this
      ensures successful == old(successful) + if success then [ArtifactInfo(name, executionTime)] else []
      ensures failed == old(failed) + if success then [] else [ArtifactInfo(name, executionTime)]
      ensures processed == old(processed) + 1
      ensures messages == old(messages) && clockRunning == old(clockRunning)
      ensures processing == old(processing) && completed == old(completed)
      ensures totalArtifacts == old(totalArtifacts) && currentArtifact == old(currentArtifact)
    {
      if success {
        successful := successful + [ArtifactInfo(name, executionTime)];
      } else {
        failed := failed + [ArtifactInfo(name, executionTime)];
      }
      processed := processed + 1;
    }

    /** `create_artifact_spec`, with whether the spec generator produced a
        file. */
    method CreateArtifactSpec(name: string, specOk: bool) returns (ok: bool)
      modifies this
      ensures ok == specOk
      ensures messages == old(messages) + Updates(SpecPosts(name, specOk), old(clockRunning))
      ensures clockRunning
      ensures processing == old(processing) && completed == old(completed)
      ensures totalArtifacts == old(totalArtifacts) && processed == old(processed)
      ensures currentArtifact == old(currentArtifact)
      ensures successful == old(successful) && failed == old(failed)
    {
      PostAll(SpecPosts(name, specOk));
      ok := specOk;
    }

    /** `create_combined_artifact_spec`. */
    method CreateCombinedArtifactSpec(artifacts: seq<string>, specOk: bool) returns (ok: bool)
      modifies this
      ensures ok == specOk
      ensures messages == old(messages) + Updates(CombinedSpecPosts(|artifacts|, specOk), old(clockRunning))
      ensures clockRunning
      ensures processing == old(processing) && completed == old(completed)
      ensures totalArtifacts == old(totalArtifacts) && processed == old(processed)
      ensures currentArtifact == old(currentArtifact)
      ensures successful == old(successful) && failed == old(failed)
    {
      PostAll(CombinedSpecPosts(|artifacts|, specOk));
      ok := specOk;
    }

    /** The sequence both `process_single_artifact` and
        `process_artifact_combination` follow once the spec step has run:
        build and push/execute when building, then exactly one statistics
        entry under `name`, whichever way it ends. */
    method FinishSteps(name: string, specOk: bool, building: bool, build: Step, push: Step, elapsed: nat) returns (ok: bool)
      modifies this
      ensures ok == StepsOk(specOk, building, build, push)
      ensures messages == old(messages) + Updates(StepsPosts([], specOk, building, build, push), old(clockRunning))
      ensures clockRunning == (old(clockRunning) || StepsPosts([], specOk, building, build, push) != [])
      ensures successful == old(successful) + if ok then [ArtifactInfo(name, elapsed)] else []
      ensures failed == old(failed) + if ok then [] else [ArtifactInfo(name, elapsed)]
      ensures processed == old(processed) + 1
      ensures processing == old(processing) && completed == old(completed)
      ensures totalArtifacts == old(totalArtifacts) && currentArtifact == old(currentArtifact)
    {
      var posts: seq<Post> := [];
      if specOk && building {
        PostAll(build.posts);
        posts := build.posts;
        if build.ok {
          PostAll(push.posts);
          UpdatesAppend(build.posts, push.posts, old(clockRunning));
          Wrappers.AppendAssoc(old(messages), Updates(build.posts, old(clockRunning)),
                      Updates(push.posts, old(clockRunning) || build.posts != []));
          posts := build.posts + push.posts;
        }
      }
      assert posts == StepsPosts([], specOk, building, build, push);
      assert messages == old(messages) + Updates(posts, old(clockRunning));
      ok := StepsOk(specOk, building, build, push);
      UpdateArtifactStatistics(name, ok, elapsed);
    }

    /** `process_single_artifact`. */
    method ProcessSingleArtifact(name: string, building: bool, run: ArtifactRun) returns (ok: bool)
      modifies this
      ensures ok == RunOk(run, building)
      ensures messages == old(messages) + Updates(RunPosts(name, run, building), old(clockRunning))
      ensures clockRunning
      ensures successful == old(successful) + if ok then [ArtifactInfo(name, run.elapsed)] else []
      ensures failed == old(failed) + if ok then [] else [ArtifactInfo(name, run.elapsed)]
      ensures processed == old(processed) + 1
      ensures processing == old(processing) && completed == old(completed)
      ensures totalArtifacts == old(totalArtifacts) && currentArtifact == old(currentArtifact)
    {
      var specOk := CreateArtifactSpec(name, run.specOk);
      ok := FinishSteps(name, specOk, building, run.build, run.push, run.elapsed);
      var sp, rest := SpecPosts(name, run.specOk), StepsPosts([], run.specOk, building, run.build, run.push);
      UpdatesAppend(sp, rest, old(clockRunning));
      Wrappers.AppendAssoc(old(messages), Updates(sp, old(clockRunning)), Updates(rest, true));
      assert sp + rest == RunPosts(name, run, building);
    }

    /** `process_artifact_combination`: the combination runs as one unit
        under `profileName` (the timestamped name the source generates). */
    method ProcessArtifactCombination(artifacts: seq<string>, building: bool, profileName: string, run: ArtifactRun)
      returns (ok: bool)
      modifies this
      ensures ok == RunOk(run, building)
      ensures messages == old(messages)
        + Updates(StepsPosts(CombinedSpecPosts(|artifacts|, run.specOk), run.specOk, building, run.build, run.push), old(clockRunning))
      ensures clockRunning
      ensures successful == old(successful) + if ok then [ArtifactInfo(profileName, run.elapsed)] else []
      ensures failed == old(failed) + if ok then [] else [ArtifactInfo(profileName, run.elapsed)]
      ensures processed == old(processed) + 1
      ensures processing == old(processing) && completed == old(completed)
      ensures totalArtifacts == old(totalArtifacts) && currentArtifact == old(currentArtifact)
    {
      var specOk := CreateCombinedArtifactSpec(artifacts, run.specOk);
      ok := FinishSteps(profileName, specOk, building, run.build, run.push, run.elapsed);
      var sp, rest := CombinedSpecPosts(|artifacts|, run.specOk), StepsPosts([], run.specOk, building, run.build, run.push);
      UpdatesAppend(sp, rest, old(clockRunning));
      Wrappers.AppendAssoc(old(messages), Updates(sp, old(clockRunning)), Updates(rest, true));
      assert sp + rest == StepsPosts(sp, run.specOk, building, run.build, run.push);
    }

    /** What the artifact loop of `run_batch_mode` has done after the
        first `i` artifacts, starting from the given statistics, messages
        and clock. */
    ghost predicate LoopDone(artifacts: seq<string>, building: bool, runs: seq<ArtifactRun>, i: nat, ok: bool,
                             processed0: nat, successful0: seq<ArtifactInfo>, failed0: seq<ArtifactInfo>,
                             messages0: seq<StatusUpdate>, clock0: bool)
      requires |runs| == |artifacts| && i <= |artifacts|
      reads this
    {
      && processed == processed0 + i
      && ok == AllOk(runs[..i], building)
      && successful == successful0 + Recorded(artifacts[..i], runs[..i], building, true)
      && failed == failed0 + Recorded(artifacts[..i], runs[..i], building, false)
      && messages == messages0 + Updates(RunsPosts(artifacts[..i], runs[..i], building), clock0)
      && clockRunning == (clock0 || RunsPosts(artifacts[..i], runs[..i], building) != [])
    }

    /** One turn of the artifact loop: artifact `i` is processed and the
        outcome joins what the earlier turns did. */
    method ProcessNext(artifacts: seq<string>, building: bool, runs: seq<ArtifactRun>, i: nat, okSoFar: bool,
                       ghost processed0: nat, ghost successful0: seq<ArtifactInfo>, ghost failed0: seq<ArtifactInfo>,
                       ghost messages0: seq<StatusUpdate>, ghost clock0: bool)
      returns (ok: bool)
      requires |runs| == |artifacts| && i < |artifacts|
      requires LoopDone(artifacts, building, runs, i, okSoFar, processed0, successful0, failed0, messages0, clock0)
      modifies this
      ensures LoopDone(artifacts, building, runs, i + 1, ok, processed0, successful0, failed0, messages0, clock0)
      ensures processing == old(processing) && completed == old(completed)
      ensures totalArtifacts == old(totalArtifacts) && currentArtifact == old(currentArtifact)
    {
      ghost var posted := RunsPosts(artifacts[..i], runs[..i], building);
      ghost var step := RunPosts(artifacts[i], runs[i], building);
      ghost var m := messages;
      var r := ProcessSingleArtifact(artifacts[i], building, runs[i]);
      PostedInTwoRounds(messages0, m, messages, posted, step, clock0);
      RunsSnoc(artifacts, runs, building, i);
      AllOkSnoc(runs, building, i);
      ok := okSoFar && r;
    }

    /** The artifact loop of `run_batch_mode`: every artifact is processed,
        whatever happened to the ones before it. */
    method ProcessArtifacts(artifacts: seq<string>, building: bool, runs: seq<ArtifactRun>) returns (ok: bool)
      requires |runs| == |artifacts|
      modifies this
      ensures ok == AllOk(runs, building)
      ensures processed == old(processed) + |artifacts|
      ensures successful == old(successful) + Recorded(artifacts, runs, building, true)
      ensures failed == old(failed) + Recorded(artifacts, runs, building, false)
      ensures messages == old(messages) + Updates(RunsPosts(artifacts, runs, building), old(clockRunning))
      ensures clockRunning == (old(clockRunning) || RunsPosts(artifacts, runs, building) != [])
      ensures processing == old(processing) && completed == old(completed)
      ensures totalArtifacts == old(totalArtifacts) && currentArtifact == old(currentArtifact)
    {
      ok := true;
      assert artifacts[..0] == [] && runs[..0] == [];
      for i := 0 to |artifacts|
        invariant LoopDone(artifacts, building, runs, i, ok, old(processed), old(successful), old(failed), old(messages), old(clockRunning))
        invariant processing == old(processing) && completed == old(completed)
        invariant totalArtifacts == old(totalArtifacts) && currentArtifact == old(currentArtifact)
      {
        ok := ProcessNext(artifacts, building, runs, i, ok, old(processed), old(successful), old(failed), old(messages), old(clockRunning));
      }
      assert artifacts[..|artifacts|] == artifacts && runs[..|artifacts|] == runs;
    }

    /** The pull of `run_batch_mode`, and the processing that follows a
        successful pull. */
    method PullAndProcess(pull: Step, process: Step) returns (ok: bool)
      modifies this
      ensures ok == (pull.ok && process.ok)
      ensures messages == old(messages) + Updates(PullPosts(pull, process), old(clockRunning))
      ensures clockRunning == (old(clockRunning) || PullPosts(pull, process) != [])
      ensures processing == old(processing) && completed == old(completed)
      ensures totalArtifacts == old(totalArtifacts) && processed == old(processed)
      ensures currentArtifact == old(currentArtifact)
      ensures successful == old(successful) && failed == old(failed)
    {
      PostAll(pull.posts);
      ok := pull.ok;
      if ok {
        PostAll(process.posts);
        UpdatesAppend(pull.posts, process.posts, old(clockRunning));
        ok := process.ok;
      } else {
        assert PullPosts(pull, process) == pull.posts;
      }
    }

    /** `run_batch_mode` once connected: every artifact, then the pull and
        the processing when building and every artifact succeeded. */
    method RunReached(artifacts: seq<string>, building: bool, env: BatchEnv) returns (ok: bool, pulled: bool)
      requires |env.runs| == |artifacts|
      modifies this
      ensures ok <==> AllOk(env.runs, building) && (!building || (env.pull.ok && env.process.ok))
      ensures pulled <==> building && AllOk(env.runs, building)
      ensures processed == old(processed) + |artifacts|
      ensures successful == old(successful) + Recorded(artifacts, env.runs, building, true)
      ensures failed == old(failed) + Recorded(artifacts, env.runs, building, false)
      ensures messages == old(messages) + Updates(ReachedPosts(artifacts, building, env), old(clockRunning))
      ensures processing == old(processing) && completed == old(completed)
      ensures totalArtifacts == old(totalArtifacts) && currentArtifact == old(currentArtifact)
    {
      ok := ProcessArtifacts(artifacts, building, env.runs);
      pulled := false;
      ghost var m := messages;
      var runPosts := RunsPosts(artifacts, env.runs, building);
      var tail: seq<Post> := [];
      if building && ok {
        pulled := true;
        ok := PullAndProcess(env.pull, env.process);
        tail := PullPosts(env.pull, env.process);
      }
      assert messages == m + Updates(tail, old(clockRunning) || runPosts != []);
      PostedInTwoRounds(old(messages), m, messages, runPosts, tail, old(clockRunning));
      assert ReachedPosts(artifacts, building, env) == runPosts + tail;
    }

    /** `run_batch_mode` after the directories were cleaned: connect when
        building, and go on only when that succeeded. */
    method RunConnected(artifacts: seq<string>, building: bool, env: BatchEnv) returns (ok: bool, pulled: bool)
      requires |env.runs| == |artifacts|
      modifies this
      ensures var reached := !building || env.connect.ok;
        && (ok <==> reached && AllOk(env.runs, building) && (!building || (env.pull.ok && env.process.ok)))
        && (pulled <==> reached && building && AllOk(env.runs, building))
        && processed == old(processed) + (if reached then |artifacts| else 0)
        && successful == old(successful) + (if reached then Recorded(artifacts, env.runs, building, true) else [])
        && failed == old(failed) + (if reached then Recorded(artifacts, env.runs, building, false) else [])
      ensures messages == old(messages) + Updates(ConnectedPosts(artifacts, building, env), old(clockRunning))
      ensures processing == old(processing) && completed == old(completed)
      ensures totalArtifacts == old(totalArtifacts) && currentArtifact == old(currentArtifact)
    {
      var connectPosts := if building then env.connect.posts else [];
      PostAll(connectPosts);
      if building && !env.connect.ok {
        assert ConnectedPosts(artifacts, building, env) == connectPosts + [] == connectPosts;
        ok, pulled := false, false;
      } else {
        ghost var m := messages;
        ok, pulled := RunReached(artifacts, building, env);
        PostedInTwoRounds(old(messages), m, messages, connectPosts, ReachedPosts(artifacts, building, env), old(clockRunning));
      }
    }

    /** `run_batch_mode`: every artifact is processed even after failures;
        the data is pulled (and then processed) only when building and every
        artifact succeeded. `pulled` tells whether the pull was attempted.
        The statistics lists are not reset, `processed` is. */
    method RunBatchMode(artifacts: seq<string>, building: bool, env: BatchEnv) returns (ok: bool, pulled: bool)
      requires |env.runs| == |artifacts|
      modifies this
      ensures ok <==> Reaches(env, building) && AllOk(env.runs, building) && (!building || (env.pull.ok && env.process.ok))
      ensures pulled <==> Pulls(env, building)
      ensures totalArtifacts == |artifacts|
      ensures processed == if Reaches(env, building) then |artifacts| else 0
      ensures successful == old(successful) + if Reaches(env, building) then Recorded(artifacts, env.runs, building, true) else []
      ensures failed == old(failed) + if Reaches(env, building) then Recorded(artifacts, env.runs, building, false) else []
      ensures messages == old(messages) + Updates(BatchPosts(artifacts, building, env), old(clockRunning))
      ensures !processing && completed && !clockRunning
      ensures currentArtifact == old(currentArtifact)
    {
      processing := true;
      completed := false;
      totalArtifacts := |artifacts|;
      processed := 0;
      if !env.cleanOk {
        UpdateStatus("Failed to clean directories", true);
        assert Updates([Post("Failed to clean directories", true)], old(clockRunning))
          == [StatusUpdate("Failed to clean directories", true, old(clockRunning))];
        ok, pulled := false, false;
      } else {
        ok, pulled := RunConnected(artifacts, building, env);
      }
      processing := false;
      completed := true;
      clockRunning := false;
    }

    /** One turn of the pull loop of `pull_files_by_pattern`: the file is
        announced, then reported copied or failed. */
    method PullOne(path: string, localDir: string, pullErrors: map<string, string>)
      modifies this
      ensures messages == old(messages) + Updates(FilePair(path, localDir, pullErrors), old(clockRunning))
      ensures clockRunning
      ensures processing == old(processing) && completed == old(completed)
      ensures totalArtifacts == old(totalArtifacts) && processed == old(processed)
      ensures currentArtifact == old(currentArtifact)
      ensures successful == old(successful) && failed == old(failed)
    {
      UpdateStatus("Pulling file " + path + "...", false);
      if path in pullErrors {
        UpdateStatus("Failed to pull " + path + ": " + pullErrors[path], true);
      } else {
        UpdateStatus("File pulled successfully to " + PathJoin(localDir, Basename(path)), false);
      }
    }

    /** The pull loop of `pull_files_by_pattern`: every listed file in turn,
        whatever happened to the ones before it. */
    method PullListed(files: seq<string>, localDir: string, pullErrors: map<string, string>)
      modifies this
      ensures messages == old(messages) + Updates(FilePosts(files, localDir, pullErrors), old(clockRunning))
      ensures clockRunning == (old(clockRunning) || files != [])
      ensures processing == old(processing) && completed == old(completed)
      ensures totalArtifacts == old(totalArtifacts) && processed == old(processed)
      ensures currentArtifact == old(currentArtifact)
      ensures successful == old(successful) && failed == old(failed)
    {
      for i := 0 to |files|
        invariant messages == old(messages) + Updates(FilePosts(files[..i], localDir, pullErrors), old(clockRunning))
        invariant clockRunning == (old(clockRunning) || i > 0)
        invariant processing == old(processing) && completed == old(completed)
        invariant totalArtifacts == old(totalArtifacts) && processed == old(processed)
        invariant currentArtifact == old(currentArtifact)
        invariant successful == old(successful) && failed == old(failed)
      {
        ghost var m := messages;
        ghost var done := FilePosts(files[..i], localDir, pullErrors);
        PullOne(files[i], localDir, pullErrors);
        PostedInTwoRounds(old(messages), m, messages, done, FilePair(files[i], localDir, pullErrors), old(clockRunning));
        FilePostsPrefix(files, localDir, pullErrors, i);
      }
      assert files[..|files|] == files;
    }

    /** `pull_files_by_pattern`: a failed listing or an empty one is an
        error, and so is a connection that raises; otherwise, once
        connected, every listed file is pulled in order and the pull
        succeeds whatever happens to single files. */
    method PullFilesByPattern(pattern: string, localDir: string, env: PullEnv) returns (ok: bool)
      modifies this
      ensures ok == PullSucceeds(env)
      ensures messages == old(messages) + Updates(PullPatternPosts(pattern, localDir, env), old(clockRunning))
      ensures processing == old(processing) && completed == old(completed)
      ensures totalArtifacts == old(totalArtifacts) && processed == old(processed)
      ensures currentArtifact == old(currentArtifact)
      ensures successful == old(successful) && failed == old(failed)
    {
      var posts := PullPatternPosts(pattern, localDir, env);
      if env.listing.statusCode != 0 {
        var p := Post("Failed to list files matching pattern", true);
        UpdateStatus(p.message, p.isError);
        assert posts == [p];
        assert Updates([p], old(clockRunning)) == [StatusUpdate(p.message, p.isError, old(clockRunning))];
        return false;
      }
      var files := ListedFiles(env.listing.stdout);
      if files == [] {
        var p := Post("No files found matching pattern: " + pattern, true);
        UpdateStatus(p.message, p.isError);
        assert posts == [p];
        assert Updates([p], old(clockRunning)) == [StatusUpdate(p.message, p.isError, old(clockRunning))];
        return false;
      }
      var ssh := PullSsh(env);
      if !ssh.Connected? {
        if ssh.ConnectFailed? {
          var p := Post("Failed to establish SSH connection: " + ssh.error, true);
          UpdateStatus(p.message, p.isError);
          assert posts == [p];
          assert Updates([p], old(clockRunning)) == [StatusUpdate(p.message, p.isError, old(clockRunning))];
        } else {
          assert posts == [];
        }
        return false;
      }
      assert posts == FilePosts(files, localDir, env.pullErrors);
      PullListed(files, localDir, env.pullErrors);
      return true;
    }

    /** `stop_processing`: while a run is in progress, marks it stopped and
        completed between two messages; otherwise does nothing. (Closing the
        remote session is not modelled.) */
    method StopProcessing()
      modifies this
      ensures old(processing) ==> !processing && completed && clockRunning
      ensures old(processing) ==> (messages == old(messages)
        + Updates([Post("Stopping processing by user request...", false), Post("Processing stopped by user request", false)], old(clockRunning)))
      ensures !old(processing) ==> processing == old(processing) && completed == old(completed)
      ensures !old(processing) ==> messages == old(messages) && clockRunning == old(clockRunning)
      ensures totalArtifacts == old(totalArtifacts) && processed == old(processed)
      ensures currentArtifact == old(currentArtifact)
      ensures successful == old(successful) && failed == old(failed)
    {
      if processing {
        UpdateStatus("Stopping processing by user request...", false);
        processing := false;
        completed := true;
        UpdateStatus("Processing stopped by user request", false);
      }
    }
  }
}

/** The decisions `CollectorManager` takes around the remote transport and
    the build tool: whether a copied file is intact, whether a run of the
    collector finished, how the build command is put together and when a
    build counts as done, and which remote files a listing names. The
    remote shell, the build tool and the file system only hand results in:
    status codes, output text, existence flags. */
module Transport {
  import opened Text
  import opened Wrappers
  import opened Paths
  import opened Status

  /** What a remote PowerShell command returns. */
  datatype RemoteResult = RemoteResult(statusCode: int, stdout: string)

  // ---- Integer parsing (`int(text)` on a stripped string) ----

  predicate IsDigit(c: char) {
    '0' <= c <= '9'
  }

  /** A non-empty run of ASCII digits. */
  predicate AllDigits(s: string) {
    |s| > 0 && forall k :: 0 <= k < |s| ==> IsDigit(s[k])
  }

  /** The value of a run of decimal digits. */
  function DigitsValue(s: string): nat
    requires forall k :: 0 <= k < |s| ==> IsDigit(s[k])
  {
    if s == [] then 0
    else
      assert IsDigit(s[|s| - 1]);
      DigitsValue(s[..|s| - 1]) * 10 + (s[|s| - 1] as int - '0' as int)
  }

  /** `int(s)`: an optional sign followed by decimal digits; anything else
      raises, which is `None` here. */
  function ParseInt(s: string): (r: Option<int>)
    ensures r.Some? <==> AllDigits(s) || (|s| > 1 && (s[0] == '+' || s[0] == '-') && AllDigits(s[1..]))
    ensures AllDigits(s) ==> r == Some(DigitsValue(s))
  {
    if AllDigits(s) then Some(DigitsValue(s))
    else if |s| > 1 && s[0] == '-' && AllDigits(s[1..]) then Some(0 - DigitsValue(s[1..]) as int)
    else if |s| > 1 && s[0] == '+' && AllDigits(s[1..]) then Some(DigitsValue(s[1..]))
    else None
  }

  /** The decimal rendering of a number reads back as that number. */
  lemma {:induction false} DigitsOfNat(n: nat)
    ensures AllDigits(NatToString(n))
    ensures DigitsValue(NatToString(n)) == n
    decreases n
  {
    var s := NatToString(n);
    if n >= 10 {
      DigitsOfNat(n / 10);
      assert s[..|s| - 1] == NatToString(n / 10);
    }
  }

  lemma ParseNat(n: nat)
    ensures ParseInt(NatToString(n)) == Some(n)
  {
    DigitsOfNat(n);
  }

  // ---- File integrity ----

  /** `get_remote_file_hash`: the stripped output of a successful hash
      command. */
  function RemoteHash(hashResult: RemoteResult): (h: Option<string>)
    ensures h.Some? <==> hashResult.statusCode == 0
  {
    if hashResult.statusCode == 0 then Some(Strip(hashResult.stdout)) else None
  }

  /** `verify_file_integrity`: the remote size command must succeed and
      report the local size, and the remote hash must be there, non-empty,
      and equal to the local one up to letter case. */
  function VerifyFileIntegrity(localSize: nat, localHash: string, sizeResult: RemoteResult, hashResult: RemoteResult): (ok: bool)
    ensures ok ==> sizeResult.statusCode == 0 && ParseInt(Strip(sizeResult.stdout)) == Some(localSize)
    ensures ok ==> hashResult.statusCode == 0 && Strip(hashResult.stdout) != []
    ensures ok ==> ToLower(Strip(hashResult.stdout)) == ToLower(localHash) && |Strip(hashResult.stdout)| == |localHash|
    ensures sizeResult.statusCode != 0 ==> !ok
  {
    if sizeResult.statusCode != 0 then false
    else match ParseInt(Strip(sizeResult.stdout)) {
      case None => false
      case Some(remoteSize) =>
        if localSize != remoteSize then false
        else match RemoteHash(hashResult) {
          case None => false
          case Some(remoteHash) =>
            if remoteHash == [] then false
            else ToLower(localHash) == ToLower(remoteHash)
        }
    }
  }

  /** Lower-casing twice is lower-casing once. */
  lemma LowerIdempotent(s: string)
    ensures ToLower(ToLower(s)) == ToLower(s)
  {
    forall k | 0 <= k < |s| ensures ToLower(ToLower(s))[k] == ToLower(s)[k] {
    }
  }

  /** The verdict does not depend on the letter case of either hash. */
  lemma IntegrityIgnoresCase(localSize: nat, localHash: string, sizeResult: RemoteResult, code: int, remoteHash: string)
    requires Strip(remoteHash) == remoteHash && Strip(ToLower(remoteHash)) == ToLower(remoteHash)
    ensures VerifyFileIntegrity(localSize, localHash, sizeResult, RemoteResult(code, remoteHash))
         == VerifyFileIntegrity(localSize, ToLower(localHash), sizeResult, RemoteResult(code, ToLower(remoteHash)))
  {
    LowerIdempotent(localHash);
    LowerIdempotent(remoteHash);
  }

  /** A remote that reports the local size in decimal and the local hash
      (in whatever letter case) passes the check. */
  lemma IntegrityAcceptsMatch(localSize: nat, localHash: string, remoteHash: string)
    requires Strip(remoteHash) == remoteHash && remoteHash != []
    requires ToLower(localHash) == ToLower(remoteHash)
    ensures VerifyFileIntegrity(localSize, localHash, RemoteResult(0, NatToString(localSize)), RemoteResult(0, remoteHash))
  {
    ParseNat(localSize);
    NatStringTrimmed(localSize);
    assert RemoteHash(RemoteResult(0, remoteHash)) == Some(remoteHash);
  }

  /** A number's decimal digits have nothing to strip. */
  lemma NatStringTrimmed(n: nat)
    ensures Strip(NatToString(n)) == NatToString(n)
  {
    var s := NatToString(n);
    assert !IsSpace(s[0]) && !IsSpace(s[|s| - 1]);
    StripTrimmed(s);
  }

  /** A remote that reports a different size, or a hash that differs in
      more than letter case, fails the check. */
  lemma IntegrityRejectsMismatch(localSize: nat, localHash: string, sizeResult: RemoteResult, hashResult: RemoteResult)
    requires ParseInt(Strip(sizeResult.stdout)) != Some(localSize)
          || (hashResult.statusCode == 0 && ToLower(localHash) != ToLower(Strip(hashResult.stdout)))
    ensures !VerifyFileIntegrity(localSize, localHash, sizeResult, hashResult)
  {
  }

  // ---- Execution output ----

  /** `check_execution_output`: the log was readable and holds "Exiting"
      somewhere. */
  function CheckExecutionOutput(content: Option<string>): (ok: bool)
    ensures ok ==> content.Some? && exists i :: OccursAt(content.value, "Exiting", i)
    ensures content.Some? && (exists i :: OccursAt(content.value, "Exiting", i)) ==> ok
  {
    if content.Some? then ContainsAt(content.value, "Exiting"); Contains(content.value, "Exiting") else false
  }

  /** Whatever the collector writes before or after the "Exiting" line, the
      run still counts as finished. */
  lemma ExecutionOutputSurvivesMore(before: string, log: string, after: string)
    requires CheckExecutionOutput(Some(log))
    ensures CheckExecutionOutput(Some(before + log + after))
  {
    var i :| OccursAt(log, "Exiting", i);
    var whole := before + log + after;
    assert whole[|before| + i..|before| + i + 7] == log[i..i + 7];
    assert OccursAt(whole, "Exiting", |before| + i);
  }

  // ---- Building a collector ----

  /** The paths and settings the build reads from the configuration. */
  datatype BuildConfig = BuildConfig(binary: string, config: string, datastore: string, collectorsDir: string)

  /** What the build meets: which inputs exist, whether the build tool could
      be started and how it ended, whether the collector appeared in the
      datastore, and how copying it went. */
  datatype BuildEnv = BuildEnv(
    specExists: bool, binaryExists: bool, configExists: bool,
    run: ToolRun, outputExists: bool, copy: CopyOutcome)

  /** `subprocess.run` raised (with its message), or the tool ran and ended
      with an exit code and its error output. */
  datatype ToolRun = LaunchFailed(error: string) | Exited(returnCode: int, stderr: string)

  /** `shutil.copy2` succeeded (with the size as the message renders it) or
      raised (with its message). */
  datatype CopyOutcome = Copied(sizeText: string) | CopyFailed(error: string)

  /** The result of `build_collector_exe` and the messages it posted. */
  datatype BuildOutcome = BuildOutcome(collector: Option<string>, posts: seq<Post>)

  /** The name of the prebuilt collector the build tool leaves in the
      datastore. */
  const CollectorBinary := "Collector_velociraptor-v0.72.4-windows-amd64.exe"

  /** The artifact name with spaces and dots turned into underscores. */
  function SafeName(name: string): (r: string)
    ensures |r| == |name|
    ensures forall k :: 0 <= k < |r| ==> r[k] == (if name[k] == ' ' || name[k] == '.' then '_' else name[k])
  {
    if name == [] then []
    else [if name[0] == ' ' || name[0] == '.' then '_' else name[0]] + SafeName(name[1..])
  }

  /** A safe name holds no space and no dot, and making it safe again
      changes nothing. */
  lemma SafeNameClean(name: string)
    ensures ' ' !in SafeName(name) && '.' !in SafeName(name)
    ensures SafeName(SafeName(name)) == SafeName(name)
  {
    var r := SafeName(name);
    forall k | 0 <= k < |r| ensures r[k] != ' ' && r[k] != '.' {
    }
  }

  /** Making a name safe brings in no character but `_`. */
  lemma SafeNameKeepsOut(name: string, c: char)
    requires c !in name && c != '_'
    ensures c !in SafeName(name)
  {
    forall k | 0 <= k < |SafeName(name)| ensures SafeName(name)[k] != c {
      assert name[k] in name;
    }
  }

  function SourceCollector(cfg: BuildConfig): string {
    PathJoin(cfg.datastore, CollectorBinary)
  }

  /** Where the collector for `name` is copied to. */
  function TargetCollector(cfg: BuildConfig, name: string): string {
    PathJoin(cfg.collectorsDir, "collector_" + SafeName(name) + ".exe")
  }

  /** The file name of the target is `collector_<safe name>.exe`, whatever
      the collectors directory. */
  lemma TargetCollectorName(cfg: BuildConfig, name: string)
    requires Sep !in name
    ensures Basename(TargetCollector(cfg, name)) == "collector_" + SafeName(name) + ".exe"
  {
    var file := "collector_" + SafeName(name) + ".exe";
    SafeNameKeepsOut(name, Sep);
    assert Sep !in "collector_" && Sep !in ".exe";
    NotInAppend("collector_", SafeName(name), Sep);
    NotInAppend("collector_" + SafeName(name), ".exe", Sep);
    BasenameOfJoin(cfg.collectorsDir, file);
  }

  /** The build command: binary, `--config <config> collector`, the
      datastore when one is configured, then the spec. */
  function BuildCommand(cfg: BuildConfig, spec: string): (cmd: seq<string>)
    ensures |cmd| == if cfg.datastore != [] then 7 else 5
    ensures cmd[0] == cfg.binary && cmd[1..4] == ["--config", cfg.config, "collector"]
    ensures cmd[|cmd| - 1] == spec
    ensures cfg.datastore != [] ==> cmd[4..6] == ["--datastore", cfg.datastore]
  {
    var head := [cfg.binary, "--config", cfg.config, "collector"];
    var cmd := head + (if cfg.datastore != [] then ["--datastore", cfg.datastore] else []) + [spec];
    assert cmd[..4] == head;
    assert cmd[1..4] == head[1..];
    cmd
  }

  /** The message after a build tool run that ended with `code`. */
  function ExitMessage(code: int, stderr: string): string {
    "Failed to build collector. Command exit code: " + IntToString(code)
    + if stderr != [] then "\nError: " + stderr else ""
  }

  /** `build_collector_exe`: the spec, the binary and the config are checked
      in that order; the build tool runs; a collector is produced only when
      the tool exits with 0, its output exists and copying it works. Every
      way out posts exactly one last message, an error unless a collector
      was produced. */
  function BuildCollectorExe(cfg: BuildConfig, name: string, spec: string, env: BuildEnv): (b: BuildOutcome)
    ensures b.collector.Some? <==>
      env.specExists && env.binaryExists && env.configExists && env.run.Exited? && env.run.returnCode == 0
      && env.outputExists && env.copy.Copied?
  {
    var start := Post("Building collector for " + name, false);
    if !env.specExists || !env.binaryExists || !env.configExists then
      BuildOutcome(None, [start, MissingInputPost(cfg, spec, env)])
    else
      var running := Post("Running build command: " + Join(BuildCommand(cfg, spec), " "), false);
      var (collector, last) := RunOutcome(cfg, name, env);
      BuildOutcome(collector, [start, running, last])
  }

  /** The error posted for the first of spec, binary and config that is
      missing. */
  function MissingInputPost(cfg: BuildConfig, spec: string, env: BuildEnv): (p: Post)
    ensures p.isError
  {
    if !env.specExists then Post("Spec file not found at: " + spec, true)
    else if !env.binaryExists then Post("Velociraptor binary not found at: " + cfg.binary, true)
    else Post("Velociraptor config not found at: " + cfg.config, true)
  }

  /** After the build tool was started: the collector, if one was
      produced, and the last message, an error exactly when none was. */
  function RunOutcome(cfg: BuildConfig, name: string, env: BuildEnv): (r: (Option<string>, Post))
    ensures r.0.Some? <==> env.run.Exited? && env.run.returnCode == 0 && env.outputExists && env.copy.Copied?
    ensures r.0.Some? ==> r.0.value == TargetCollector(cfg, name)
    ensures r.1.isError <==> r.0.None?
  {
    var source, target := SourceCollector(cfg), TargetCollector(cfg, name);
    match env.run {
      case LaunchFailed(e) =>
        (None, Post("Failed to execute build command: " + e, true))
      case Exited(code, stderr) =>
        if code != 0 then
          (None, Post(ExitMessage(code, stderr), true))
        else if !env.outputExists then
          (None, Post("Build command succeeded but collector not found at: " + source, true))
        else
          match env.copy {
            case Copied(size) =>
              (Some(target), Post("Successfully copied collector to " + target + " (Size: " + size + " KB)", false))
            case CopyFailed(e) =>
              (None, Post("Failed to copy collector from " + source + " to " + target + ": " + e, true))
          }
    }
  }

  /** A produced collector is the target path; the messages start with the
      announcement, and only the last one can be an error, which it is
      exactly when no collector was produced. */
  lemma BuildOutcomeShape(cfg: BuildConfig, name: string, spec: string, env: BuildEnv)
    ensures var b := BuildCollectorExe(cfg, name, spec, env);
      && (b.collector.Some? ==> b.collector.value == TargetCollector(cfg, name))
      && 2 <= |b.posts| <= 3
      && b.posts[0] == Post("Building collector for " + name, false)
      && (forall k :: 0 <= k < |b.posts| - 1 ==> !b.posts[k].isError)
      && (b.posts[|b.posts| - 1].isError <==> b.collector.None?)
  {
  }

  /** The build tool runs (and the command is announced) only when all
      three inputs exist. */
  lemma BuildRunsOnlyWithInputs(cfg: BuildConfig, name: string, spec: string, env: BuildEnv)
    ensures |BuildCollectorExe(cfg, name, spec, env).posts| == 3
        <==> env.specExists && env.binaryExists && env.configExists
    ensures env.specExists && env.binaryExists && env.configExists ==>
      BuildCollectorExe(cfg, name, spec, env).posts[1].message
        == "Running build command: " + Join(BuildCommand(cfg, spec), " ")
  {
  }

  // ---- Listing remote files ----

  /** The stripped, non-empty pieces of `pieces`, in order. */
  function NonEmptyStripped(pieces: seq<string>): (files: seq<string>)
    ensures |files| <= |pieces|
    ensures forall k :: 0 <= k < |files| ==> Strip(files[k]) == files[k] && files[k] != []
  {
    if pieces == [] then []
    else
      var rest := NonEmptyStripped(pieces[..|pieces| - 1]);
      var last := Strip(pieces[|pieces| - 1]);
      StripIdempotent(pieces[|pieces| - 1]);
      if last != [] then rest + [last] else rest
  }

  /** The files a listing names: the lines of the stripped output, each
      stripped, blank ones dropped. */
  function ListedFiles(stdout: string): (files: seq<string>)
    ensures forall k :: 0 <= k < |files| ==> Strip(files[k]) == files[k] && files[k] != []
  {
    NonEmptyStripped(SplitOn(Strip(stdout), '\n'))
  }

  /** No listed file name holds a line break. */
  lemma ListedFilesOneLine(stdout: string)
    ensures forall f :: f in ListedFiles(stdout) ==> '\n' !in f
  {
    var lines := SplitOn(Strip(stdout), '\n');
    forall f | f in ListedFiles(stdout) ensures '\n' !in f {
      NonEmptyStrippedExact(lines, f);
      var k :| 0 <= k < |lines| && Strip(lines[k]) == f;
      NoBreakAfterStrip(lines[k]);
    }
  }

  /** One more piece adds its stripped form when that is not empty. */
  lemma NonEmptyStrippedSnoc(pieces: seq<string>)
    requires pieces != []
    ensures var p := pieces[|pieces| - 1];
      NonEmptyStripped(pieces)
      == NonEmptyStripped(pieces[..|pieces| - 1]) + if Strip(p) != [] then [Strip(p)] else []
  {
  }

  /** Stripping a piece free of line breaks leaves it free of them. */
  lemma NoBreakAfterStrip(p: string)
    requires '\n' !in p
    ensures '\n' !in Strip(p)
  {
    StripEnds(p);
    var l := |p| - |StripLeft(p)|;
    forall k | 0 <= k < |Strip(p)| ensures Strip(p)[k] != '\n' {
      assert Strip(p)[k] == p[l + k];
    }
  }

  /** Every stripped, non-empty piece is listed, and only those. */
  lemma {:induction false} NonEmptyStrippedExact(pieces: seq<string>, f: string)
    ensures f in NonEmptyStripped(pieces) <==> f != [] && exists k :: 0 <= k < |pieces| && Strip(pieces[k]) == f
    decreases |pieces|
  {
    if pieces != [] {
      var init := pieces[..|pieces| - 1];
      var p := pieces[|pieces| - 1];
      NonEmptyStrippedExact(init, f);
      NonEmptyStrippedSnoc(pieces);
      assert f in NonEmptyStripped(pieces) <==> f in NonEmptyStripped(init) || (Strip(p) != [] && f == Strip(p));
      if exists k :: 0 <= k < |pieces| && Strip(pieces[k]) == f {
        var k :| 0 <= k < |pieces| && Strip(pieces[k]) == f;
        if k < |init| {
          assert Strip(init[k]) == f;
        }
      }
      if exists k :: 0 <= k < |init| && Strip(init[k]) == f {
        var k :| 0 <= k < |init| && Strip(init[k]) == f;
        assert Strip(pieces[k]) == f;
      }
    }
  }

  /** The listing of a set of paths, one per line, names exactly those
      paths. */
  lemma ListingRoundTrip(paths: seq<string>)
    requires |paths| > 0
    requires forall k :: 0 <= k < |paths| ==> Trimmed(paths[k]) && '\n' !in paths[k]
    ensures ListedFiles(Join(paths, "\n")) == paths
  {
    var s := Join(paths, "\n");
    JoinTrimmed(paths);
    StripTrimmed(s);
    SplitJoin(paths, '\n');
    KeepsTrimmed(paths);
  }

  /** Joining trimmed pieces gives a trimmed string. */
  lemma {:induction false} JoinTrimmed(paths: seq<string>)
    requires |paths| > 0
    requires forall k :: 0 <= k < |paths| ==> Trimmed(paths[k])
    ensures Trimmed(Join(paths, "\n"))
    decreases |paths|
  {
    if |paths| > 1 {
      assert Trimmed(paths[0]);
      JoinTrimmed(paths[1..]);
      var rest := Join(paths[1..], "\n");
      var s := Join(paths, "\n");
      assert s == paths[0] + "\n" + rest;
      assert s[0] == paths[0][0];
      assert s[|s| - 1] == rest[|rest| - 1];
    }
  }

  /** Trimmed non-empty pieces pass through unchanged. */
  lemma {:induction false} KeepsTrimmed(paths: seq<string>)
    requires forall k :: 0 <= k < |paths| ==> Trimmed(paths[k])
    ensures NonEmptyStripped(paths) == paths
    decreases |paths|
  {
    if paths != [] {
      var init := paths[..|paths| - 1];
      assert forall k :: 0 <= k < |init| ==> init[k] == paths[k];
      KeepsTrimmed(init);
      StripTrimmed(paths[|paths| - 1]);
      NonEmptyStrippedSnoc(paths);
      assert init + [paths[|paths| - 1]] == paths;
    }
  }

  /** The messages the pull loop posts for one file: the announcement,
      then the success message naming the local copy, or the error. A path
      in `pullErrors` fails with that message. */
  function FilePair(path: string, localDir: string, pullErrors: map<string, string>): (pair: seq<Post>)
    ensures |pair| == 2
  {
    [Post("Pulling file " + path + "...", false)]
    + if path in pullErrors then [Post("Failed to pull " + path + ": " + pullErrors[path], true)]
      else [Post("File pulled successfully to " + PathJoin(localDir, Basename(path)), false)]
  }

  /** The messages of the pull loop over `files`, in order. */
  function FilePosts(files: seq<string>, localDir: string, pullErrors: map<string, string>): (posts: seq<Post>)
    ensures |posts| == 2 * |files|
  {
    if files == [] then []
    else
      var n := |files| - 1;
      FilePosts(files[..n], localDir, pullErrors) + FilePair(files[n], localDir, pullErrors)
  }

  /** The messages for the first `i + 1` files are those for the first `i`,
      then the pair of the `i`-th. */
  lemma FilePostsPrefix(files: seq<string>, localDir: string, pullErrors: map<string, string>, i: nat)
    requires i < |files|
    ensures FilePosts(files[..i + 1], localDir, pullErrors)
         == FilePosts(files[..i], localDir, pullErrors) + FilePair(files[i], localDir, pullErrors)
  {
    assert files[..i + 1][..i] == files[..i];
  }

  // ---- The SSH client (`create_ssh_client`) ----

  /** The credential fields that must be present and non-empty. */
  const SshRequired: seq<string> := ["host", "username", "password"]

  /** What `create_ssh_client` ends in: no client because the credentials
      are absent or incomplete (reported on the console only), no client
      because connecting raised (reported as a status message), or a
      connected client. */
  datatype SshOutcome = Unconfigured | ConnectFailed(error: string) | Connected

  predicate CredentialsComplete(credentials: map<string, string>) {
    forall f :: f in SshRequired ==> f in credentials && credentials[f] != ""
  }

  /** `create_ssh_client`: `connectError` is the text of the exception that
      reading the port or connecting raises, if any. */
  function CreateSshClient(credentials: Option<map<string, string>>, connectError: Option<string>): (r: SshOutcome)
    ensures r.Connected? <==> credentials.Some? && CredentialsComplete(credentials.value) && connectError.None?
    ensures r.Unconfigured? <==> credentials.None? || !CredentialsComplete(credentials.value)
    ensures r.ConnectFailed? ==> connectError == Some(r.error)
  {
    if credentials.None? then Unconfigured
    else if credentials.value == map[] then
      assert SshRequired[0] !in credentials.value;
      Unconfigured
    else if exists f :: f in SshRequired && (f !in credentials.value || credentials.value[f] == "") then Unconfigured
    else if connectError.Some? then ConnectFailed(connectError.value)
    else Connected
  }

  /** The status messages `create_ssh_client` posts: one error when
      connecting raised, none otherwise. */
  function SshPosts(outcome: SshOutcome): (posts: seq<Post>)
    ensures |posts| <= 1
    ensures posts != [] <==> outcome.ConnectFailed?
    ensures forall k :: 0 <= k < |posts| ==> posts[k].isError
  {
    match outcome
    case ConnectFailed(e) => [Post("Failed to establish SSH connection: " + e, true)]
    case _ => []
  }

  /** What a pull of the files matching a pattern meets: the listing
      command, the stored credentials and what connecting raises, and which
      files fail to copy (with the message). */
  datatype PullEnv = PullEnv(listing: RemoteResult, credentials: Option<map<string, string>>,
                             connectError: Option<string>, pullErrors: map<string, string>)

  function PullSsh(env: PullEnv): SshOutcome {
    CreateSshClient(env.credentials, env.connectError)
  }

  /** `pull_files_by_pattern` succeeds once it has listed at least one file
      and connected, whatever happens to the single copies. */
  predicate PullSucceeds(env: PullEnv) {
    env.listing.statusCode == 0 && ListedFiles(env.listing.stdout) != [] && PullSsh(env).Connected?
  }

  /** The messages of `pull_files_by_pattern`. */
  function PullPatternPosts(pattern: string, localDir: string, env: PullEnv): seq<Post> {
    if env.listing.statusCode != 0 then [Post("Failed to list files matching pattern", true)]
    else if ListedFiles(env.listing.stdout) == [] then [Post("No files found matching pattern: " + pattern, true)]
    else if !PullSsh(env).Connected? then SshPosts(PullSsh(env))
    else FilePosts(ListedFiles(env.listing.stdout), localDir, env.pullErrors)
  }

  /** A pull that fails posts exactly one error, except when the credentials
      are absent or incomplete: then it posts nothing. */
  lemma PullFailureReported(pattern: string, localDir: string, env: PullEnv)
    requires !PullSucceeds(env)
    ensures |PullPatternPosts(pattern, localDir, env)| <= 1
    ensures PullPatternPosts(pattern, localDir, env) == []
            <==> env.listing.statusCode == 0 && ListedFiles(env.listing.stdout) != [] && PullSsh(env).Unconfigured?
    ensures PullPatternPosts(pattern, localDir, env) != [] ==> PullPatternPosts(pattern, localDir, env)[0].isError
  {
    var posts := PullPatternPosts(pattern, localDir, env);
    if env.listing.statusCode != 0 || ListedFiles(env.listing.stdout) == [] {
      assert |posts| == 1 && posts[0].isError;
    } else {
      assert !PullSsh(env).Connected?;
      assert posts == SshPosts(PullSsh(env));
    }
  }

  /** Each listed file gets its announcement and then an error exactly when
      its copy failed. */
  lemma FilePostsAt(files: seq<string>, localDir: string, pullErrors: map<string, string>, i: nat)
    requires i < |files|
    ensures FilePosts(files, localDir, pullErrors)[2 * i] == Post("Pulling file " + files[i] + "...", false)
    ensures FilePosts(files, localDir, pullErrors)[2 * i + 1].isError <==> files[i] in pullErrors
  {
    FilePostsPair(files, localDir, pullErrors, i);
    FilePairAt(files[i], localDir, pullErrors);
  }

  /** The messages at `2 * i` and `2 * i + 1` are the pair of the `i`-th file. */
  lemma {:induction false} FilePostsPair(files: seq<string>, localDir: string, pullErrors: map<string, string>, i: nat)
    requires i < |files|
    ensures FilePosts(files, localDir, pullErrors)[2 * i] == FilePair(files[i], localDir, pullErrors)[0]
    ensures FilePosts(files, localDir, pullErrors)[2 * i + 1] == FilePair(files[i], localDir, pullErrors)[1]
    decreases |files|
  {
    var n := |files| - 1;
    var init := FilePosts(files[..n], localDir, pullErrors);
    var pair := FilePair(files[n], localDir, pullErrors);
    assert FilePosts(files, localDir, pullErrors) == init + pair;
    if i < n {
      FilePostsPair(files[..n], localDir, pullErrors, i);
      assert files[..n][i] == files[i];
      IndexBeforeAppend(init, pair, 2 * i);
      IndexBeforeAppend(init, pair, 2 * i + 1);
    } else {
      assert i == n && |init| == 2 * n;
      IndexPastAppend(init, pair, 0);
      IndexPastAppend(init, pair, 1);
    }
  }

  lemma FilePairAt(path: string, localDir: string, pullErrors: map<string, string>)
    ensures |FilePair(path, localDir, pullErrors)| == 2
    ensures FilePair(path, localDir, pullErrors)[0] == Post("Pulling file " + path + "...", false)
    ensures FilePair(path, localDir, pullErrors)[1].isError <==> path in pullErrors
  {
  }
}

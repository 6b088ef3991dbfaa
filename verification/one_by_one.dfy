/** `test_one_by_one.py`: generating one spec per artifact listed in a text
    file, and naming and building the collector for a spec. */
module OneByOne {
  import opened Text
  import opened Wrappers
  import opened Paths
  import opened Template

  /** The artifact list: the stripped lines of the artifacts file that are
      not blank, in file order. */
  function ArtifactList(lines: seq<string>): (names: seq<string>)
    ensures |names| <= |lines|
    ensures forall k :: 0 <= k < |names| ==> names[k] != [] && Strip(names[k]) == names[k]
  {
    if lines == [] then []
    else
      var rest := ArtifactList(lines[1..]);
      StripIdempotent(lines[0]);
      if Strip(lines[0]) != [] then [Strip(lines[0])] + rest else rest
  }

  /** A name is listed exactly when it is the non-empty strip of some line. */
  lemma {:induction false} ArtifactListMembers(lines: seq<string>, x: string)
    ensures x in ArtifactList(lines) <==> x != [] && exists i :: 0 <= i < |lines| && Strip(lines[i]) == x
  {
    if lines != [] {
      ArtifactListMembers(lines[1..], x);
      if x in ArtifactList(lines[1..]) {
        var i :| 0 <= i < |lines| - 1 && Strip(lines[1..][i]) == x;
        assert Strip(lines[i + 1]) == x;
      }
      if x != [] && exists i :: 0 <= i < |lines| && Strip(lines[i]) == x {
        var i :| 0 <= i < |lines| && Strip(lines[i]) == x;
        if i > 0 {
          assert Strip(lines[1..][i - 1]) == x;
        }
      }
    }
  }

  /** The lines of a file that lists `names`, one per line. */
  function Terminated(names: seq<string>): seq<string> {
    if names == [] then [] else [names[0] + "\n"] + Terminated(names[1..])
  }

  /** Reading back a file that lists trimmed, non-empty names one per line
      gives the names, in order. */
  lemma {:induction false} ArtifactListOfListing(names: seq<string>)
    requires forall k :: 0 <= k < |names| ==> Trimmed(names[k])
    ensures ArtifactList(Terminated(names)) == names
  {
    if names != [] {
      var t := Terminated(names);
      assert t[1..] == Terminated(names[1..]);
      ArtifactListOfListing(names[1..]);
      assert t[0] == names[0] + ['\n'];
      StripTerminated(names[0], '\n');
    }
  }

  /** A spec written by the generator: its lines and the encoding asked of
      `open` (None: the platform default). */
  datatype WrittenSpec = WrittenSpec(lines: seq<string>, encoding: Option<Encoding>)

  /** The spec for one artifact between a header and a footer. */
  function SingleSpec(header: seq<string>, artifact: string, footer: seq<string>): seq<string> {
    header + ArtifactBlocks([artifact]) + ClientInfoBlock + footer
  }

  /** What the file system answers during `generate_all_specs`: whether the
      output directory is ready, whether the two input files exist, what
      reading each under an encoding gives, and whether the spec for the
      artifact at each position can be written. */
  datatype GenEnv = GenEnv(
    outputDirReady: bool,
    templateExists: bool,
    artifactsExists: bool,
    decodeTemplate: Encoding -> Decoding,
    decodeArtifacts: Encoding -> Decoding,
    writeOk: nat -> bool)

  /** The template's header and footer and the artifacts to process. */
  datatype Plan = Plan(header: seq<string>, footer: seq<string>, artifacts: seq<string>)

  /** What `generate_all_specs` sets out to write, or None when it gives up
      before writing: the output directory cannot be made, an input file is
      missing or unreadable or empty, a marker is missing, or the list has no
      artifacts. */
  function GenerationPlan(env: GenEnv): Option<Plan> {
    if !env.outputDirReady || !env.templateExists || !env.artifactsExists then None
    else
      var t := ReadWithFallback(env.decodeTemplate);
      if !t.Read? || t.lines == [] then None
      else
        var (s, e) := Markers(t.lines);
        if s == -1 || e == -1 then None
        else
          var a := ReadWithFallback(env.decodeArtifacts);
          if !a.Read? || a.lines == [] then None
          else
            var names := ArtifactList(a.lines);
            if names == [] then None
            else
              MarkersOrdered(t.lines);
              Some(Plan(t.lines[..s + 2], t.lines[e..], names))
  }

  /** `template_encoding` after `generate_all_specs`: what reading the
      template reported, if reading was attempted and did not raise. */
  function EncodingAfter(env: GenEnv, before: Option<Encoding>): Option<Encoding> {
    var t := ReadWithFallback(env.decodeTemplate);
    if env.outputDirReady && env.templateExists && env.artifactsExists && !t.Raised? then ReportedEncoding(t)
    else before
  }

  /** How many of the first `n` writes succeed. */
  function CountWrites(writeOk: nat -> bool, n: nat): (c: nat)
    ensures c <= n
  {
    if n == 0 then 0 else CountWrites(writeOk, n - 1) + (if writeOk(n - 1) then 1 else 0)
  }

  /** Every artifact is written exactly when the count reaches the number
      of artifacts. */
  lemma {:induction false} CountWritesAll(writeOk: nat -> bool, n: nat)
    ensures CountWrites(writeOk, n) == n <==> forall i :: 0 <= i < n ==> writeOk(i)
  {
    if n > 0 {
      CountWritesAll(writeOk, n - 1);
    }
  }

  /** The spec path for an artifact. */
  function SpecPath(dir: string, artifact: string): string {
    PathJoin(dir, SpecFilename(artifact))
  }

  /** The files after the first `n` artifacts of the plan were attempted. */
  function WriteSpecs(files: map<string, WrittenSpec>, dir: string, plan: Plan, enc: Option<Encoding>,
                      writeOk: nat -> bool, n: nat): map<string, WrittenSpec>
    requires n <= |plan.artifacts|
  {
    if n == 0 then files
    else
      var f := WriteSpecs(files, dir, plan, enc, writeOk, n - 1);
      var a := plan.artifacts[n - 1];
      if writeOk(n - 1) then f[SpecPath(dir, a) := WrittenSpec(SingleSpec(plan.header, a, plan.footer), enc)] else f
  }

  /** Whether `p` holds the spec of the `i`-th artifact. */
  predicate WrittenFrom(files: map<string, WrittenSpec>, dir: string, plan: Plan, enc: Option<Encoding>, i: nat, p: string)
    requires i < |plan.artifacts|
  {
    p == SpecPath(dir, plan.artifacts[i]) && p in files
    && files[p] == WrittenSpec(SingleSpec(plan.header, plan.artifacts[i], plan.footer), enc)
  }

  /** After the run, every artifact whose write succeeded has a spec file. */
  lemma {:induction false} WriteSpecsCovers(files: map<string, WrittenSpec>, dir: string, plan: Plan,
                                            enc: Option<Encoding>, writeOk: nat -> bool, n: nat)
    requires n <= |plan.artifacts|
    ensures forall i :: 0 <= i < n && writeOk(i) ==> SpecPath(dir, plan.artifacts[i]) in WriteSpecs(files, dir, plan, enc, writeOk, n)
  {
    if n > 0 {
      WriteSpecsCovers(files, dir, plan, enc, writeOk, n - 1);
    }
  }

  /** After the run, every file that was not there before holds the spec
      of an artifact whose write succeeded (the last such artifact, when two
      share a file name). */
  lemma {:induction false} WriteSpecsOrigin(files: map<string, WrittenSpec>, dir: string, plan: Plan,
                                            enc: Option<Encoding>, writeOk: nat -> bool, n: nat, p: string)
    requires n <= |plan.artifacts|
    requires p in WriteSpecs(files, dir, plan, enc, writeOk, n)
    ensures p in files || exists i :: 0 <= i < n && writeOk(i) && WrittenFrom(WriteSpecs(files, dir, plan, enc, writeOk, n), dir, plan, enc, i, p)
  {
    if n > 0 && p !in files {
      var r := WriteSpecs(files, dir, plan, enc, writeOk, n);
      var f := WriteSpecs(files, dir, plan, enc, writeOk, n - 1);
      if writeOk(n - 1) && p == SpecPath(dir, plan.artifacts[n - 1]) {
        assert WrittenFrom(r, dir, plan, enc, n - 1, p);
      } else {
        assert p in f && r[p] == f[p];
        WriteSpecsOrigin(files, dir, plan, enc, writeOk, n - 1, p);
        OriginCarried(f, r, dir, plan, enc, writeOk, n, p);
      }
    }
  }

  /** A file that keeps its content keeps the artifact it came from. */
  lemma OriginCarried(f: map<string, WrittenSpec>, r: map<string, WrittenSpec>, dir: string, plan: Plan,
                      enc: Option<Encoding>, writeOk: nat -> bool, n: nat, p: string)
    requires 0 < n <= |plan.artifacts|
    requires p in f && p in r && r[p] == f[p]
    requires exists i :: 0 <= i < n - 1 && writeOk(i) && WrittenFrom(f, dir, plan, enc, i, p)
    ensures exists i :: 0 <= i < n && writeOk(i) && WrittenFrom(r, dir, plan, enc, i, p)
  {
    var i :| 0 <= i < n - 1 && writeOk(i) && WrittenFrom(f, dir, plan, enc, i, p);
    assert WrittenFrom(r, dir, plan, enc, i, p);
  }

  class SpecFileGenerator {
    const outputDir: string
    /** `template_encoding`: the encoding the template was last read with. */
    var templateEncoding: Option<Encoding>
    /** The spec files this generator has written, by path. */
    var files: map<string, WrittenSpec>

    constructor (outputDir: string)
      ensures this.outputDir == outputDir
      ensures templateEncoding == None && files == map[]
    {
      this.outputDir := outputDir;
      templateEncoding := None;
      files := map[];
    }

    /** `create_spec_file`: writes the spec for one artifact in the
        template's encoding and returns its path, or `""` when the write
        fails. */
    method CreateSpecFile(artifact: string, header: seq<string>, footer: seq<string>, writeOk: bool)
      returns (path: string)
      modifies this
      ensures path == (if writeOk then SpecPath(outputDir, artifact) else "")
      ensures files == (if writeOk then old(files)[path := WrittenSpec(SingleSpec(header, artifact, footer), templateEncoding)] else old(files))
      ensures templateEncoding == old(templateEncoding)
    {
      var content := BuildSpecContent(header, [artifact], footer);
      var p := SpecPath(outputDir, artifact);
      if !writeOk {
        return "";
      }
      files := files[p := WrittenSpec(content, templateEncoding)];
      return p;
    }

    /** `generate_all_specs`: reads the template and the artifact list,
        then creates one spec per listed artifact, counting the successes. */
    method GenerateAllSpecs(env: GenEnv) returns (created: nat)
      modifies this
      ensures templateEncoding == EncodingAfter(env, old(templateEncoding))
      ensures GenerationPlan(env).None? ==> created == 0 && files == old(files)
      ensures GenerationPlan(env).Some? ==>
        var plan := GenerationPlan(env).value;
        && created == CountWrites(env.writeOk, |plan.artifacts|)
        && files == WriteSpecs(old(files), outputDir, plan, templateEncoding, env.writeOk, |plan.artifacts|)
    {
      if !env.outputDirReady || !env.templateExists || !env.artifactsExists {
        return 0;
      }
      var t := TryReadFile(env.decodeTemplate);
      if t.Raised? {
        return 0;
      }
      templateEncoding := ReportedEncoding(t);
      if !t.Read? || t.lines == [] {
        return 0;
      }
      var start, end := FindSectionMarkers(t.lines);
      if start == -1 || end == -1 {
        return 0;
      }
      MarkersOrdered(t.lines);
      var header, footer := t.lines[..start + 2], t.lines[end..];
      var a := TryReadFile(env.decodeArtifacts);
      if !a.Read? || a.lines == [] {
        return 0;
      }
      var artifacts := ArtifactList(a.lines);
      if artifacts == [] {
        return 0;
      }
      assert GenerationPlan(env) == Some(Plan(header, footer, artifacts));
      created := CreateSpecFiles(Plan(header, footer, artifacts), env.writeOk);
    }

    /** The loop of `generate_all_specs`: one `create_spec_file` per
        artifact of the plan, counting the paths it returns. */
    method CreateSpecFiles(plan: Plan, writeOk: nat -> bool) returns (created: nat)
      modifies this
      ensures templateEncoding == old(templateEncoding)
      ensures created == CountWrites(writeOk, |plan.artifacts|)
      ensures files == WriteSpecs(old(files), outputDir, plan, templateEncoding, writeOk, |plan.artifacts|)
    {
      created := 0;
      for i := 0 to |plan.artifacts|
        invariant created == CountWrites(writeOk, i)
        invariant files == WriteSpecs(old(files), outputDir, plan, templateEncoding, writeOk, i)
        invariant templateEncoding == old(templateEncoding)
      {
        var p := CreateSpecFile(plan.artifacts[i], plan.header, plan.footer, writeOk(i));
        if p != "" {
          created := created + 1;
        }
      }
    }
  }

  /** The collector `create_collector` promises for a spec: `<stem>_collector.exe`
      in the collectors directory, where the stem is the spec's base name
      without its extension. */
  function CollectorPath(collectorsDir: string, specPath: string): (p: string)
    ensures p != ""
  {
    PathJoin(collectorsDir, Stem(Basename(specPath)) + "_collector.exe")
  }

  /** The build command `create_collector` hands to the shell. */
  function CollectorCommand(velociraptorPath: string, serverConfig: string, specPath: string): string {
    velociraptorPath + " --config " + serverConfig + " collector " + specPath
  }

  /** `create_collector`: runs the build command through `system` (the
      shell, which answers with an exit status) and returns the collector
      path on status 0, otherwise `""`; a collectors directory that cannot
      be created also gives `""`. */
  method CreateCollector(velociraptorPath: string, serverConfig: string, collectorsDir: string,
                         specPath: string, collectorsDirReady: bool, system: string -> int)
    returns (path: string)
    ensures path != "" <==> collectorsDirReady && system(CollectorCommand(velociraptorPath, serverConfig, specPath)) == 0
    ensures path != "" ==> path == CollectorPath(collectorsDir, specPath)
  {
    if !collectorsDirReady {
      return "";
    }
    var status := system(CollectorCommand(velociraptorPath, serverConfig, specPath));
    if status == 0 {
      return CollectorPath(collectorsDir, specPath);
    }
    return "";
  }

  /** The collector built from a generated spec is named after the
      artifact: `single_artifact_spec_<name with . as _>_collector.exe`. */
  lemma CollectorForGeneratedSpec(collectorsDir: string, outputDir: string, artifact: string)
    requires Sep !in artifact
    ensures CollectorPath(collectorsDir, SpecPath(outputDir, artifact))
      == PathJoin(collectorsDir, SpecPrefix + ReplaceAll(artifact, ".", "_") + "_collector.exe")
  {
    SpecFilenamePlain(artifact);
    BasenameOfJoin(outputDir, SpecFilename(artifact));
    SpecFilenameStem(artifact);
  }

  /** A spec file name holds no separator when the artifact name holds none. */
  lemma SpecFilenamePlain(artifact: string)
    requires Sep !in artifact
    ensures Sep !in SpecFilename(artifact)
  {
    var clean := ReplaceAll(artifact, ".", "_");
    ReplaceAllKeepsOut(artifact, ".", "_", Sep);
    var f := SpecFilename(artifact);
    assert f == SpecPrefix + clean + ".yaml";
    forall k | 0 <= k < |f| ensures f[k] != Sep {
      if k < |SpecPrefix| {
        assert f[k] == SpecPrefix[k];
      } else if k < |SpecPrefix| + |clean| {
        assert f[k] == clean[k - |SpecPrefix|];
      } else {
        assert f[k] == ".yaml"[k - |SpecPrefix| - |clean|];
      }
    }
  }

  /** The stem of a spec file name drops just the `.yaml` extension. */
  lemma SpecFilenameStem(artifact: string)
    ensures Stem(SpecFilename(artifact)) == SpecPrefix + ReplaceAll(artifact, ".", "_")
  {
    var base := SpecPrefix + ReplaceAll(artifact, ".", "_");
    SpecFilenameDots(artifact);
    assert SpecFilename(artifact) == base + ['.'] + "yaml";
    assert base[0] == 's';
    StemOfExtension(base, "yaml");
  }
}

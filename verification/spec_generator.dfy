/** `SpecFileGenerator` of `collector_manager.py`: writes a single-artifact
    spec or a combined spec next to each other in the output directory,
    remembering the encoding the template was last read with. */
module SpecGenerator {
  import opened Wrappers
  import opened Paths
  import opened Template

  /** What the file system answers during one call: whether the output
      directory exists or could be created, what reading the template under
      each encoding gives, and whether the spec file can be written. */
  datatype SpecEnv = SpecEnv(outputDirReady: bool, decode: Encoding -> Decoding, writeOk: bool)

  /** A written spec: its lines and the encoding they were written in. */
  datatype SpecFile = SpecFile(lines: seq<string>, encoding: Encoding)

  class SpecFileGenerator {
    const outputDir: string
    /** The encoding the template was last read with (`template_encoding`). */
    var templateEncoding: Option<Encoding>
    /** The spec files this generator has written, by path. */
    var files: map<string, SpecFile>

    constructor (outputDir: string)
      ensures this.outputDir == outputDir
      ensures templateEncoding == None && files == map[]
    {
      this.outputDir := outputDir;
      templateEncoding := None;
      files := map[];
    }

    /** `create_spec_file`: the spec for one artifact, named after it. */
    method CreateSpecFile(artifact: string, env: SpecEnv) returns (path: Option<string>)
      modifies this
      ensures var read := ReadWithFallback(env.decode);
        var spec := SpecFromTemplate(read, [artifact]);
        && (path.Some? <==> env.outputDirReady && spec.Some? && env.writeOk)
        && (path.Some? ==>
              path.value == PathJoin(outputDir, SpecFilename(artifact))
              && files == old(files)[path.value := SpecFile(spec.value, read.encoding)])
        && (path.None? ==> files == old(files))
        && templateEncoding == (if env.outputDirReady && !read.Raised? then ReportedEncoding(read) else old(templateEncoding))
    {
      path := CreateSpec([artifact], SpecFilename(artifact), env);
    }

    /** `create_combined_spec_file`: one spec enabling every artifact, in
        order, named `<specName>.yaml`. */
    method CreateCombinedSpecFile(artifacts: seq<string>, specName: string, env: SpecEnv) returns (path: Option<string>)
      modifies this
      ensures var read := ReadWithFallback(env.decode);
        var spec := SpecFromTemplate(read, artifacts);
        && (path.Some? <==> env.outputDirReady && spec.Some? && env.writeOk)
        && (path.Some? ==>
              path.value == PathJoin(outputDir, specName + ".yaml")
              && files == old(files)[path.value := SpecFile(spec.value, read.encoding)])
        && (path.None? ==> files == old(files))
        && templateEncoding == (if env.outputDirReady && !read.Raised? then ReportedEncoding(read) else old(templateEncoding))
    {
      path := CreateSpec(artifacts, specName + ".yaml", env);
    }

    /** The steps both builders share: make sure the output directory
        exists, read the template (recording its encoding), find the
        markers, splice the spec and write it under `filename`. Any failure
        gives None and writes nothing. */
    method CreateSpec(artifacts: seq<string>, filename: string, env: SpecEnv) returns (path: Option<string>)
      modifies this
      ensures var read := ReadWithFallback(env.decode);
        var spec := SpecFromTemplate(read, artifacts);
        && (path.Some? <==> env.outputDirReady && spec.Some? && env.writeOk)
        && (path.Some? ==>
              path.value == PathJoin(outputDir, filename)
              && files == old(files)[path.value := SpecFile(spec.value, read.encoding)])
        && (path.None? ==> files == old(files))
        && templateEncoding == (if env.outputDirReady && !read.Raised? then ReportedEncoding(read) else old(templateEncoding))
    {
      if !env.outputDirReady {
        return None;
      }
      var read := TryReadFile(env.decode);
      if read.Raised? {
        return None;
      }
      templateEncoding := ReportedEncoding(read);
      if !read.Read? || read.lines == [] {
        return None;
      }
      var start, end := FindSectionMarkers(read.lines);
      if start == -1 || end == -1 {
        return None;
      }
      MarkersOrdered(read.lines);
      var content := BuildSpecContent(read.lines[..start + 2], artifacts, read.lines[end..]);
      assert SpecFromTemplate(read, artifacts) == Some(content);
      var p := PathJoin(outputDir, filename);
      if !env.writeOk {
        return None;
      }
      files := files[p := SpecFile(content, templateEncoding.value)];
      return Some(p);
    }
  }
}

/** `check_process_single_zip`: after processing, every record of every
    result file must carry the right source type and every required key
    with a non-empty value. The check only reads the files. */
module Validation {
  import opened Json
  import opened Wrappers
  import opened Names
  import opened SystemInfo
  import opened Enrichment

  const RequiredKeys: set<string> := {SourceTypeKey} + TargetKeys

  datatype IssueKind =
    | WrongSourceType(actual: Option<Json>)
    | MissingKeys(keys: set<string>)
    | EmptyValues(keys: set<string>)
    | InvalidJson
    | FileError

  /** A reported problem: the file, the 1-based number of the line among
      the file's non-blank lines (0 for the file as a whole), and what is
      wrong. */
  datatype Issue = Issue(file: string, line: nat, kind: IssueKind)

  /** Required keys the record lacks. */
  function Missing(r: Record): (m: set<string>)
    ensures forall k :: k in m <==> k in RequiredKeys && k !in r
  {
    RequiredKeys - r.Keys
  }

  /** A value the check counts as empty: null or the empty string. */
  predicate IsEmptyValue(v: Json) {
    v == JNull || v == JString("")
  }

  /** Required keys present with an empty value. */
  function Empty(r: Record): (e: set<string>)
    ensures forall k :: k in e <==> k in RequiredKeys && k in r && IsEmptyValue(r[k])
  {
    set k | k in RequiredKeys && k in r && IsEmptyValue(r[k])
  }

  /** The issues of one record, in the order they are reported. */
  function RecordIssues(file: string, n: nat, r: Record): seq<Issue> {
    var actual := if SourceTypeKey in r then Some(r[SourceTypeKey]) else None;
    (if actual != Some(JString(SourceType(file))) then [Issue(file, n, WrongSourceType(actual))] else [])
    + (if Missing(r) != {} then [Issue(file, n, MissingKeys(Missing(r)))] else [])
    + (if Empty(r) != {} then [Issue(file, n, EmptyValues(Empty(r)))] else [])
  }

  /** A record raises no issue exactly when it carries the file's source
      type and every required key with a non-empty value. */
  lemma RecordIssuesNone(file: string, n: nat, r: Record)
    ensures RecordIssues(file, n, r) == [] <==>
      SourceTypeKey in r && r[SourceTypeKey] == JString(SourceType(file))
      && (forall k :: k in RequiredKeys ==> k in r && !IsEmptyValue(r[k]))
  {
    if Missing(r) == {} && Empty(r) == {} {
      forall k | k in RequiredKeys ensures k in r && !IsEmptyValue(r[k]) {
        assert k !in Missing(r);
        assert k !in Empty(r);
      }
    }
  }

  /** The issues of the lines of a file from line number `n` on: a record's
      issues, one for text that is not JSON, and, for a line that is JSON
      but not an object, one issue for the file after which the rest of the
      file is not looked at. */
  function LinesIssues(file: string, lines: seq<Line>, n: nat): seq<Issue>
    decreases |lines|
  {
    if lines == [] then []
    else
      match lines[0]
      case Blank => LinesIssues(file, lines[1..], n)
      case Object(r) => RecordIssues(file, n, r) + LinesIssues(file, lines[1..], n + 1)
      case Invalid(_) => [Issue(file, n, InvalidJson)] + LinesIssues(file, lines[1..], n + 1)
      case NonObject(_) => [Issue(file, 0, FileError)]
  }

  function FileIssues(f: JsonFile): seq<Issue> {
    if !IsResultName(f.name) then []
    else if f.content.Unreadable? then [Issue(f.name, 0, FileError)]
    else LinesIssues(f.name, f.content.lines, 1)
  }

  function AllIssues(files: seq<JsonFile>): seq<Issue> {
    if files == [] then [] else FileIssues(files[0]) + AllIssues(files[1..])
  }

  /** A line the check passes: blank, or a record with the file's source
      type and every required key non-empty. */
  predicate GoodLine(file: string, line: Line) {
    line.Blank? || (line.Object? && RecordIssues(file, 0, line.record) == [])
  }

  /** A file's lines raise no issue exactly when every line is good. */
  lemma {:induction false} LinesIssuesNone(file: string, lines: seq<Line>, n: nat)
    ensures LinesIssues(file, lines, n) == [] <==> forall i :: 0 <= i < |lines| ==> GoodLine(file, lines[i])
    decreases |lines|
  {
    if lines != [] {
      LinesIssuesNone(file, lines[1..], if lines[0].Blank? then n else n + 1);
      assert forall i :: 0 < i < |lines| ==> lines[i] == lines[1..][i - 1];
      if lines[0].Object? {
        RecordIssuesNone(file, n, lines[0].record);
        RecordIssuesNone(file, 0, lines[0].record);
      }
    }
  }

  lemma {:induction false} AllIssuesNone(files: seq<JsonFile>)
    ensures AllIssues(files) == [] <==> forall i :: 0 <= i < |files| ==> FileIssues(files[i]) == []
  {
    if files != [] {
      AllIssuesNone(files[1..]);
      assert forall i :: 0 < i < |files| ==> files[i] == files[1..][i - 1];
    }
  }

  /** `check_process_single_zip` over the files of the `results` directory:
      false without that directory; otherwise the issues of every result
      file, in order, and true exactly when there are none. */
  method CheckProcessSingleZip(resultsDirExists: bool, files: seq<JsonFile>) returns (ok: bool, issues: seq<Issue>)
    ensures !resultsDirExists ==> !ok && issues == []
    ensures resultsDirExists ==> issues == AllIssues(files) && (ok <==> issues == [])
  {
    issues := [];
    if !resultsDirExists {
      return false, issues;
    }
    var issuesFound := false;
    for i := 0 to |files|
      invariant issues + AllIssues(files[i..]) == AllIssues(files)
      invariant issuesFound <==> issues != []
    {
      var f := files[i];
      ConsOfSuffix(files, i);
      assert AllIssues(files[i..]) == FileIssues(f) + AllIssues(files[i + 1..]);
      var found := CheckFile(f);
      AppendAssoc(issues, found, AllIssues(files[i + 1..]));
      issues := issues + found;
      issuesFound := issuesFound || found != [];
    }
    assert files[|files|..] == [];
    return !issuesFound, issues;
  }

  /** The check of one file: skipped unless it is a result file, one issue
      when it cannot be read, otherwise its lines' issues. */
  method CheckFile(f: JsonFile) returns (found: seq<Issue>)
    ensures found == FileIssues(f)
  {
    found := [];
    if IsResultName(f.name) {
      if f.content.Unreadable? {
        found := [Issue(f.name, 0, FileError)];
      } else {
        found := CheckLines(f.name, f.content.lines);
      }
    }
  }

  /** The line loop of the check for one file. */
  method CheckLines(file: string, lines: seq<Line>) returns (issues: seq<Issue>)
    ensures issues == LinesIssues(file, lines, 1)
  {
    issues := [];
    var n := 1;
    var i := 0;
    while i < |lines|
      invariant 0 <= i <= |lines| && n >= 1
      invariant issues + LinesIssues(file, lines[i..], n) == LinesIssues(file, lines, 1)
    {
      var line := lines[i];
      ConsOfSuffix(lines, i);
      ghost var rest := lines[i + 1..];
      match line {
        case Blank =>
          assert LinesIssues(file, lines[i..], n) == LinesIssues(file, rest, n);
        case Object(r) =>
          assert LinesIssues(file, lines[i..], n) == RecordIssues(file, n, r) + LinesIssues(file, rest, n + 1);
          AppendAssoc(issues, RecordIssues(file, n, r), LinesIssues(file, rest, n + 1));
          issues := issues + RecordIssues(file, n, r);
          n := n + 1;
        case Invalid(_) =>
          assert LinesIssues(file, lines[i..], n) == [Issue(file, n, InvalidJson)] + LinesIssues(file, rest, n + 1);
          AppendAssoc(issues, [Issue(file, n, InvalidJson)], LinesIssues(file, rest, n + 1));
          issues := issues + [Issue(file, n, InvalidJson)];
          n := n + 1;
        case NonObject(_) =>
          issues := issues + [Issue(file, 0, FileError)];
          assert LinesIssues(file, lines[i..], n) == [Issue(file, 0, FileError)];
          return;
      }
      i := i + 1;
    }
  }

  lemma {:induction false} NoInvalids(lines: seq<Line>)
    ensures Invalids(lines) == [] <==> forall i :: 0 <= i < |lines| ==> !lines[i].Invalid?
  {
    if lines != [] {
      NoInvalids(lines[1..]);
      assert forall i :: 0 < i < |lines| ==> lines[i] == lines[1..][i - 1];
    }
  }

  /** Helper: the source-type key is not one of the system-information keys. */
  lemma SourceTypeNotTarget()
    ensures SourceTypeKey !in TargetKeys
  {
    assert SourceTypeKey[0] == 's';
    assert forall k :: k in TargetKeys ==> k[0] != 's';
  }

  /** A record carrying the file's non-empty source type and non-empty
      values for every wanted key passes. */
  lemma StampedRecordGood(file: string, r: Record, info: Record)
    requires SourceType(file) != []
    requires info.Keys == TargetKeys && forall k :: k in info ==> !IsEmptyValue(info[k])
    requires SourceTypeKey in r && r[SourceTypeKey] == JString(SourceType(file))
    requires forall k :: k in info ==> k in r && r[k] == info[k]
    ensures GoodLine(file, Object(r))
  {
    RecordIssuesNone(file, 0, r);
  }

  /** What `update_json_with_system_info` writes passes the check, when the
      file held only records, the file's source type is not empty and the
      system information has every wanted key with a non-empty value. */
  lemma EnrichedFileValidates(f: JsonFile, info: Record)
    requires f.content.Lines?
    requires forall i :: 0 <= i < |f.content.lines| ==> f.content.lines[i].Blank? || f.content.lines[i].Object?
    requires SourceType(f.name) != []
    requires info.Keys == TargetKeys && forall k :: k in info ==> !IsEmptyValue(info[k])
    ensures FileIssues(EnrichFile(f, Stamp(true, f.name), info)) == []
  {
    var lines := f.content.lines;
    if IsResultName(f.name) {
      assert !HasNonObject(lines);
      var out := EnrichLines(lines, Stamp(true, f.name), info);
      var written := Rendered(out);
      EnrichedLinesGood(f.name, lines, info, written);
      LinesIssuesNone(f.name, written, 1);
      assert LinesIssues(f.name, written, 1) == [];
      assert EnrichFile(f, Stamp(true, f.name), info) == JsonFile(f.name, Lines(written));
    } else {
      assert EnrichFile(f, Stamp(true, f.name), info) == f;
    }
  }

  /** Helper: every line written for a file that held only records and
      blank lines passes. */
  lemma EnrichedLinesGood(file: string, lines: seq<Line>, info: Record, written: seq<Line>)
    requires forall i :: 0 <= i < |lines| ==> lines[i].Blank? || lines[i].Object?
    requires SourceType(file) != []
    requires info.Keys == TargetKeys && forall k :: k in info ==> !IsEmptyValue(info[k])
    requires written == Rendered(EnrichLines(lines, Stamp(true, file), info))
    ensures forall i :: 0 <= i < |written| ==> GoodLine(file, written[i])
  {
    var out := EnrichLines(lines, Stamp(true, file), info);
    EnrichedRecordsGood(file, lines, info, out);
    if out == [] {
      assert written == [Blank];
    } else {
      assert written == out;
    }
  }

  /** Helper: every enriched line of a file that held only records and
      blank lines is a record that passes. */
  lemma EnrichedRecordsGood(file: string, lines: seq<Line>, info: Record, out: seq<Line>)
    requires forall i :: 0 <= i < |lines| ==> lines[i].Blank? || lines[i].Object?
    requires SourceType(file) != []
    requires info.Keys == TargetKeys && forall k :: k in info ==> !IsEmptyValue(info[k])
    requires out == EnrichLines(lines, Stamp(true, file), info)
    ensures forall i :: 0 <= i < |out| ==> GoodLine(file, out[i])
  {
    NoInvalids(lines);
    NoInvalids(out);
    SourceTypeNotTarget();
    forall i | 0 <= i < |out| ensures GoodLine(file, out[i]) {
      assert out[i].Object?;
      StampedRecordGood(file, out[i].record, info);
    }
  }
}

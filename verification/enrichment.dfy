/** Stamping every record of the newline-delimited result files with the
    host's system information (`update_json_with_system_info` of
    `collector_manager.py`, which also adds the record's source type, and
    `update_json_files` of `process_zip_files.py`, which does not). */
module Enrichment {
  import opened Json
  import opened Wrappers
  import opened Text
  import opened Names

  /** What reading a result file gives: its lines, or a decoding or I/O
      error. */
  datatype Content = Unreadable | Lines(lines: seq<Line>)

  /** A file of the `results` directory. */
  datatype JsonFile = JsonFile(name: string, content: Content)

  const BasicInfoName: string := "Generic.Client.Info.BasicInformation.json"
  const JsonSuffix: string := ".json"
  const SourceTypeKey: string := "source_type"

  /** The files `results_dir.glob('*.json')` yields. */
  predicate IsJsonName(name: string) {
    |JsonSuffix| <= |name| && name[|name| - |JsonSuffix|..] == JsonSuffix
  }

  /** The files an enrichment pass rewrites: `*.json` except BasicInformation. */
  predicate IsResultName(name: string) {
    IsJsonName(name) && name != BasicInfoName
  }

  /** One record after enrichment: the source type set (when the pass adds
      one), then every system-info key merged over it. */
  function EnrichRecord(r: Record, sourceType: Option<string>, info: Record): (e: Record)
    ensures e.Keys == r.Keys + info.Keys + (if sourceType.Some? then {SourceTypeKey} else {})
    ensures forall k :: k in info ==> e[k] == info[k]
    ensures sourceType.Some? && SourceTypeKey !in info ==> e[SourceTypeKey] == JString(sourceType.value)
    ensures forall k :: k in r && k !in info && (sourceType.Some? ==> k != SourceTypeKey) ==> e[k] == r[k]
  {
    (if sourceType.Some? then r[SourceTypeKey := JString(sourceType.value)] else r) + info
  }

  /** Enriching an enriched record changes nothing. */
  lemma EnrichRecordIdempotent(r: Record, sourceType: Option<string>, info: Record)
    ensures EnrichRecord(EnrichRecord(r, sourceType, info), sourceType, info) == EnrichRecord(r, sourceType, info)
  {
    var e := EnrichRecord(r, sourceType, info);
    var e2 := EnrichRecord(e, sourceType, info);
    assert e2.Keys == e.Keys;
    forall k | k in e
      ensures e2[k] == e[k]
    {
    }
  }

  /** Whether some line is JSON but not an object: assigning or merging
      into it raises, and the file is then left as it was. */
  predicate HasNonObject(lines: seq<Line>) {
    exists i :: 0 <= i < |lines| && lines[i].NonObject?
  }

  /** The Invalid lines, in order. */
  function Invalids(lines: seq<Line>): seq<string> {
    if lines == [] then []
    else (if lines[0].Invalid? then [lines[0].text] else []) + Invalids(lines[1..])
  }

  /** The number of non-blank lines. */
  function NonBlankCount(lines: seq<Line>): (n: nat)
    ensures n <= |lines|
  {
    if lines == [] then 0 else (if lines[0].Blank? then 0 else 1) + NonBlankCount(lines[1..])
  }

  /** The updated lines of a file whose lines are all objects, invalid text
      or blank: blank lines dropped, invalid text kept as it was, objects
      enriched; the same count of non-blank lines, the same invalid lines in
      the same order. */
  function EnrichLines(lines: seq<Line>, sourceType: Option<string>, info: Record): (out: seq<Line>)
    requires !HasNonObject(lines)
    ensures |out| == NonBlankCount(lines)
    ensures Invalids(out) == Invalids(lines)
    ensures forall i :: 0 <= i < |out| ==> Settled(out[i], sourceType, info)
    ensures forall i :: 0 <= i < |out| && out[i].Object? ==>
      forall k :: k in info ==> k in out[i].record && out[i].record[k] == info[k]
    ensures sourceType.Some? && SourceTypeKey !in info ==>
      forall i :: 0 <= i < |out| && out[i].Object? ==>
        SourceTypeKey in out[i].record && out[i].record[SourceTypeKey] == JString(sourceType.value)
  {
    if lines == [] then []
    else
      assert !HasNonObject(lines[1..]) by {
        forall i | 0 <= i < |lines| - 1 ensures !lines[1..][i].NonObject? {
          assert lines[1..][i] == lines[i + 1];
        }
      }
      assert !lines[0].NonObject?;
      var rest := EnrichLines(lines[1..], sourceType, info);
      match lines[0]
      case Blank => rest
      case Object(r) =>
        EnrichRecordIdempotent(r, sourceType, info);
        [Object(EnrichRecord(r, sourceType, info))] + rest
      case Invalid(text) => [Invalid(text)] + rest
  }

  /** A line a pass keeps as it is: invalid text, or an object that already
      carries everything the pass would merge into it. */
  predicate Settled(line: Line, sourceType: Option<string>, info: Record) {
    line.Invalid? || (line.Object? && EnrichRecord(line.record, sourceType, info) == line.record)
  }

  /** The text written back: `'\n'.join(lines) + '\n'`, which for no lines
      at all is one empty line. */
  function Rendered(lines: seq<Line>): (out: seq<Line>)
    ensures out != []
  {
    if lines == [] then [Blank] else lines
  }

  /** What one enrichment pass leaves in a file. */
  function EnrichFile(f: JsonFile, sourceType: Option<string>, info: Record): (g: JsonFile)
    ensures g.name == f.name
  {
    if !IsResultName(f.name) || f.content.Unreadable? || HasNonObject(f.content.lines) then f
    else JsonFile(f.name, Lines(Rendered(EnrichLines(f.content.lines, sourceType, info))))
  }

  /** The source type `update_json_with_system_info` gives a file. */
  function FileSourceType(name: string): Option<string> {
    Some(SourceType(name))
  }

  /** A second pass over an enriched file leaves it as the first left it. */
  lemma EnrichFileIdempotent(f: JsonFile, sourceType: Option<string>, info: Record)
    ensures EnrichFile(EnrichFile(f, sourceType, info), sourceType, info) == EnrichFile(f, sourceType, info)
  {
    var g := EnrichFile(f, sourceType, info);
    if IsResultName(f.name) && f.content.Lines? && !HasNonObject(f.content.lines) {
      var out := EnrichLines(f.content.lines, sourceType, info);
      var lines := Rendered(out);
      assert !HasNonObject(lines);
      if out == [] {
        assert lines == [Blank];
        assert EnrichLines(lines, sourceType, info) == [];
      } else {
        EnrichLinesIdempotent(out, sourceType, info);
      }
    }
  }

  /** Lines that are all settled pass through an enrichment unchanged. */
  lemma {:induction false} EnrichLinesIdempotent(out: seq<Line>, sourceType: Option<string>, info: Record)
    requires forall i :: 0 <= i < |out| ==> Settled(out[i], sourceType, info)
    ensures !HasNonObject(out)
    ensures EnrichLines(out, sourceType, info) == out
  {
    if out != [] {
      forall i | 0 <= i < |out| - 1
        ensures Settled(out[1..][i], sourceType, info)
      {
        assert out[1..][i] == out[i + 1];
      }
      EnrichLinesIdempotent(out[1..], sourceType, info);
      assert out == [out[0]] + out[1..];
    }
  }

  /** Enrichment distributes over concatenation. */
  lemma {:induction false} EnrichLinesAppend(a: seq<Line>, b: seq<Line>, sourceType: Option<string>, info: Record)
    requires !HasNonObject(a) && !HasNonObject(b)
    ensures !HasNonObject(a + b)
    ensures EnrichLines(a + b, sourceType, info) == EnrichLines(a, sourceType, info) + EnrichLines(b, sourceType, info)
  {
    NoNonObjectAppend(a, b);
    if a != [] {
      EnrichCons(a, sourceType, info);
      NoNonObjectAppend(a[1..], b);
      EnrichLinesAppend(a[1..], b, sourceType, info);
      AppendStep(a, b, sourceType, info);
    } else {
      assert a + b == b;
    }
  }

  /** Helper: the inductive step of `EnrichLinesAppend`. */
  lemma AppendStep(a: seq<Line>, b: seq<Line>, sourceType: Option<string>, info: Record)
    requires a != [] && !HasNonObject(a) && !HasNonObject(b) && !HasNonObject(a + b)
    requires !HasNonObject(a[1..]) && !HasNonObject(a[1..] + b)
    requires EnrichLines(a[1..] + b, sourceType, info) == EnrichLines(a[1..], sourceType, info) + EnrichLines(b, sourceType, info)
    ensures EnrichLines(a + b, sourceType, info) == EnrichLines(a, sourceType, info) + EnrichLines(b, sourceType, info)
  {
    var ab := a + b;
    ConsOfAppend(a, b);
    EnrichCons(a, sourceType, info);
    EnrichCons(ab, sourceType, info);
    var h := EnrichLines([a[0]], sourceType, info);
    var ea, eb := EnrichLines(a[1..], sourceType, info), EnrichLines(b, sourceType, info);
    AppendAssoc(h, ea, eb);
  }

  /** Helper: concatenating lines that hold no non-object keeps it so. */
  lemma NoNonObjectAppend(a: seq<Line>, b: seq<Line>)
    requires !HasNonObject(a) && !HasNonObject(b)
    ensures !HasNonObject(a + b)
  {
    forall i | 0 <= i < |a + b| ensures !(a + b)[i].NonObject? {
      if i < |a| { assert (a + b)[i] == a[i]; } else { assert (a + b)[i] == b[i - |a|]; }
    }
  }

  /** Helper: the enriched lines are the first line's share followed by the rest's. */
  lemma EnrichCons(lines: seq<Line>, sourceType: Option<string>, info: Record)
    requires lines != [] && !HasNonObject(lines)
    ensures !HasNonObject([lines[0]]) && !HasNonObject(lines[1..])
    ensures EnrichLines(lines, sourceType, info) == EnrichLines([lines[0]], sourceType, info) + EnrichLines(lines[1..], sourceType, info)
  {
    assert !lines[0].NonObject?;
    EnrichSingle(lines[0], sourceType, info);
    assert !HasNonObject(lines[1..]) by {
      forall i | 0 <= i < |lines| - 1 ensures !lines[1..][i].NonObject? { assert lines[1..][i] == lines[i + 1]; }
    }
  }

  /** A single line's share of the enriched lines. */
  lemma EnrichSingle(line: Line, sourceType: Option<string>, info: Record)
    requires !line.NonObject?
    ensures !HasNonObject([line])
    ensures line.Blank? ==> EnrichLines([line], sourceType, info) == []
    ensures line.Object? ==> EnrichLines([line], sourceType, info) == [Object(EnrichRecord(line.record, sourceType, info))]
    ensures line.Invalid? ==> EnrichLines([line], sourceType, info) == [line]
  {
    assert [line][1..] == [];
  }

  /** The loop that builds `updated_lines`: None when some line is JSON but
      not an object (the exception that abandons the file), otherwise the
      enriched lines. */
  method UpdateLines(lines: seq<Line>, sourceType: Option<string>, info: Record) returns (updated: Option<seq<Line>>)
    ensures updated.None? <==> HasNonObject(lines)
    ensures updated.Some? ==> !HasNonObject(lines) && updated.value == EnrichLines(lines, sourceType, info)
  {
    var acc: seq<Line> := [];
    for i := 0 to |lines|
      invariant !HasNonObject(lines[..i])
      invariant acc == EnrichLines(lines[..i], sourceType, info)
    {
      var line := lines[i];
      if line.NonObject? {
        assert lines[i].NonObject?;
        return None;
      }
      ghost var before := acc;
      match line {
        case Blank =>
        case Object(r) =>
          acc := acc + [Object(EnrichRecord(r, sourceType, info))];
        case Invalid(text) =>
          acc := acc + [Invalid(text)];
      }
      UpdateStep(lines, i, sourceType, info, before, acc);
    }
    assert lines[..|lines|] == lines;
    return Some(acc);
  }

  /** One more line of the loop: the enriched prefix grows by that line's
      share. */
  lemma UpdateStep(lines: seq<Line>, i: nat, sourceType: Option<string>, info: Record,
                   before: seq<Line>, after: seq<Line>)
    requires i < |lines| && !lines[i].NonObject? && !HasNonObject(lines[..i])
    requires before == EnrichLines(lines[..i], sourceType, info)
    requires lines[i].Blank? ==> after == before
    requires lines[i].Object? ==> after == before + [Object(EnrichRecord(lines[i].record, sourceType, info))]
    requires lines[i].Invalid? ==> after == before + [lines[i]]
    ensures !HasNonObject(lines[..i + 1])
    ensures after == EnrichLines(lines[..i + 1], sourceType, info)
  {
    assert lines[..i + 1] == lines[..i] + [lines[i]];
    EnrichSingle(lines[i], sourceType, info);
    EnrichLinesAppend(lines[..i], [lines[i]], sourceType, info);
    if lines[i].Blank? {
      assert after == before + [];
    }
  }

  /** The source type a pass stamps on a file's records, if it stamps one. */
  function Stamp(addSourceType: bool, name: string): Option<string> {
    if addSourceType then Some(SourceType(name)) else None
  }

  /** Every file of the `results` directory after one pass. */
  function EnrichResults(files: seq<JsonFile>, addSourceType: bool, info: Record): (after: seq<JsonFile>)
    ensures |after| == |files|
    ensures forall i :: 0 <= i < |files| ==> after[i] == EnrichFile(files[i], Stamp(addSourceType, files[i].name), info)
  {
    seq(|files|, i requires 0 <= i < |files| => EnrichFile(files[i], Stamp(addSourceType, files[i].name), info))
  }

  /** Running a pass twice is running it once. */
  lemma EnrichResultsIdempotent(files: seq<JsonFile>, addSourceType: bool, info: Record)
    ensures EnrichResults(EnrichResults(files, addSourceType, info), addSourceType, info) == EnrichResults(files, addSourceType, info)
  {
    var once := EnrichResults(files, addSourceType, info);
    forall i | 0 <= i < |files|
      ensures EnrichFile(once[i], Stamp(addSourceType, once[i].name), info) == once[i]
    {
      EnrichFileIdempotent(files[i], Stamp(addSourceType, files[i].name), info);
    }
  }

  /** The pass over the `results` directory; nothing happens when there is
      no such directory. A file that cannot be read, or holds a line that is
      JSON but not an object, is left as it was. */
  method UpdateResults(resultsDirExists: bool, files: seq<JsonFile>, addSourceType: bool, info: Record)
    returns (after: seq<JsonFile>)
    ensures after == (if resultsDirExists then EnrichResults(files, addSourceType, info) else files)
  {
    after := files;
    if !resultsDirExists {
      return;
    }
    for i := 0 to |files|
      invariant |after| == |files|
      invariant forall j :: 0 <= j < i ==> after[j] == EnrichFile(files[j], Stamp(addSourceType, files[j].name), info)
      invariant forall j :: i <= j < |files| ==> after[j] == files[j]
    {
      var f := files[i];
      ghost var g := EnrichFile(f, Stamp(addSourceType, f.name), info);
      if !IsResultName(f.name) || f.content.Unreadable? {
        assert g == f;
        continue;
      }
      var updated := UpdateLines(f.content.lines, Stamp(addSourceType, f.name), info);
      if updated.Some? {
        assert g == JsonFile(f.name, Lines(Rendered(updated.value)));
        after := after[i := JsonFile(f.name, Lines(Rendered(updated.value)))];
      } else {
        assert g == f;
      }
    }
  }

  /** `update_json_with_system_info` of `collector_manager.py`. */
  method UpdateJsonWithSystemInfo(resultsDirExists: bool, files: seq<JsonFile>, info: Record)
    returns (after: seq<JsonFile>)
    ensures after == (if resultsDirExists then EnrichResults(files, true, info) else files)
  {
    after := UpdateResults(resultsDirExists, files, true, info);
  }

  /** `update_json_files` of `process_zip_files.py`. */
  method UpdateJsonFiles(resultsDirExists: bool, files: seq<JsonFile>, info: Record)
    returns (after: seq<JsonFile>)
    ensures after == (if resultsDirExists then EnrichResults(files, false, info) else files)
  {
    after := UpdateResults(resultsDirExists, files, false, info);
  }
}

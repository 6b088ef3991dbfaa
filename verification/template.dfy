/** The collection-spec template: locating the two sentinel lines, laying
    out a spec from the template's header and trailer, and reading the
    template under the first text encoding that decodes it. Both copies of
    `SpecFileGenerator` in the repository share this code verbatim. */
module Template {
  import opened Text
  import opened Wrappers

  const StartPhrase: string := "The list of artifacts and their args."
  const EndPhrase: string := "Can be ZIP"

  /** A line that the scan takes as the start marker. */
  predicate IsStartLine(line: string) {
    Contains(line, StartPhrase)
  }

  /** A line that the scan takes as the end marker: the `elif` only sees
      lines that are not start lines. */
  predicate IsEndLine(line: string) {
    !IsStartLine(line) && Contains(line, EndPhrase)
  }

  /** The index of the first end-marker line, or -1. */
  function FirstEndLine(lines: seq<string>): (e: int)
    ensures -1 <= e < |lines|
    ensures e >= 0 ==> IsEndLine(lines[e])
    ensures forall i :: 0 <= i < |lines| && (e == -1 || i < e) ==> !IsEndLine(lines[i])
  {
    if lines == [] then -1
    else if IsEndLine(lines[0]) then 0
    else
      var r := FirstEndLine(lines[1..]);
      if r == -1 then -1 else r + 1
  }

  /** The index of the last start-marker line before `bound`, or -1. */
  function LastStartBefore(lines: seq<string>, bound: nat): (s: int)
    requires bound <= |lines|
    ensures -1 <= s < bound
    ensures s >= 0 ==> IsStartLine(lines[s])
    ensures forall i :: s < i < bound ==> !IsStartLine(lines[i])
  {
    if bound == 0 then -1
    else if IsStartLine(lines[bound - 1]) then bound - 1
    else LastStartBefore(lines, bound - 1)
  }

  /** What `find_section_markers` returns: the end marker is the first end
      line and the scan stops there; the start marker is the last start
      line seen before it. -1 stands for "not found". */
  function Markers(lines: seq<string>): (int, int) {
    var e := FirstEndLine(lines);
    (LastStartBefore(lines, if e == -1 then |lines| else e), e)
  }

  /** When both markers are found, the start marker precedes the end marker. */
  lemma MarkersOrdered(lines: seq<string>)
    ensures var (s, e) := Markers(lines);
      s != -1 && e != -1 ==> 0 <= s < e < |lines|
  {
  }

  /** `find_section_markers`: one pass over the lines that records every
      start line and stops at the first end line. */
  method FindSectionMarkers(lines: seq<string>) returns (start: int, end: int)
    ensures (start, end) == Markers(lines)
  {
    start, end := -1, -1;
    var i := 0;
    while i < |lines|
      invariant 0 <= i <= |lines|
      invariant end == -1
      invariant forall k :: 0 <= k < i ==> !IsEndLine(lines[k])
      invariant start == LastStartBefore(lines, i)
    {
      if IsStartLine(lines[i]) {
        start := i;
      } else if Contains(lines[i], EndPhrase) {
        end := i;
        EndIsFirst(lines, i);
        return;
      }
      i := i + 1;
    }
    EndIsFirst(lines, |lines|);
  }

  /** Helper: if no line before `i` is an end line and line `i` is (or `i`
      is the length), `FirstEndLine` is `i` (or -1). */
  lemma {:induction false} EndIsFirst(lines: seq<string>, i: nat)
    requires i <= |lines|
    requires forall k :: 0 <= k < i ==> !IsEndLine(lines[k])
    requires i < |lines| ==> IsEndLine(lines[i])
    ensures FirstEndLine(lines) == if i == |lines| then -1 else i
  {
    if i > 0 {
      EndIsFirst(lines[1..], i - 1);
    }
  }

  /** The two lines that enable one artifact in the spec. */
  function EntryLine(artifact: string): string {
    " " + artifact + ":\n"
  }

  const AllLine: string := "    All: Y\n"
  const ClientInfoLine: string := " Generic.Client.Info:\n"

  /** The always-appended client-information block. */
  const ClientInfoBlock: seq<string> := [ClientInfoLine, AllLine]

  /** One enabling block per artifact, in the given order. */
  function ArtifactBlocks(artifacts: seq<string>): (b: seq<string>)
    ensures |b| == 2 * |artifacts|
  {
    if artifacts == [] then []
    else [EntryLine(artifacts[0]), AllLine] + ArtifactBlocks(artifacts[1..])
  }

  /** The blocks hold exactly two lines per artifact: the entry line of the
      `i`-th artifact at `2i` and the `All: Y` line after it. */
  lemma {:induction false} ArtifactBlocksAt(artifacts: seq<string>)
    ensures |ArtifactBlocks(artifacts)| == 2 * |artifacts|
    ensures forall i :: 0 <= i < |artifacts| ==>
      ArtifactBlocks(artifacts)[2 * i] == EntryLine(artifacts[i])
      && ArtifactBlocks(artifacts)[2 * i + 1] == AllLine
  {
    forall i | 0 <= i < |artifacts|
      ensures ArtifactBlocks(artifacts)[2 * i] == EntryLine(artifacts[i])
      ensures ArtifactBlocks(artifacts)[2 * i + 1] == AllLine
    {
      ArtifactBlockAt(artifacts, i);
    }
  }

  /** Helper: the block of the `i`-th artifact, by induction on `i`. */
  lemma {:induction false} ArtifactBlockAt(artifacts: seq<string>, i: nat)
    requires i < |artifacts|
    ensures ArtifactBlocks(artifacts)[2 * i] == EntryLine(artifacts[i])
    ensures ArtifactBlocks(artifacts)[2 * i + 1] == AllLine
    decreases i
  {
    var b := ArtifactBlocks(artifacts);
    var tail := artifacts[1..];
    assert b == [EntryLine(artifacts[0]), AllLine] + ArtifactBlocks(tail);
    if i > 0 {
      ArtifactBlockAt(tail, i - 1);
      assert tail[i - 1] == artifacts[i];
      assert b[2 * i] == ArtifactBlocks(tail)[2 * (i - 1)];
      assert b[2 * i + 1] == ArtifactBlocks(tail)[2 * (i - 1) + 1];
    }
  }

  /** Appending an artifact appends its block. */
  lemma {:induction false} ArtifactBlocksSnoc(artifacts: seq<string>, a: string)
    ensures ArtifactBlocks(artifacts + [a]) == ArtifactBlocks(artifacts) + [EntryLine(a), AllLine]
  {
    if artifacts == [] {
      assert artifacts + [a] == [a];
    } else {
      assert (artifacts + [a])[1..] == artifacts[1..] + [a];
      ArtifactBlocksSnoc(artifacts[1..], a);
    }
  }

  /** The spec a template yields for `artifacts` once its markers are at
      `start` and `end`: the template through the line after the start
      marker, the artifact blocks, the client-information block, and the
      template from the end marker on. */
  function SpecContent(lines: seq<string>, start: nat, end: nat, artifacts: seq<string>): seq<string>
    requires start < end < |lines|
  {
    lines[..start + 2] + ArtifactBlocks(artifacts) + ClientInfoBlock + lines[end..]
  }

  /** The layout of a generated spec, line by line: header and trailer are
      the template's own lines, one block per artifact in order, then the
      client-information block; the length is
      `(start + 2) + 2 * |artifacts| + 2 + (|lines| - end)`. */
  lemma SpecContentLayout(lines: seq<string>, start: nat, end: nat, artifacts: seq<string>)
    requires start < end < |lines|
    ensures var c := SpecContent(lines, start, end, artifacts);
      var h := start + 2;
      var t := h + 2 * |artifacts| + 2;
      |c| == t + (|lines| - end)
      && c[..h] == lines[..h]
      && (forall i :: 0 <= i < |artifacts| ==> c[h + 2 * i] == EntryLine(artifacts[i]) && c[h + 2 * i + 1] == AllLine)
      && c[t - 2] == ClientInfoLine && c[t - 1] == AllLine
      && c[t..] == lines[end..]
  {
    var c := SpecContent(lines, start, end, artifacts);
    var h := start + 2;
    var b := ArtifactBlocks(artifacts);
    var t := h + |b| + 2;
    var head := lines[..h];
    assert c == head + b + ClientInfoBlock + lines[end..];
    assert c[..h] == head;
    forall i | 0 <= i < |artifacts|
      ensures c[h + 2 * i] == EntryLine(artifacts[i]) && c[h + 2 * i + 1] == AllLine
    {
      ArtifactBlockAt(artifacts, i);
      assert c[h + 2 * i] == b[2 * i];
      assert c[h + 2 * i + 1] == b[2 * i + 1];
    }
    assert c[t - 2] == ClientInfoBlock[0];
    assert c[t - 1] == ClientInfoBlock[1];
    assert c[t..] == lines[end..];
  }

  /** The spec builders: copy the header, append one block per artifact,
      then the client-information block, then extend by the footer. */
  method BuildSpecContent(header: seq<string>, artifacts: seq<string>, footer: seq<string>)
    returns (content: seq<string>)
    ensures content == header + ArtifactBlocks(artifacts) + ClientInfoBlock + footer
  {
    content := header;
    for i := 0 to |artifacts|
      invariant content == header + ArtifactBlocks(artifacts[..i])
    {
      ArtifactBlocksSnoc(artifacts[..i], artifacts[i]);
      assert artifacts[..i + 1] == artifacts[..i] + [artifacts[i]];
      content := content + [EntryLine(artifacts[i])];
      content := content + [AllLine];
    }
    assert artifacts[..|artifacts|] == artifacts;
    content := content + [ClientInfoLine];
    content := content + [AllLine];
    content := content + footer;
  }

  /** An artifact name that contains neither sentinel phrase. */
  predicate PlainName(a: string) {
    !Contains(a, StartPhrase) && !Contains(a, EndPhrase)
  }

  /** Helper: the `All: Y` line is not a marker line (stated for a line
      equal to it, which keeps the solver from unfolding the literal). */
  lemma AllLineUnmarked(line: string)
    requires line == AllLine
    ensures Unmarked(line)
  {
    assert StartPhrase[0] == 'T' && EndPhrase[0] == 'C';
    assert forall k :: 0 <= k < |line| ==> line[k] != 'T' && line[k] != 'C';
    NotContainsFirstChar(line, StartPhrase);
    NotContainsFirstChar(line, EndPhrase);
  }

  /** Helper: the client-information line is not a marker line. */
  lemma ClientInfoLineUnmarked(line: string)
    requires line == ClientInfoLine
    ensures Unmarked(line)
  {
    ClientInfoLacksStart(line);
    ClientInfoLacksEnd(line);
  }

  /** Helper: no `T` in the client-information line. */
  lemma ClientInfoLacksStart(line: string)
    requires line == ClientInfoLine
    ensures !Contains(line, StartPhrase)
  {
    assert StartPhrase[0] == 'T';
    assert forall k :: 0 <= k < |line| ==> line[k] != 'T';
    NotContainsFirstChar(line, StartPhrase);
  }

  /** Helper: the only `C` of the client-information line is followed by `l`. */
  lemma ClientInfoLacksEnd(line: string)
    requires line == ClientInfoLine
    ensures !Contains(line, EndPhrase)
  {
    assert EndPhrase[1] == 'a';
    var p, q := " Generic.", "Client.Info:\n";
    assert line == p + q;
    ContainsNoneAfterMismatch(p, q, EndPhrase);
  }

  /** Helper: wrapping a name as `" name:\n"` adds no occurrence of a phrase
      that starts with a non-space and holds no `:` and no newline. */
  lemma PhraseNotInEntry(a: string, w: string)
    requires w == StartPhrase || w == EndPhrase
    requires !Contains(a, w)
    ensures !Contains(EntryLine(a), w)
  {
    if w == StartPhrase {
      StartPhraseChars(w);
    } else {
      EndPhraseChars(w);
    }
    EntryLacks(a, w);
  }

  /** Helper: the start phrase begins with `T` and holds no `:` and no newline. */
  lemma StartPhraseChars(w: string)
    requires w == StartPhrase
    ensures |w| > 0 && w[0] == 'T' && ':' !in w && '\n' !in w
  {
    assert forall k :: 0 <= k < |w| ==> w[k] != ':' && w[k] != '\n';
  }

  /** Helper: the end phrase begins with `C` and holds no `:` and no newline. */
  lemma EndPhraseChars(w: string)
    requires w == EndPhrase
    ensures |w| > 0 && w[0] == 'C' && ':' !in w && '\n' !in w
  {
    assert forall k :: 0 <= k < |w| ==> w[k] != ':' && w[k] != '\n';
  }

  /** Helper: the entry line around a name adds no occurrence of a phrase
      that starts with a non-space and holds no `:` and no newline. */
  lemma EntryLacks(a: string, w: string)
    requires |w| > 0 && w[0] != ' ' && ':' !in w && '\n' !in w
    requires !Contains(a, w)
    ensures !Contains(EntryLine(a), w)
  {
    var q := ":\n";
    assert q[0] == ':' && q[1] == '\n' && |q| == 2;
    assert forall k :: 0 <= k < |q| ==> q[k] !in w;
    ContainsAppendForeign(a, q, w);
    assert EntryLine(a) == " " + (a + q);
    assert w[0] !in " ";
    ContainsSkipPrefix(" ", a + q, w);
  }

  /** Regeneration is stable: scanning a generated spec finds its start
      marker where the template had it and its end marker at the start of
      the copied trailer, so splitting the generated spec gives back the
      template's header and trailer and a spec for other artifacts made from
      it equals one made from the template. This needs a line between the
      two markers (the "Artifacts:" line the header keeps) and artifact
      names free of the sentinel phrases. */
  lemma RegenerateFromSpec(lines: seq<string>, s: nat, e: nat, artifacts: seq<string>, others: seq<string>)
    requires Markers(lines) == (s, e) && s + 1 < e
    requires forall i :: 0 <= i < |artifacts| ==> PlainName(artifacts[i])
    ensures var c := SpecContent(lines, s, e, artifacts);
      Markers(c) == (s, s + 4 + 2 * |artifacts|)
      && SpecContent(c, s, s + 4 + 2 * |artifacts|, others) == SpecContent(lines, s, e, others)
  {
    assert e == FirstEndLine(lines);
    assert s == LastStartBefore(lines, e);
    RegenerateAt(lines, s, e, artifacts, others);
  }

  /** Helper: the regeneration argument with the markers at `s` and `e`. */
  lemma RegenerateAt(lines: seq<string>, s: nat, e: nat, artifacts: seq<string>, others: seq<string>)
    requires s + 1 < e < |lines| && IsStartLine(lines[s]) && IsEndLine(lines[e])
    requires forall k :: 0 <= k < e ==> !IsEndLine(lines[k])
    requires forall k :: s < k < e ==> !IsStartLine(lines[k])
    requires forall i :: 0 <= i < |artifacts| ==> PlainName(artifacts[i])
    ensures var c := SpecContent(lines, s, e, artifacts);
      Markers(c) == (s, s + 4 + 2 * |artifacts|)
      && SpecContent(c, s, s + 4 + 2 * |artifacts|, others) == SpecContent(lines, s, e, others)
  {
    var c := SpecContent(lines, s, e, artifacts);
    var t := s + 4 + 2 * |artifacts|;
    GeneratedScan(lines, s, e, artifacts);
    MarkersAt(c, s, t);
    SameFrame(lines, s, e, c, t, others);
  }

  /** Helper: what the marker scan meets in a generated spec before the
      copied trailer. */
  lemma GeneratedScan(lines: seq<string>, s: nat, e: nat, artifacts: seq<string>)
    requires s + 1 < e < |lines| && IsStartLine(lines[s]) && IsEndLine(lines[e])
    requires forall k :: 0 <= k < e ==> !IsEndLine(lines[k])
    requires forall k :: s < k < e ==> !IsStartLine(lines[k])
    requires forall i :: 0 <= i < |artifacts| ==> PlainName(artifacts[i])
    ensures var c := SpecContent(lines, s, e, artifacts);
      var t := s + 4 + 2 * |artifacts|;
      s < t < |c| && IsStartLine(c[s]) && IsEndLine(c[t])
      && (forall k :: 0 <= k < t ==> !IsEndLine(c[k]))
      && (forall k :: s < k < t ==> !IsStartLine(c[k]))
      && c[..s + 2] == lines[..s + 2] && c[t..] == lines[e..]
  {
    var c := SpecContent(lines, s, e, artifacts);
    var t := s + 4 + 2 * |artifacts|;
    SpecSplice(lines, s, e, artifacts);
    forall k | 0 <= k < t ensures !IsEndLine(c[k]) && (s < k ==> !IsStartLine(c[k])) {
      if k < s + 2 {
        assert c[k] == lines[k];
      } else {
        assert Unmarked(c[k]);
      }
    }
    assert c[..s + 2] == lines[..s + 2];
    assert c[t..] == lines[e..];
  }

  /** Helper: two templates with the same header and trailer yield the same spec. */
  lemma SameFrame(lines: seq<string>, s: nat, e: nat, c: seq<string>, t: nat, artifacts: seq<string>)
    requires s < e < |lines| && s < t < |c|
    requires c[..s + 2] == lines[..s + 2] && c[t..] == lines[e..]
    ensures SpecContent(c, s, t, artifacts) == SpecContent(lines, s, e, artifacts)
  {
  }

  /** The lines a spec adds to its template: the artifact blocks and the
      client-information block. */
  function GeneratedLines(artifacts: seq<string>): seq<string> {
    ArtifactBlocks(artifacts) + ClientInfoBlock
  }

  /** Helper: a spec is the template's header, the generated lines, and the
      template's trailer, and none of the generated lines is a marker. */
  lemma SpecSplice(lines: seq<string>, s: nat, e: nat, artifacts: seq<string>)
    requires s < e < |lines|
    requires forall i :: 0 <= i < |artifacts| ==> PlainName(artifacts[i])
    ensures var c := SpecContent(lines, s, e, artifacts);
      var t := s + 4 + 2 * |artifacts|;
      t < |c| && c[t] == lines[e]
      && (forall k :: 0 <= k < s + 2 ==> c[k] == lines[k])
      && (forall k :: s + 2 <= k < t ==> Unmarked(c[k]))
  {
    var g := GeneratedLines(artifacts);
    var c := SpecContent(lines, s, e, artifacts);
    assert c == lines[..s + 2] + g + lines[e..];
    GeneratedUnmarked(artifacts);
    forall k | s + 2 <= k < s + 2 + |g| ensures c[k] == g[k - (s + 2)] {
    }
  }

  /** Helper: no generated line is a marker line. */
  lemma GeneratedUnmarked(artifacts: seq<string>)
    requires forall i :: 0 <= i < |artifacts| ==> PlainName(artifacts[i])
    ensures forall k :: 0 <= k < |GeneratedLines(artifacts)| ==> Unmarked(GeneratedLines(artifacts)[k])
  {
    BlocksUnmarked(artifacts);
    ClientInfoBlockUnmarked();
    AllUnmarked(ArtifactBlocks(artifacts), ClientInfoBlock[0], ClientInfoBlock[1]);
  }

  /** Helper: neither line of the client-information block is a marker. */
  lemma ClientInfoBlockUnmarked()
    ensures Unmarked(ClientInfoBlock[0])
    ensures Unmarked(ClientInfoBlock[1])
  {
    ClientInfoLineUnmarked(ClientInfoBlock[0]);
    AllLineUnmarked(ClientInfoBlock[1]);
  }

  /** Helper: appending two unmarked lines to unmarked lines. */
  lemma AllUnmarked(x: seq<string>, u: string, v: string)
    requires forall k :: 0 <= k < |x| ==> Unmarked(x[k])
    requires Unmarked(u) && Unmarked(v)
    ensures forall k :: 0 <= k < |x + [u, v]| ==> Unmarked((x + [u, v])[k])
  {
    forall k | 0 <= k < |x + [u, v]| ensures Unmarked((x + [u, v])[k]) {
      if k < |x| {
        assert (x + [u, v])[k] == x[k];
      }
    }
  }

  /** Helper: the markers of `c` are `s` and `t` when `t` is its first end
      line and `s` the last start line before it. */
  lemma MarkersAt(c: seq<string>, s: nat, t: nat)
    requires s < t < |c| && IsStartLine(c[s]) && IsEndLine(c[t])
    requires forall k :: 0 <= k < t ==> !IsEndLine(c[k])
    requires forall k :: s < k < t ==> !IsStartLine(c[k])
    ensures Markers(c) == (s, t)
  {
    EndIsFirst(c, t);
    StartIsLast(c, t, s);
  }

  /** A line that the scan takes as neither marker. */
  predicate Unmarked(line: string) {
    !IsStartLine(line) && !IsEndLine(line)
  }

  /** Helper: no line of the artifact blocks is a marker line. */
  lemma BlocksUnmarked(artifacts: seq<string>)
    requires forall i :: 0 <= i < |artifacts| ==> PlainName(artifacts[i])
    ensures forall k :: 0 <= k < |ArtifactBlocks(artifacts)| ==> Unmarked(ArtifactBlocks(artifacts)[k])
  {
    var b := ArtifactBlocks(artifacts);
    forall k | 0 <= k < |b| ensures Unmarked(b[k]) {
      var i := k / 2;
      ArtifactBlockAt(artifacts, i);
      if k % 2 == 0 {
        assert k == 2 * i;
        PhraseNotInEntry(artifacts[i], StartPhrase);
        PhraseNotInEntry(artifacts[i], EndPhrase);
      } else {
        assert k == 2 * i + 1;
        AllLineUnmarked(b[k]);
      }
    }
  }

  /** Helper: `s` is the last start line before `bound`. */
  lemma {:induction false} StartIsLast(lines: seq<string>, bound: nat, s: nat)
    requires s < bound <= |lines|
    requires IsStartLine(lines[s])
    requires forall k :: s < k < bound ==> !IsStartLine(lines[k])
    ensures LastStartBefore(lines, bound) == s
    decreases bound
  {
    if bound - 1 != s {
      StartIsLast(lines, bound - 1, s);
    }
  }

  const SpecPrefix: string := "single_artifact_spec_"

  /** The file name of a single-artifact spec: the prefix, the artifact name
      with every `.` turned into `_`, and the `.yaml` extension. */
  function SpecFilename(artifact: string): string {
    SpecPrefix + ReplaceAll(artifact, ".", "_") + ".yaml"
  }

  /** The cleaned name in a spec file name holds no dot, so the only dot of
      the file name is the one before the extension. */
  lemma {:induction false} SpecFilenameDots(artifact: string)
    ensures '.' !in SpecPrefix + ReplaceAll(artifact, ".", "_")
  {
    var clean := ReplaceAll(artifact, ".", "_");
    ReplaceAllRemoves(artifact, ".", '_');
    ContainsChar(clean, '.');
    assert forall k :: 0 <= k < |SpecPrefix| ==> SpecPrefix[k] != '.';
  }

  /** The spec the builders splice from a read outcome: None when the
      template was not read, has no lines, or lacks either marker. */
  function SpecFromTemplate(read: ReadOutcome, artifacts: seq<string>): Option<seq<string>> {
    if !read.Read? || read.lines == [] then None
    else
      var (s, e) := Markers(read.lines);
      if s == -1 || e == -1 then None
      else
        MarkersOrdered(read.lines);
        Some(SpecContent(read.lines, s, e, artifacts))
  }

  /** The text encodings tried, in order. */
  datatype Encoding = Utf16 | Utf8 | Latin1 | Ascii

  /** The position of an encoding in the order `try_read_file` tries them. */
  function Rank(e: Encoding): nat {
    match e
    case Utf16 => 0
    case Utf8 => 1
    case Latin1 => 2
    case Ascii => 3
  }

  const Fallbacks: seq<Encoding> := [Utf8, Latin1, Ascii]

  /** What opening and reading the file under one encoding gives: its
      lines, a decoding error, or another I/O error. */
  datatype Decoding = Decoded(lines: seq<string>) | Undecodable | IoError

  /** What `try_read_file` gives: the lines with the encoding that decoded
      them, `(None, None)`, or an exception that escapes (an I/O error
      under UTF-16, which only `UnicodeError` is caught for). */
  datatype ReadOutcome = Read(lines: seq<string>, encoding: Encoding) | Unreadable | Raised

  /** The first encoding, in order, under which the file decodes. */
  function ReadWithFallback(decode: Encoding -> Decoding): (r: ReadOutcome)
    ensures r.Raised? <==> decode(Utf16).IoError?
    ensures r.Read? ==> decode(r.encoding) == Decoded(r.lines)
    ensures r.Read? ==> forall e :: Rank(e) < Rank(r.encoding) ==> !decode(e).Decoded?
    ensures r.Unreadable? ==>
      !decode(Utf16).Decoded? && !decode(Utf8).Decoded? && !decode(Latin1).Decoded? && !decode(Ascii).Decoded?
  {
    match decode(Utf16)
    case Decoded(lines) => Read(lines, Utf16)
    case IoError => Raised
    case Undecodable =>
      match decode(Utf8)
      case Decoded(lines) => Read(lines, Utf8)
      case _ =>
        match decode(Latin1)
        case Decoded(lines) => Read(lines, Latin1)
        case _ =>
          match decode(Ascii)
          case Decoded(lines) => Read(lines, Ascii)
          case _ => Unreadable
  }

  /** The encoding `try_read_file` reports: the one that decoded the file,
      or None. */
  function ReportedEncoding(read: ReadOutcome): Option<Encoding> {
    if read.Read? then Some(read.encoding) else None
  }

  /** `try_read_file`: UTF-16 first, then each fallback encoding in turn;
      a failure under a fallback encoding moves on to the next. */
  method TryReadFile(decode: Encoding -> Decoding) returns (r: ReadOutcome)
    ensures r == ReadWithFallback(decode)
  {
    match decode(Utf16) {
      case Decoded(lines) => return Read(lines, Utf16);
      case IoError => return Raised;
      case Undecodable =>
    }
    assert Fallbacks[0] == Utf8 && Fallbacks[1] == Latin1 && Fallbacks[2] == Ascii;
    for i := 0 to |Fallbacks|
      invariant decode(Utf16).Undecodable?
      invariant forall k :: 0 <= k < i ==> !decode(Fallbacks[k]).Decoded?
    {
      var d := decode(Fallbacks[i]);
      if d.Decoded? {
        return Read(d.lines, Fallbacks[i]);
      }
    }
    return Unreadable;
  }
}

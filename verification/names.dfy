/** What the pipeline reads out of file names: the FQDN and timestamp of a
    collection archive, and the source type of a result file. */
module Names {
  import opened Text
  import opened Wrappers

  // ---------------------------------------------------------------------
  // `Collection--<fqdn>--<timestamp>.zip`
  // ---------------------------------------------------------------------

  const CollectionPrefix: string := "Collection--"

  /** After the `Collection--` prefix, `t[..i]` can be the first group and
      `t[i + 2..j]` the second: both non-empty, separated by `--`, followed
      by `.zip`, and free of newlines (which the pattern's `.` does not
      match). Anything may follow `.zip`: the pattern is matched at the
      start only. */
  predicate Fits(t: string, i: int, j: int) {
    && 0 < i && i + 2 < j && j + 4 <= |t|
    && t[i] == '-' && t[i + 1] == '-'
    && t[j] == '.' && t[j + 1] == 'z' && t[j + 2] == 'i' && t[j + 3] == 'p'
    && '\n' !in t[..j]
  }

  /** The largest end of the second group, at most `j`, that fits after a
      first group of length `i`; -1 when there is none. */
  function SecondEnd(t: string, i: int, j: int): (r: int)
    ensures r == -1 || (i + 2 < r <= j && Fits(t, i, r))
    ensures forall k :: r < k <= j ==> !Fits(t, i, k)
    decreases j - i
  {
    if j <= i + 2 then -1
    else if Fits(t, i, j) then j
    else SecondEnd(t, i, j - 1)
  }

  /** The match the backtracking engine finds with two greedy groups: the
      longest first group, at most `i`, for which some second group fits,
      and for it the longest second group. */
  function GreedyMatch(t: string, i: int): (m: (int, int))
    ensures m.0 == -1 ==> forall a, b :: 0 < a <= i ==> !Fits(t, a, b)
    ensures m.0 != -1 ==>
      && 0 < m.0 <= i && Fits(t, m.0, m.1)
      && (forall a, b :: m.0 < a <= i ==> !Fits(t, a, b))
      && (forall b :: m.1 < b ==> !Fits(t, m.0, b))
    decreases i
  {
    if i <= 0 then (-1, -1)
    else
      var j := SecondEnd(t, i, |t| - 4);
      if j != -1 then (i, j) else GreedyMatch(t, i - 1)
  }

  /** `extract_filename_info`: `re.match(r'Collection--(.+)--(.+)\.zip',
      filename)`; the two groups, or None when the pattern does not match.
      When it matches, the groups are the greedy ones: no longer first
      group would match, and for this first group no longer second one. */
  function ExtractFilenameInfo(filename: string): (r: Option<(string, string)>)
    ensures r.None? <==>
      !StartsWith(filename, CollectionPrefix) || forall a, b :: !Fits(filename[|CollectionPrefix|..], a, b)
    ensures r.Some? ==>
      var (fqdn, timestamp) := r.value;
      var t := filename[|CollectionPrefix|..];
      && fqdn != [] && timestamp != [] && '\n' !in fqdn && '\n' !in timestamp
      && StartsWith(filename, CollectionPrefix + fqdn + "--" + timestamp + ".zip")
      && (forall a, b :: |fqdn| < a ==> !Fits(t, a, b))
      && (forall b :: |fqdn| + 2 + |timestamp| < b ==> !Fits(t, |fqdn|, b))
  {
    if !StartsWith(filename, CollectionPrefix) then None
    else
      var t := filename[|CollectionPrefix|..];
      var m := GreedyMatch(t, |t|);
      if m.0 == -1 then None
      else
        var (i, j) := m;
        FitGroups(filename, t, i, j);
        Some((t[..i], t[i + 2..j]))
  }

  /** The groups of a fit are non-empty, newline-free, and spell out the
      front of the file name. */
  lemma FitGroups(filename: string, t: string, i: int, j: int)
    requires StartsWith(filename, CollectionPrefix) && t == filename[|CollectionPrefix|..]
    requires Fits(t, i, j)
    ensures t[..i] != [] && t[i + 2..j] != [] && '\n' !in t[..i] && '\n' !in t[i + 2..j]
    ensures StartsWith(filename, CollectionPrefix + t[..i] + "--" + t[i + 2..j] + ".zip")
  {
    assert t[..j + 4] == t[..i] + "--" + t[i + 2..j] + ".zip";
    assert filename == CollectionPrefix + t;
    assert t[..i] == t[..j][..i] && t[i + 2..j] == t[..j][i + 2..];
  }

  /** The archive names the collectors produce read back as their FQDN and
      timestamp, provided the timestamp neither starts with `-` nor holds
      `--` (otherwise the greedy first group would swallow part of it). */
  lemma CollectionNameRoundTrip(fqdn: string, timestamp: string)
    requires fqdn != [] && timestamp != []
    requires '\n' !in fqdn && '\n' !in timestamp
    requires timestamp[0] != '-' && !Contains(timestamp, "--")
    ensures ExtractFilenameInfo(CollectionPrefix + fqdn + "--" + timestamp + ".zip") == Some((fqdn, timestamp))
  {
    var filename := CollectionPrefix + fqdn + "--" + timestamp + ".zip";
    var t := fqdn + "--" + timestamp + ".zip";
    NameParts(CollectionPrefix, fqdn, "--", timestamp, ".zip");
    var i, j := |fqdn|, |fqdn| + 2 + |timestamp|;
    NameFits(fqdn, timestamp);
    NoLongerFqdn(fqdn, timestamp);
    GreedyGroups(filename, i, j);
  }

  /** Cutting a name built from five parts back into them. */
  lemma NameParts<T>(p: seq<T>, a: seq<T>, b: seq<T>, c: seq<T>, d: seq<T>)
    ensures p + a + b + c + d == p + (a + b + c + d)
    ensures (p + a + b + c + d)[|p|..] == a + b + c + d
    ensures (a + b + c + d)[..|a|] == a
    ensures (a + b + c + d)[|a| + |b|..|a| + |b| + |c|] == c
  {
  }

  /** A match whose groups cannot be lengthened is the one reported. */
  lemma GreedyGroups(filename: string, i: int, j: int)
    requires StartsWith(filename, CollectionPrefix)
    requires Fits(filename[|CollectionPrefix|..], i, j)
    requires forall a, b :: i < a ==> !Fits(filename[|CollectionPrefix|..], a, b)
    requires forall b :: j < b ==> !Fits(filename[|CollectionPrefix|..], i, b)
    ensures ExtractFilenameInfo(filename) == Some((filename[|CollectionPrefix|..][..i], filename[|CollectionPrefix|..][i + 2..j]))
  {
    var t := filename[|CollectionPrefix|..];
    var m := GreedyMatch(t, |t|);
    assert m.0 != -1;
    assert m.0 == i;
    assert m.1 == j;
  }

  lemma NameFits(fqdn: string, timestamp: string)
    requires fqdn != [] && timestamp != []
    requires '\n' !in fqdn && '\n' !in timestamp
    ensures Fits(fqdn + "--" + timestamp + ".zip", |fqdn|, |fqdn| + 2 + |timestamp|)
  {
    var t := fqdn + "--" + timestamp + ".zip";
    assert t[..|fqdn| + 2 + |timestamp|] == fqdn + "--" + timestamp;
  }

  /** No `--` after the FQDN's can start a longer first group. */
  lemma NoLongerFqdn(fqdn: string, timestamp: string)
    requires timestamp != [] && timestamp[0] != '-' && !Contains(timestamp, "--")
    ensures forall a, b :: |fqdn| < a ==> !Fits(fqdn + "--" + timestamp + ".zip", a, b)
  {
    var t := fqdn + "--" + timestamp + ".zip";
    var i := |fqdn|;
    forall a, b | i < a
      ensures !Fits(t, a, b)
    {
      if Fits(t, a, b) {
        if a > i + 1 {
          var k := a - i - 2;
          assert t[a] == timestamp[k] && t[a + 1] == timestamp[k + 1];
          assert OccursAt(timestamp, "--", k);
          ContainsAt(timestamp, "--");
        }
      }
    }
  }

  // ---------------------------------------------------------------------
  // Source type of a result file
  // ---------------------------------------------------------------------

  /** The encoded `/` that artifact result files carry in their names. */
  const EncodedSlash: string := "%2F"

  /** `%2F` written back as a dot, as the desanitising rename does. */
  function Desanitize(name: string): (r: string)
    ensures !Contains(r, EncodedSlash)
  {
    ReplaceAllRemoves(name, EncodedSlash, '.');
    ReplaceAll(name, EncodedSlash, ".")
  }

  /** A name that has been desanitised is left alone by a second pass. */
  lemma DesanitizeIdempotent(name: string)
    ensures Desanitize(Desanitize(name)) == Desanitize(name)
  {
    ReplaceAllAbsent(Desanitize(name), EncodedSlash, ".");
  }

  /** A name without `%2F` is left as it is. */
  lemma DesanitizePlain(name: string)
    requires !Contains(name, EncodedSlash)
    ensures Desanitize(name) == name
  {
    ReplaceAllAbsent(name, EncodedSlash, ".");
  }

  /** The name `get_source_type` splits: desanitised, every `.json` removed. */
  function TypedName(filename: string): string {
    ReplaceAll(Desanitize(filename), ".json", "")
  }

  /** `get_source_type`: the last dot-separated piece of the desanitised
      name without `.json`, i.e. its longest dot-free suffix. (`split`
      never returns an empty list, so the `'Unknown'` default cannot be
      taken.) */
  function SourceType(filename: string): (r: string)
    ensures '.' !in r && SuffixAfter(TypedName(filename), r, '.')
  {
    var parts := SplitOn(TypedName(filename), '.');
    SplitLast(TypedName(filename), '.');
    parts[|parts| - 1]
  }

  /** A result file has the same source type before and after the rename
      that turns `%2F` into dots. */
  lemma SourceTypeAfterRename(filename: string)
    ensures SourceType(Desanitize(filename)) == SourceType(filename)
  {
    DesanitizeIdempotent(filename);
  }
}

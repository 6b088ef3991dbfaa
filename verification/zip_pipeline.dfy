/** `process_single_zip` of `process_zip_files.py`: one collection archive
    goes through extraction, the `%2F` rename pass, reading the
    BasicInformation document and stamping the result files with the host
    description, each step only when the one before it gave something to
    work on. Extraction itself is an outcome handed in. */
module ZipPipeline {
  import opened Json
  import opened Wrappers
  import opened SystemInfo
  import opened Enrichment
  import opened Renaming

  /** What processing one archive meets: whether it extracts; the extracted
      tree and the order `os.walk` lists its entries in; the BasicInformation
      document (whether it exists and what parsing it gives); and the
      `results` directory with its files, as they are after renaming. */
  datatype ZipEnv = ZipEnv(
    extractOk: bool,
    tree: Tree, listing: seq<Path>,
    basicExists: bool, basicParsed: Option<Json>,
    resultsDirExists: bool, files: seq<JsonFile>)

  /** How processing one archive ends: extraction failed; the tree was
      renamed but no host description was found; reading the document
      raised; or the result files were stamped with the description. */
  datatype ZipOutcome =
    | ExtractFailed
    | NoSystemInfo(tree: Tree)
    | Crashed(tree: Tree)
    | Enriched(tree: Tree, info: Record, files: seq<JsonFile>)

  /** The tree an outcome leaves, when extraction succeeded. */
  function RenamedTree(o: ZipOutcome): Tree
    requires !o.ExtractFailed?
  {
    match o
    case NoSystemInfo(t) => t
    case Crashed(t) => t
    case Enriched(t, _, _) => t
  }

  /** The steps of `process_single_zip`, in order. */
  method ProcessSingleZip(env: ZipEnv) returns (o: ZipOutcome)
    ensures o.ExtractFailed? <==> !env.extractOk
    ensures !o.ExtractFailed? ==> RenamedTree(o) == ZipRename(env.tree, env.listing)
    ensures o.Crashed? <==> env.extractOk && ZipBasicInformation(env.basicExists, env.basicParsed).Crash?
    ensures o.Enriched? <==> env.extractOk && ZipBasicInformation(env.basicExists, env.basicParsed).Info?
    ensures o.Enriched? ==> o.info == ZipBasicInformation(env.basicExists, env.basicParsed).info && o.info != map[]
    ensures o.Enriched? ==> o.files == if env.resultsDirExists then EnrichResults(env.files, false, o.info) else env.files
  {
    if !env.extractOk {
      return ExtractFailed;
    }
    var tree := ZipRename(env.tree, env.listing);
    var basic := ZipBasicInformation(env.basicExists, env.basicParsed);
    match basic {
      case Crash =>
        return Crashed(tree);
      case NoInfo =>
        return NoSystemInfo(tree);
      case Info(info) =>
        var files := UpdateJsonFiles(env.resultsDirExists, env.files, info);
        return Enriched(tree, info, files);
    }
  }

  /** The result files are stamped only with a non-empty description read
      from an object document that exists, and doing it again changes
      nothing. */
  lemma EnrichmentNeedsInfo(env: ZipEnv, info: Record)
    requires env.extractOk && ZipBasicInformation(env.basicExists, env.basicParsed) == Info(info)
    ensures env.basicExists && env.basicParsed.Some? && env.basicParsed.value.JObject?
    ensures info != map[] && info.Keys <= TargetKeys
    ensures EnrichResults(EnrichResults(env.files, false, info), false, info) == EnrichResults(env.files, false, info)
  {
    EnrichResultsIdempotent(env.files, false, info);
  }
}

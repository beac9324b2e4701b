/**
 * The guard of `extractBundledServerJar`: the server jar's bundle metadata must be present
 * and must list exactly one version entry; that entry is then unpacked from the bundled jar
 * to the extracted jar.
 */
module Bundle {
  import opened Wrappers
  import opened Paths

  /** One entry of META-INF/versions.list: where the jar sits inside the bundle. */
  datatype BundleEntry = BundleEntry(name: string, path: string)

  datatype BundleMetadata = BundleMetadata(versions: seq<BundleEntry>)

  datatype ExtractError =
    | MissingBundleMetadata(message: string)   // the NullPointerException of Objects.requireNonNull
    | UnexpectedVersionCount(count: nat)       // the UnsupportedOperationException, with the size it saw

  const MissingBundleMetadataMessage: string := "Cannot bundled mc jar from none bundled server jar"

  /** The unpack the guard lets through: which entry, from which jar, to which file. */
  datatype Unpack = Unpack(entry: BundleEntry, from: Path, to: Path)

  function ExtractCheck(metadata: Option<BundleMetadata>, bundledJar: Path, extractedJar: Path)
    : (r: Result<Unpack, ExtractError>)
    ensures r.Ok? ==> metadata == Some(BundleMetadata([r.value.entry]))
    ensures r.Ok? ==> r.value.from == bundledJar && r.value.to == extractedJar
    ensures r.Err? && metadata.None? ==> r.error == MissingBundleMetadata(MissingBundleMetadataMessage)
    ensures r.Err? && metadata.Some? ==>
      |metadata.value.versions| != 1 && r.error == UnexpectedVersionCount(|metadata.value.versions|)
  {
    match metadata
    case None => Err(MissingBundleMetadata(MissingBundleMetadataMessage))
    case Some(m) =>
      if |m.versions| != 1 then Err(UnexpectedVersionCount(|m.versions|))
      else
        assert m.versions == [m.versions[0]];
        Ok(Unpack(m.versions[0], bundledJar, extractedJar))
  }

  /** Extraction goes ahead exactly when the metadata lists a single version entry. */
  lemma ExtractSucceedsIffSingleVersion(metadata: Option<BundleMetadata>, bundledJar: Path, extractedJar: Path)
    ensures ExtractCheck(metadata, bundledJar, extractedJar).Ok?
        <==> metadata.Some? && |metadata.value.versions| == 1
  {
  }

  /** Any other count is refused with that count, whatever the entries are. */
  lemma ExtractReportsCount(versions: seq<BundleEntry>, bundledJar: Path, extractedJar: Path)
    requires |versions| != 1
    ensures ExtractCheck(Some(BundleMetadata(versions)), bundledJar, extractedJar)
         == Err(UnexpectedVersionCount(|versions|))
  {
  }
}

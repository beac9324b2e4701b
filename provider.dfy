/**
 * `SpigotProvider` itself: `provide` records the dependency version, splits and checks it,
 * fills in the derived versions, lays out the working directory and issues the download;
 * `extractBundledServerJar` runs the single-entry guard over the bundle metadata.
 */
module Provider {
  import opened Wrappers
  import opened Strings
  import opened Paths
  import opened Versions
  import opened Locations
  import opened Bundle

  /** What `downloadJars` hands to the download executor: the URL and the file to write. */
  datatype DownloadRequest = DownloadRequest(url: string, destination: Path)

  class SpigotProvider {
    /** The Gradle user cache of the Loom extension, supplied by the build. */
    const userCache: Path

    /** The dependency version as given, and the three versions derived from its pieces. */
    var minecraftVersion: string
    var spigotApiVersion: string
    var spigotSnapshotVersion: string
    var spigotVersion: string

    var workingDir: Path
    var spigotBundledServerJar: Path
    var spigotExtractedServerJar: Path
    var serverBundleMetadata: Option<BundleMetadata>

    constructor (userCache: Path)
      ensures this.userCache == userCache
      ensures serverBundleMetadata == None
      ensures minecraftVersion == spigotApiVersion == spigotSnapshotVersion == spigotVersion == ""
      ensures workingDir == spigotBundledServerJar == spigotExtractedServerJar == []
    {
      this.userCache := userCache;
      minecraftVersion, spigotApiVersion, spigotSnapshotVersion, spigotVersion := "", "", "", "";
      workingDir, spigotBundledServerJar, spigotExtractedServerJar := [], [], [];
      serverBundleMetadata := None;
    }

    /**
     * The files `initFiles` lays out for the current `spigotVersion`: the working directory
     * and the two jars directly inside it.
     */
    ghost predicate FilesInitialised()
      reads this
    {
      workingDir == WorkingDir(userCache, spigotVersion) &&
      spigotBundledServerJar == workingDir + [BundledServerJarName] &&
      spigotExtractedServerJar == workingDir + [ExtractedServerJarName]
    }

    /** The state a `provide` that returned normally leaves behind. */
    ghost predicate Provided()
      reads this
    {
      ParseVersion(spigotVersion)
        == Ok(VersionToken(spigotVersion, minecraftVersion, spigotApiVersion, spigotSnapshotVersion)) &&
      FilesInitialised()
    }

    /** `file(path)`: a file inside the working directory. */
    function File(path: string): (f: Path)
      reads this
      ensures |f| >= |workingDir| && f[..|workingDir|] == workingDir
    {
      Child(workingDir, path)
    }

    method Provide(version: string) returns (r: Result<DownloadRequest, ParseError>)
      modifies this
      ensures spigotVersion == version
      ensures serverBundleMetadata == old(serverBundleMetadata)
      ensures r.Err? <==> ParseVersion(version).Err?
      ensures r.Err? ==> r.error == MalformedVersion(MalformedVersionMessage)
      ensures r.Err? ==>
        minecraftVersion == old(minecraftVersion) && spigotApiVersion == old(spigotApiVersion) &&
        spigotSnapshotVersion == old(spigotSnapshotVersion) && workingDir == old(workingDir) &&
        spigotBundledServerJar == old(spigotBundledServerJar) &&
        spigotExtractedServerJar == old(spigotExtractedServerJar)
      ensures r.Ok? ==> Provided()
      ensures r.Ok? ==> r.value == DownloadRequest(DownloadUrl(spigotSnapshotVersion, version), spigotBundledServerJar)
    {
      spigotVersion := version;
      var splitVer := JavaSplit(version, '-');
      if |splitVer| != 4 {
        return Err(MalformedVersion(MalformedVersionMessage));
      }

      minecraftVersion := splitVer[0];
      spigotApiVersion := splitVer[1];
      spigotSnapshotVersion := minecraftVersion + "-" + spigotApiVersion + "-SNAPSHOT";

      InitFiles();

      var request := DownloadJars(version);
      r := Ok(request);
    }

    method InitFiles()
      modifies this`workingDir, this`spigotBundledServerJar, this`spigotExtractedServerJar
      ensures FilesInitialised()
    {
      workingDir := Child(userCache, "spigot/" + spigotVersion);
      spigotBundledServerJar := File(BundledServerJarName);
      spigotExtractedServerJar := File(ExtractedServerJarName);
      BundledJarInsideWorkingDir(workingDir);
      ExtractedJarInsideWorkingDir(workingDir);
    }

    method DownloadJars(version: string) returns (request: DownloadRequest)
      ensures request.url == DownloadUrl(spigotSnapshotVersion, version)
      ensures request.destination == spigotBundledServerJar
    {
      var url := RepositoryBase + spigotSnapshotVersion + "/spigot-" + version + ArtifactSuffix;
      request := DownloadRequest(url, spigotBundledServerJar);
    }

    method ExtractBundledServerJar() returns (r: Result<Unpack, ExtractError>)
      ensures r == ExtractCheck(serverBundleMetadata, spigotBundledServerJar, spigotExtractedServerJar)
    {
      if serverBundleMetadata.None? {
        return Err(MissingBundleMetadata(MissingBundleMetadataMessage));
      }
      var versions := serverBundleMetadata.value.versions;
      if |versions| != 1 {
        return Err(UnexpectedVersionCount(|versions|));
      }
      r := Ok(Unpack(versions[0], spigotBundledServerJar, spigotExtractedServerJar));
    }
  }

  /**
   * After a successful `provide`: the version has the four-segment shape led by the two
   * recorded fields, the working directory is the cache, "spigot" and the version's names,
   * and the two jars are different files directly inside it.
   */
  lemma ProvidedLayout(p: SpigotProvider)
    requires p.Provided()
    ensures p.spigotSnapshotVersion == p.minecraftVersion + "-" + p.spigotApiVersion + "-SNAPSHOT"
    ensures exists c, d, k :: Shaped(p.spigotVersion, p.minecraftVersion, p.spigotApiVersion, c, d, k)
    ensures p.workingDir == p.userCache + ["spigot"] + Names(p.spigotVersion)
    ensures p.spigotBundledServerJar == p.workingDir + [BundledServerJarName]
    ensures p.spigotExtractedServerJar == p.workingDir + [ExtractedServerJarName]
    ensures p.spigotBundledServerJar != p.spigotExtractedServerJar
  {
    ParseOkShaped(p.spigotVersion);
    WorkingDirLayout(p.userCache, p.spigotVersion);
    assert |BundledServerJarName| != |ExtractedServerJarName|;
    assert p.spigotBundledServerJar[|p.workingDir|] == BundledServerJarName;
  }
}

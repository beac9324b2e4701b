/**
 * Where the provider puts and fetches things: the per-version working directory under
 * the Gradle user cache, the two jar files inside it, and the CodeMC download URL.
 */
module Locations {
  import opened Strings
  import opened Paths
  import opened Versions

  const RepositoryBase: string := "https://repo.codemc.io/repository/nms/org/spigotmc/spigot/"
  const ArtifactSuffix: string := "-remapped-mojang.jar"
  const BundledServerJarName: string := "spigot-server.jar"
  const ExtractedServerJarName: string := "spigot-extracted_server.jar"

  /** `new File(userCache, "spigot/" + spigotVersion)`. */
  function WorkingDir(userCache: Path, spigotVersion: string): Path
  {
    Child(userCache, "spigot/" + spigotVersion)
  }

  /** The URL `downloadJars` fetches the remapped server jar from. */
  function DownloadUrl(snapshotVersion: string, version: string): string
  {
    RepositoryBase + snapshotVersion + "/spigot-" + version + ArtifactSuffix
  }

  /** The working directory is the cache, then "spigot", then the names of the version string. */
  lemma WorkingDirLayout(userCache: Path, spigotVersion: string)
    ensures WorkingDir(userCache, spigotVersion) == userCache + ["spigot"] + Names(spigotVersion)
  {
    assert "spigot/" + spigotVersion == "spigot" + "/" + spigotVersion;
    NamesOfNested("spigot", spigotVersion);
  }

  /** An accepted version without a separator is exactly one directory under "spigot". */
  lemma WorkingDirOfPlainVersion(userCache: Path, spigotVersion: string)
    requires ParseVersion(spigotVersion).Ok? && '/' !in spigotVersion
    ensures WorkingDir(userCache, spigotVersion) == userCache + ["spigot", spigotVersion]
  {
    WorkingDirLayout(userCache, spigotVersion);
    assert spigotVersion != [];
    NamesOfName(spigotVersion);
  }

  /** Accepted versions without a separator share a working directory only when they are equal. */
  lemma WorkingDirsSeparateVersions(userCache: Path, v1: string, v2: string)
    requires ParseVersion(v1).Ok? && '/' !in v1
    requires ParseVersion(v2).Ok? && '/' !in v2
    ensures WorkingDir(userCache, v1) == WorkingDir(userCache, v2) <==> v1 == v2
  {
    WorkingDirOfPlainVersion(userCache, v1);
    WorkingDirOfPlainVersion(userCache, v2);
    if WorkingDir(userCache, v1) == WorkingDir(userCache, v2) {
      assert WorkingDir(userCache, v1)[|userCache| + 1] == v1;
    }
  }

  /**
   * A separator inside the version breaks that separation: a '/' after the fourth segment
   * still passes the parser (it becomes part of that segment), but File normalisation
   * removes it, so two different accepted versions share one working directory.
   */
  lemma TrailingSeparatorSharesWorkingDir(userCache: Path, v: string, a: string, b: string, c: string, d: string)
    requires Shaped(v, a, b, c, d, 0)
    ensures ParseVersion(v).Ok? && ParseVersion(v + "/").Ok? && v != v + "/"
    ensures WorkingDir(userCache, v + "/") == WorkingDir(userCache, v)
  {
    ParseShaped(v, a, b, c, d, 0);
    assert Repeat('-', 0) == [];
    assert v + "/" == a + "-" + b + "-" + c + "-" + (d + "/") + Repeat('-', 0);
    ParseShaped(v + "/", a, b, c, d + "/", 0);
    assert |v + "/"| != |v|;
    WorkingDirLayout(userCache, v + "/");
    WorkingDirLayout(userCache, v);
    NamesTrailingSeparator(v);
  }

  /** The bundled jar sits directly inside the working directory. */
  lemma BundledJarInsideWorkingDir(workingDir: Path)
    ensures Child(workingDir, BundledServerJarName) == workingDir + [BundledServerJarName]
  {
    ChildOfName(workingDir, BundledServerJarName);
  }

  /** The extracted jar sits directly inside the working directory. */
  lemma ExtractedJarInsideWorkingDir(workingDir: Path)
    ensures Child(workingDir, ExtractedServerJarName) == workingDir + [ExtractedServerJarName]
  {
    ChildOfName(workingDir, ExtractedServerJarName);
  }

  /** The bundled and the extracted jar are never the same file. */
  lemma JarsDistinct(workingDir: Path)
    ensures Child(workingDir, BundledServerJarName) != Child(workingDir, ExtractedServerJarName)
  {
    BundledJarInsideWorkingDir(workingDir);
    ExtractedJarInsideWorkingDir(workingDir);
    assert |BundledServerJarName| != |ExtractedServerJarName|;
    assert (workingDir + [BundledServerJarName])[|workingDir|] == BundledServerJarName;
  }

  /** Splitting at the first occurrence of a character that the heads do not contain. */
  lemma SplitAtFirst(x1: string, y1: string, x2: string, y2: string, c: char)
    requires c !in x1 && c !in x2
    requires x1 + [c] + y1 == x2 + [c] + y2
    ensures x1 == x2 && y1 == y2
  {
    SplitAllCons(x1, y1, c);
    SplitAllCons(x2, y2, c);
    assert ([x1] + SplitAll(y1, c))[0] == x1;
    assert ([x2] + SplitAll(y2, c))[0] == x2;
    assert y1 == (x1 + [c] + y1)[|x1| + 1..];
    assert y2 == (x2 + [c] + y2)[|x2| + 1..];
  }

  /**
   * A URL of this template determines the version: the dash-free Minecraft and API versions
   * end at the first and second '-', and the version sits between a fixed prefix and the suffix.
   */
  lemma UrlTemplateDeterminesVersion(base: string, suffix: string,
                                     a1: string, b1: string, v1: string,
                                     a2: string, b2: string, v2: string)
    requires '-' !in a1 && '-' !in b1 && '-' !in a2 && '-' !in b2
    requires base + SnapshotVersion(a1, b1) + "/spigot-" + v1 + suffix
          == base + SnapshotVersion(a2, b2) + "/spigot-" + v2 + suffix
    ensures a1 == a2 && b1 == b2 && v1 == v2
  {
    var t := "SNAPSHOT/spigot-";
    var r1, r2 := t + v1 + suffix, t + v2 + suffix;
    var w1, w2 := b1 + "-" + r1, b2 + "-" + r2;
    assert "-SNAPSHOT" + "/spigot-" == "-" + t;
    assert base + SnapshotVersion(a1, b1) + "/spigot-" + v1 + suffix == base + (a1 + "-" + w1);
    assert base + SnapshotVersion(a2, b2) + "/spigot-" + v2 + suffix == base + (a2 + "-" + w2);
    assert a1 + "-" + w1 == (base + (a1 + "-" + w1))[|base|..];
    assert a2 + "-" + w2 == (base + (a2 + "-" + w2))[|base|..];
    SplitAtFirst(a1, w1, a2, w2, '-');
    SplitAtFirst(b1, r1, b2, r2, '-');
    assert v1 == r1[|t|..|r1| - |suffix|];
    assert v2 == r2[|t|..|r2| - |suffix|];
  }

  /** For accepted versions, the download URL identifies the version. */
  lemma DownloadUrlIdentifiesVersion(v1: string, v2: string)
    requires ParseVersion(v1).Ok? && ParseVersion(v2).Ok?
    ensures (DownloadUrl(ParseVersion(v1).value.snapshotVersion, v1)
          == DownloadUrl(ParseVersion(v2).value.snapshotVersion, v2)) <==> v1 == v2
  {
    var t1, t2 := ParseVersion(v1).value, ParseVersion(v2).value;
    if DownloadUrl(t1.snapshotVersion, v1) == DownloadUrl(t2.snapshotVersion, v2) {
      ParseOkShaped(v1);
      ParseOkShaped(v2);
      var c1, d1, k1 :| Shaped(v1, t1.minecraftVersion, t1.spigotApiVersion, c1, d1, k1);
      var c2, d2, k2 :| Shaped(v2, t2.minecraftVersion, t2.spigotApiVersion, c2, d2, k2);
      UrlTemplateDeterminesVersion(RepositoryBase, ArtifactSuffix,
                                   t1.minecraftVersion, t1.spigotApiVersion, v1,
                                   t2.minecraftVersion, t2.spigotApiVersion, v2);
    }
  }

  /**
   * The URL follows the repository template
   * <base><minecraft>-<api>-SNAPSHOT/spigot-<version>-remapped-mojang.jar.
   */
  lemma DownloadUrlTemplate(v: string, a: string, b: string, c: string, d: string, k: nat)
    requires Shaped(v, a, b, c, d, k)
    ensures ParseVersion(v).Ok?
    ensures DownloadUrl(ParseVersion(v).value.snapshotVersion, v)
         == RepositoryBase + a + "-" + b + "-SNAPSHOT" + "/spigot-" + v + "-remapped-mojang.jar"
  {
    ParseShaped(v, a, b, c, d, k);
  }
}

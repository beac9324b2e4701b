# SpigotProvider version resolution, in Dafny

This project models the logic of `SpigotProvider` in the SilkPowered fork of fabric-loom, a
Gradle plugin. The provider takes the version of the `spigot` dependency, for example
`1.19.3-R0.1-20230314.170437-5` from the CodeMC nms repository. It then:

- splits the version on `-` and refuses anything that does not give exactly four pieces;
- records piece 0 as the Minecraft version and piece 1 as the Spigot API version;
- derives the Maven snapshot version `<minecraft>-<api>-SNAPSHOT`;
- lays out a working directory `<user cache>/spigot/<version>` holding `spigot-server.jar` and
  `spigot-extracted_server.jar`;
- downloads the remapped server jar from a URL built from the snapshot version and the raw version.

A second operation, `extractBundledServerJar`, guards the unpacking of the server jar out of a
bundle. The bundle metadata must be present and must list exactly one version entry.

Modules, leaf first:

- `Wrappers`: `Option` and `Result`. They stand in for Java's nullable references and thrown exceptions.
- `Strings`: `java.lang.String.split` on a one-character literal delimiter. Java keeps leading and
  interior empty pieces and drops the trailing ones. A string without the delimiter comes back
  whole, so `"".split("-")` is `[""]` and `"-".split("-")` is `[]`.
- `Paths`: `java.io.File(parent, child)` on Unix. A path is a sequence of names. The child string is
  cut at `/`, and empty pieces are dropped, which is File's removal of duplicate and trailing separators.
- `Versions`: the version token, its parser and the snapshot version.
- `Locations`: the working directory, the two jar files and the download URL.
- `Bundle`: the single-version-entry guard of the extraction.
- `Provider`: the `SpigotProvider` class. Its `Provide` and `InitFiles` methods assign the object's
  fields one after another, as the Java methods do.

Facts about the code that shape the model:

- The artifact file name in the download URL uses the raw version (line 104).
- Working directories are guaranteed distinct only among versions without `/`
  (`Locations.WorkingDirsSeparateVersions`). For versions with `/` uniqueness cannot be guaranteed,
  though many of them still get different directories. File normalisation makes `v` and `v/` one
  directory, and the parser accepts both (`Locations.TrailingSeparatorSharesWorkingDir`).
- Every version count other than 1 raises the same exception, carrying the count (lines 118-120).
- The metadata loading and the call to `extractBundledServerJar` are commented out (lines 69-71).
  So `serverBundleMetadata` is never assigned, and extraction could only fail on the missing
  metadata. The class keeps the field at `None` (the constructor sets it and `Provide` preserves
  it). The success path is proved on the pure `Bundle.ExtractCheck`.

## Model

| member | source | states |
|---|---|---|
| Strings.SplitAllJoin | src/main/java/cx/rain/silkplugin/SpigotProvider.java:56 | no piece of a full split on `-` contains `-`, and joining the pieces with `-` gives the string back |
| Strings.SplitAllOfJoin | src/main/java/cx/rain/silkplugin/SpigotProvider.java:56 | splitting undoes joining, for pieces free of the delimiter |
| Strings.DropTrailingEmpty | src/main/java/cx/rain/silkplugin/SpigotProvider.java:56 | Java's trailing-empty removal: the result is a prefix of the pieces, every piece dropped is empty, and the last piece kept is non-empty |
| Strings.JavaSplitReconstructs | src/main/java/cx/rain/silkplugin/SpigotProvider.java:56 | when the delimiter occurs, the full split is the Java result followed by empty pieces, and the string is the result joined back plus one delimiter per dropped piece |
| Strings.JavaSplitOfJoin | src/main/java/cx/rain/silkplugin/SpigotProvider.java:56 | `split` returns exactly the pieces a string was joined from, when they are delimiter-free and the last one is non-empty |
| Versions.ParseShaped | src/main/java/cx/rain/silkplugin/SpigotProvider.java:55-63 | every version `a-b-c-d` plus any trailing dashes, with dash-free segments and a non-empty `d`, is accepted, with `a` as Minecraft version, `b` as API version and `a-b-SNAPSHOT` as snapshot version |
| Versions.ParseOkShaped | src/main/java/cx/rain/silkplugin/SpigotProvider.java:56-63 | every accepted version has that shape, led by the two recorded fields, and its snapshot version is built from them |
| Versions.ParseAcceptsExactlyShaped | src/main/java/cx/rain/silkplugin/SpigotProvider.java:56-59 | the parser accepts a version if and only if it has the four-segment shape |
| Versions.ParseRejectsOtherCounts | src/main/java/cx/rain/silkplugin/SpigotProvider.java:57-59 | any other number of segments (the last non-empty), including a version without a dash, fails with the CodeMC error message |
| Versions.ExampleAccepted | src/main/java/cx/rain/silkplugin/SpigotProvider.java:58-63 | `1.19.3-R0.1-20230314.170437-5` gives Minecraft version `1.19.3`, API version `R0.1` and snapshot version `1.19.3-R0.1-SNAPSHOT` |
| Versions.ExampleTwoSegmentsRejected | src/main/java/cx/rain/silkplugin/SpigotProvider.java:57-59 | `1.19.3-R0.1` is rejected with the error |
| Versions.TrailingDashesIgnored | src/main/java/cx/rain/silkplugin/SpigotProvider.java:56-62 | trailing dashes after a well-formed version change only the raw version, not the parsed fields |
| Versions.LeadingDashGivesEmptyMinecraftVersion | src/main/java/cx/rain/silkplugin/SpigotProvider.java:56-63 | a leading dash is accepted and yields an empty Minecraft version |
| Versions.SnapshotIgnoresBuildSegments | src/main/java/cx/rain/silkplugin/SpigotProvider.java:63 | two versions that agree on their first two segments have the same snapshot version, whatever segments 3 and 4 are |
| Versions.SnapshotSplitsBack | src/main/java/cx/rain/silkplugin/SpigotProvider.java:63 | the snapshot version splits back into Minecraft version, API version and `SNAPSHOT` |
| Versions.SnapshotInjective | src/main/java/cx/rain/silkplugin/SpigotProvider.java:61-63 | parsed versions with equal snapshot versions have equal Minecraft and API versions |
| Paths.Names | src/main/java/cx/rain/silkplugin/SpigotProvider.java:81 | the names a child string adds to a path are non-empty and free of separators |
| Paths.NamesOfName | src/main/java/cx/rain/silkplugin/SpigotProvider.java:96-98 | a plain name adds exactly itself |
| Paths.ChildOfName | src/main/java/cx/rain/silkplugin/SpigotProvider.java:96-98 | `new File(parent, name)` for a plain name is one level below the parent |
| Paths.NamesOfNested | src/main/java/cx/rain/silkplugin/SpigotProvider.java:81 | `dir/rest` adds `dir` and then the names of `rest` |
| Paths.NamesTrailingSeparator | src/main/java/cx/rain/silkplugin/SpigotProvider.java:81 | a trailing `/` adds nothing |
| Paths.ChildExtends | src/main/java/cx/rain/silkplugin/SpigotProvider.java:96-98 | a child path extends its parent and stays well formed |
| Locations.WorkingDirLayout | src/main/java/cx/rain/silkplugin/SpigotProvider.java:81 | the working directory is the user cache, then `spigot`, then the names of the version |
| Locations.WorkingDirOfPlainVersion | src/main/java/cx/rain/silkplugin/SpigotProvider.java:81 | for an accepted version without `/`, the working directory is `<cache>/spigot/<version>` |
| Locations.WorkingDirsSeparateVersions | src/main/java/cx/rain/silkplugin/SpigotProvider.java:81 | accepted versions without `/` share a working directory if and only if they are equal |
| Locations.TrailingSeparatorSharesWorkingDir | src/main/java/cx/rain/silkplugin/SpigotProvider.java:81 | a version and the same version plus `/` are both accepted and are different strings, yet map to the same working directory |
| Locations.BundledJarInsideWorkingDir | src/main/java/cx/rain/silkplugin/SpigotProvider.java:84 | `spigot-server.jar` lies directly inside the working directory |
| Locations.ExtractedJarInsideWorkingDir | src/main/java/cx/rain/silkplugin/SpigotProvider.java:85 | `spigot-extracted_server.jar` lies directly inside the working directory |
| Locations.JarsDistinct | src/main/java/cx/rain/silkplugin/SpigotProvider.java:84-85 | the two jar files are never the same file |
| Locations.UrlTemplateDeterminesVersion | src/main/java/cx/rain/silkplugin/SpigotProvider.java:104 | in a URL of the form base, `<minecraft>-<api>-SNAPSHOT`, `/spigot-`, version, suffix, with dash-free Minecraft and API versions, all three parts are determined by the URL |
| Locations.DownloadUrlIdentifiesVersion | src/main/java/cx/rain/silkplugin/SpigotProvider.java:104 | for accepted versions, equal download URLs mean equal versions, and equal versions give equal URLs |
| Locations.DownloadUrlTemplate | src/main/java/cx/rain/silkplugin/SpigotProvider.java:104 | the URL is the CodeMC base, `<minecraft>-<api>-SNAPSHOT`, `/spigot-`, the raw version and `-remapped-mojang.jar` |
| Bundle.ExtractCheck | src/main/java/cx/rain/silkplugin/SpigotProvider.java:113-123 | success means the metadata is present and lists exactly the one unpacked entry, from the bundled jar to the extracted jar; absent metadata fails with the null-check message; any other count fails carrying that count |
| Bundle.ExtractSucceedsIffSingleVersion | src/main/java/cx/rain/silkplugin/SpigotProvider.java:114-122 | extraction goes ahead if and only if the metadata is present and lists one version entry |
| Bundle.ExtractReportsCount | src/main/java/cx/rain/silkplugin/SpigotProvider.java:118-120 | with any count other than one, the error carries the actual count |
| Provider.SpigotProvider.constructor | src/main/java/cx/rain/silkplugin/SpigotProvider.java:33-46 | a new provider keeps the user cache it was given, has no bundle metadata, and holds the null stand-ins: empty strings for the four versions and empty paths for the working directory and both jars |
| Provider.SpigotProvider.Provide | src/main/java/cx/rain/silkplugin/SpigotProvider.java:52-78 | `spigotVersion` is always recorded; it fails exactly when the parser rejects, leaving the other fields unchanged; on success the fields hold the parsed token and the initialised files, and the request downloads the URL into the bundled jar |
| Provider.SpigotProvider.InitFiles | src/main/java/cx/rain/silkplugin/SpigotProvider.java:80-86 | the working directory is derived from the user cache and `spigotVersion`, and the two jars lie directly inside it |
| Provider.SpigotProvider.File | src/main/java/cx/rain/silkplugin/SpigotProvider.java:96-98 | `file(path)` lies inside the working directory |
| Provider.SpigotProvider.DownloadJars | src/main/java/cx/rain/silkplugin/SpigotProvider.java:100-110 | the request fetches the URL built from the recorded snapshot version and the given version into the bundled jar |
| Provider.SpigotProvider.ExtractBundledServerJar | src/main/java/cx/rain/silkplugin/SpigotProvider.java:113-123 | the step-by-step guard gives the same outcome as `Bundle.ExtractCheck` on the provider's fields |
| Provider.ProvidedLayout | src/main/java/cx/rain/silkplugin/SpigotProvider.java:55-85 | after a successful `provide`: the version has the four-segment shape led by the two recorded fields, the snapshot version is built from them, the working directory is `<cache>/spigot/<names of version>`, and the two jars are distinct files directly inside it |

## Left out

- Gradle plumbing is outside the model: `DependencyInfo.create`, `getDepString`, `LoomGradleExtension`
  and `MinecraftSourceSets.applyDependencies` / `project.getDependencies().add` (lines 53, 74-77, 88-90).
  The dependency version is the argument of `Provide`. The user cache is a constructor argument.
  The registration of the dependency in the `named` source set is not modelled.
- The download itself is outside the model (lines 101-109): the two-thread `DownloadExecutor`, the
  network transfer, the progress listener and the commented-out sha1 check. `DownloadJars` returns
  the URL and destination it would hand over. A failed download is not modelled.
- `workingDir.mkdirs()` (line 82) and `unpackEntry` (line 122) are file-system effects. The
  extraction is modelled as the selection of entry 0 together with its source and destination.
- `BundleMetadata.fromJar` (line 69) parses a jar with a library that is not part of this model,
  and the call is commented out. A bundle entry is modelled as a name and an archive path.
- Logging (lines 116, 130-132) and the trivial getters (`getProject`, `getWorkingDir`,
  `getServerBundleMetadata`, `getExtension`) are left out; the model reads the fields directly.
- Java `null` for fields before `provide` runs is modelled as empty strings and paths.
- Bundle.ExtractCheck: the unsupported-count error carries the count, not the formatted message text "Expected only 1 version in META-INF/versions.list, but got %d".
- `String.split` takes a regular expression. Only the single literal character `-` that the source
  passes is modelled.
- Paths follow Unix `java.io.File`. Windows separators and drive prefixes are not modelled.
- The full download URL of the example version is not stated as one literal string. It follows
  from `Versions.ExampleAccepted` together with `Locations.DownloadUrlTemplate`.

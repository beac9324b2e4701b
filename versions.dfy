/**
 * The version token of `SpigotProvider.provide`: the dependency version, a timestamped
 * snapshot build number, must split on '-' into exactly four pieces; the first is the
 * Minecraft version, the second the Spigot API version, and the Maven snapshot version is
 * rebuilt from those two.
 */
module Versions {
  import opened Wrappers
  import opened Strings

  datatype VersionToken = VersionToken(
    raw: string,
    minecraftVersion: string,
    spigotApiVersion: string,
    snapshotVersion: string)

  /** The RuntimeException thrown for a version of the wrong shape. */
  datatype ParseError = MalformedVersion(message: string)

  const MalformedVersionMessage: string :=
    "Please use the version number from CodeMC nms repo. Like 1.19.3-R0.1-20230314.170437-5."

  function SnapshotVersion(minecraftVersion: string, spigotApiVersion: string): string
  {
    minecraftVersion + "-" + spigotApiVersion + "-SNAPSHOT"
  }

  function ParseVersion(raw: string): Result<VersionToken, ParseError>
  {
    var split := JavaSplit(raw, '-');
    if |split| != 4 then Err(MalformedVersion(MalformedVersionMessage))
    else Ok(VersionToken(raw, split[0], split[1], SnapshotVersion(split[0], split[1])))
  }

  /**
   * `raw` is four dash-free segments a-b-c-d, the last one non-empty, followed by `k`
   * dashes (Java drops the empty pieces those trailing dashes produce).
   */
  ghost predicate Shaped(raw: string, a: string, b: string, c: string, d: string, k: nat)
  {
    '-' !in a && '-' !in b && '-' !in c && '-' !in d && d != [] &&
    raw == a + "-" + b + "-" + c + "-" + d + Repeat('-', k)
  }

  lemma JoinFour(a: string, b: string, c: string, d: string)
    ensures Join([a, b, c, d], '-') == a + "-" + b + "-" + c + "-" + d
  {
    assert [a, b, c, d][1..] == [b, c, d];
    assert [b, c, d][1..] == [c, d];
    assert [c, d][1..] == [d];
    assert Join([c, d], '-') == c + "-" + d;
    assert Join([b, c, d], '-') == b + "-" + (c + "-" + d);
  }

  /** Every string of the four-segment shape is accepted, with the first two segments as its fields. */
  lemma ParseShaped(raw: string, a: string, b: string, c: string, d: string, k: nat)
    requires Shaped(raw, a, b, c, d, k)
    ensures ParseVersion(raw) == Ok(VersionToken(raw, a, b, SnapshotVersion(a, b)))
  {
    var parts := [a, b, c, d];
    JoinFour(a, b, c, d);
    JoinEmpties(parts, k, '-');
    assert raw == Join(parts + Empties(k), '-');
    SplitAllOfJoin(parts + Empties(k), '-');
    assert raw[|a|] == '-';
    DropEmptiesAfter(parts, k);
  }

  /** Every accepted string has the four-segment shape, led by the token's two fields. */
  lemma ParseOkShaped(raw: string)
    requires ParseVersion(raw).Ok?
    ensures var t := ParseVersion(raw).value;
      t.raw == raw && t.snapshotVersion == SnapshotVersion(t.minecraftVersion, t.spigotApiVersion) &&
      exists c, d, k :: Shaped(raw, t.minecraftVersion, t.spigotApiVersion, c, d, k)
  {
    var split := JavaSplit(raw, '-');
    assert '-' in raw;
    JavaSplitReconstructs(raw, '-');
    SplitAllJoin(raw, '-');
    var k := |SplitAll(raw, '-')| - |split|;
    forall i | 0 <= i < 4 ensures '-' !in split[i] {
      assert split[i] == SplitAll(raw, '-')[i];
    }
    JoinFour(split[0], split[1], split[2], split[3]);
    assert split == [split[0], split[1], split[2], split[3]];
    assert Shaped(raw, split[0], split[1], split[2], split[3], k);
  }

  /** `provide` accepts a version exactly when it has the four-segment shape. */
  lemma ParseAcceptsExactlyShaped(raw: string)
    ensures ParseVersion(raw).Ok? <==> exists a, b, c, d, k :: Shaped(raw, a, b, c, d, k)
  {
    if ParseVersion(raw).Ok? {
      ParseOkShaped(raw);
    }
    if exists a, b, c, d, k :: Shaped(raw, a, b, c, d, k) {
      var a, b, c, d, k :| Shaped(raw, a, b, c, d, k);
      ParseShaped(raw, a, b, c, d, k);
    }
  }

  /** The snapshot version depends on the first two segments only. */
  lemma SnapshotIgnoresBuildSegments(raw1: string, raw2: string, a: string, b: string,
                                     c1: string, d1: string, k1: nat,
                                     c2: string, d2: string, k2: nat)
    requires Shaped(raw1, a, b, c1, d1, k1) && Shaped(raw2, a, b, c2, d2, k2)
    ensures ParseVersion(raw1).Ok? && ParseVersion(raw2).Ok?
    ensures ParseVersion(raw1).value.snapshotVersion == ParseVersion(raw2).value.snapshotVersion
                                                     == a + "-" + b + "-SNAPSHOT"
  {
    ParseShaped(raw1, a, b, c1, d1, k1);
    ParseShaped(raw2, a, b, c2, d2, k2);
  }

  /** The snapshot version splits back into the two segments it was made of. */
  lemma SnapshotSplitsBack(minecraftVersion: string, spigotApiVersion: string)
    requires '-' !in minecraftVersion && '-' !in spigotApiVersion
    ensures JavaSplit(SnapshotVersion(minecraftVersion, spigotApiVersion), '-')
         == [minecraftVersion, spigotApiVersion, "SNAPSHOT"]
  {
    var parts := [minecraftVersion, spigotApiVersion, "SNAPSHOT"];
    assert parts[1..] == [spigotApiVersion, "SNAPSHOT"];
    assert [spigotApiVersion, "SNAPSHOT"][1..] == ["SNAPSHOT"];
    assert Join(parts[1..], '-') == spigotApiVersion + "-" + "SNAPSHOT";
    assert Join(parts, '-') == SnapshotVersion(minecraftVersion, spigotApiVersion);
    SplitAllOfJoin(parts, '-');
    assert SnapshotVersion(minecraftVersion, spigotApiVersion)[|minecraftVersion|] == '-';
  }

  /** Distinct (Minecraft, API) pairs of parsed tokens never share a snapshot version. */
  lemma SnapshotInjective(raw1: string, raw2: string)
    requires ParseVersion(raw1).Ok? && ParseVersion(raw2).Ok?
    requires ParseVersion(raw1).value.snapshotVersion == ParseVersion(raw2).value.snapshotVersion
    ensures ParseVersion(raw1).value.minecraftVersion == ParseVersion(raw2).value.minecraftVersion
    ensures ParseVersion(raw1).value.spigotApiVersion == ParseVersion(raw2).value.spigotApiVersion
  {
    var t1, t2 := ParseVersion(raw1).value, ParseVersion(raw2).value;
    ParseOkShaped(raw1);
    ParseOkShaped(raw2);
    SnapshotSplitsBack(t1.minecraftVersion, t1.spigotApiVersion);
    SnapshotSplitsBack(t2.minecraftVersion, t2.spigotApiVersion);
  }

  /** The version the error message itself names is accepted. */
  lemma ExampleAccepted()
    ensures ParseVersion("1.19.3-R0.1-20230314.170437-5")
         == Ok(VersionToken("1.19.3-R0.1-20230314.170437-5", "1.19.3", "R0.1", "1.19.3-R0.1-SNAPSHOT"))
  {
    assert Repeat('-', 0) == [];
    assert SnapshotVersion("1.19.3", "R0.1") == "1.19.3-R0.1-SNAPSHOT";
    ParseShaped("1.19.3-R0.1-20230314.170437-5", "1.19.3", "R0.1", "20230314.170437", "5", 0);
  }

  /**
   * Any other number of segments, the last non-empty, is rejected; in particular a version
   * without any dash.
   */
  lemma ParseRejectsOtherCounts(parts: seq<string>)
    requires |parts| >= 1 && |parts| != 4 && parts[|parts| - 1] != []
    requires forall i :: 0 <= i < |parts| ==> '-' !in parts[i]
    ensures ParseVersion(Join(parts, '-')) == Err(MalformedVersion(MalformedVersionMessage))
  {
    JavaSplitOfJoin(parts, '-');
  }

  /** Only two segments: rejected with the error. */
  lemma ExampleTwoSegmentsRejected()
    ensures ParseVersion("1.19.3-R0.1") == Err(MalformedVersion(MalformedVersionMessage))
  {
    var parts := ["1.19.3", "R0.1"];
    assert Join(parts, '-') == "1.19.3-R0.1";
    ParseRejectsOtherCounts(parts);
  }

  /** Trailing dashes only add empty last pieces, which Java drops: the token is unchanged. */
  lemma TrailingDashesIgnored(v: string, a: string, b: string, c: string, d: string, k: nat)
    requires Shaped(v, a, b, c, d, 0)
    ensures ParseVersion(v).Ok? && ParseVersion(v + Repeat('-', k)).Ok?
    ensures ParseVersion(v + Repeat('-', k)).value == ParseVersion(v).value.(raw := v + Repeat('-', k))
  {
    assert Repeat('-', 0) == [];
    ParseShaped(v, a, b, c, d, 0);
    ParseShaped(v + Repeat('-', k), a, b, c, d, k);
  }

  /** A leading dash keeps its empty first piece: accepted, with an empty Minecraft version. */
  lemma LeadingDashGivesEmptyMinecraftVersion(b: string, c: string, d: string)
    requires '-' !in b && '-' !in c && '-' !in d && d != []
    ensures ParseVersion("-" + b + "-" + c + "-" + d)
         == Ok(VersionToken("-" + b + "-" + c + "-" + d, "", b, "-" + b + "-SNAPSHOT"))
  {
    assert Repeat('-', 0) == [];
    assert "-" + b + "-" + c + "-" + d == [] + "-" + b + "-" + c + "-" + d + Repeat('-', 0);
    ParseShaped("-" + b + "-" + c + "-" + d, [], b, c, d, 0);
    assert SnapshotVersion([], b) == "-" + b + "-SNAPSHOT";
  }
}

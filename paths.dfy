/**
 * `java.io.File(File parent, String child)` on a Unix file system. A path is the sequence of
 * its names; the child string is cut at '/', and the empty pieces that duplicate or trailing
 * separators produce are dropped, which is what File's normalisation does.
 */
module Paths {
  import opened Strings

  type Path = seq<string>

  /** Every name of a well-formed path is non-empty and holds no separator. */
  predicate ValidPath(p: Path)
  {
    forall i :: 0 <= i < |p| ==> p[i] != [] && '/' !in p[i]
  }

  /** The non-empty pieces, in order. */
  function NonEmpty(parts: seq<string>): (r: seq<string>)
    ensures forall i :: 0 <= i < |r| ==> r[i] != [] && r[i] in parts
  {
    if parts == [] then []
    else if parts[0] == [] then NonEmpty(parts[1..])
    else [parts[0]] + NonEmpty(parts[1..])
  }

  /** The names a child string contributes to a path. */
  function Names(child: string): (names: seq<string>)
    ensures ValidPath(names)
  {
    SplitAllJoin(child, '/');
    NonEmpty(SplitAll(child, '/'))
  }

  /** `new File(parent, child)`. */
  function Child(parent: Path, child: string): Path
  {
    parent + Names(child)
  }

  lemma {:induction false} NonEmptyAppend(a: seq<string>, b: seq<string>)
    ensures NonEmpty(a + b) == NonEmpty(a) + NonEmpty(b)
  {
    if a != [] {
      assert (a + b)[0] == a[0] && (a + b)[1..] == a[1..] + b;
      NonEmptyAppend(a[1..], b);
    } else {
      assert a + b == b;
    }
  }

  /** A plain name (non-empty, no separator) is one name of the path. */
  lemma NamesOfName(name: string)
    requires name != [] && '/' !in name
    ensures Names(name) == [name]
  {
    SplitAllOfFree(name, '/');
    assert NonEmpty([name]) == [name] + NonEmpty([]);
  }

  /** `new File(parent, name)` for a plain name is one level below the parent. */
  lemma ChildOfName(parent: Path, name: string)
    requires name != [] && '/' !in name
    ensures Child(parent, name) == parent + [name]
  {
    NamesOfName(name);
  }

  /** "dir/rest" contributes "dir" and then whatever "rest" contributes. */
  lemma NamesOfNested(dir: string, rest: string)
    requires dir != [] && '/' !in dir
    ensures Names(dir + "/" + rest) == [dir] + Names(rest)
  {
    SplitAllCons(dir, rest, '/');
    NonEmptyAppend([dir], SplitAll(rest, '/'));
  }

  /** A trailing separator contributes nothing. */
  lemma NamesTrailingSeparator(child: string)
    ensures Names(child + "/") == Names(child)
  {
    SplitAllJoin(child, '/');
    var parts := SplitAll(child, '/');
    JoinSnoc(parts, [], '/');
    assert child + "/" == Join(parts + [[]], '/');
    SplitAllOfJoin(parts + [[]], '/');
    NonEmptyAppend(parts, [[]]);
    assert NonEmpty([[]]) == NonEmpty([]);
  }

  /** A child path extends its parent, and stays well formed. */
  lemma ChildExtends(parent: Path, child: string)
    requires ValidPath(parent)
    ensures Child(parent, child)[..|parent|] == parent
    ensures ValidPath(Child(parent, child))
  {
  }
}

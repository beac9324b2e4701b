/**
 * `java.lang.String.split(String)` for a delimiter that is a single literal character
 * (the provider splits version strings on "-", and `java.io.File` splits paths on '/').
 *
 * Java splits at every occurrence of the delimiter, keeps leading and interior empty
 * pieces, drops the trailing empty pieces, and returns the whole string unchanged when the
 * delimiter does not occur at all (so "".split("-") is [""] while "-".split("-") is []).
 */
module Strings {

  /** Every piece of `s` between occurrences of `d`, empty pieces included. */
  function SplitAll(s: string, d: char): (parts: seq<string>)
    ensures |parts| >= 1
  {
    if s == [] then [[]]
    else
      var rest := SplitAll(s[1..], d);
      if s[0] == d then [[]] + rest
      else [[s[0]] + rest[0]] + rest[1..]
  }

  /** The pieces glued back together with `d` between neighbours. */
  function Join(parts: seq<string>, d: char): string
    requires |parts| >= 1
  {
    if |parts| == 1 then parts[0] else parts[0] + [d] + Join(parts[1..], d)
  }

  /** `k` copies of the character `d`. */
  function Repeat(d: char, k: nat): (s: string)
    ensures |s| == k && forall i :: 0 <= i < k ==> s[i] == d
  {
    seq(k, _ => d)
  }

  /** `k` empty pieces. */
  function Empties(k: nat): (parts: seq<string>)
    ensures |parts| == k && forall i :: 0 <= i < k ==> parts[i] == []
  {
    seq(k, _ => [])
  }

  /** Java's removal of trailing empty strings from a split result. */
  function DropTrailingEmpty(parts: seq<string>): (r: seq<string>)
    ensures |r| <= |parts| && r == parts[..|r|]
    ensures forall i :: |r| <= i < |parts| ==> parts[i] == []
    ensures r == [] || r[|r| - 1] != []
  {
    if parts == [] then []
    else if parts[|parts| - 1] == [] then DropTrailingEmpty(parts[..|parts| - 1])
    else parts
  }

  /** `s.split(d)` with Java's default limit 0. */
  function JavaSplit(s: string, d: char): (parts: seq<string>)
  {
    if d !in s then [s] else DropTrailingEmpty(SplitAll(s, d))
  }

  /** No piece of a split contains the delimiter, and joining the pieces gives the string back. */
  lemma {:induction false} SplitAllJoin(s: string, d: char)
    ensures forall i :: 0 <= i < |SplitAll(s, d)| ==> d !in SplitAll(s, d)[i]
    ensures Join(SplitAll(s, d), d) == s
  {
    if s != [] {
      var rest := SplitAll(s[1..], d);
      SplitAllJoin(s[1..], d);
      if s[0] == d {
        assert SplitAll(s, d)[1..] == rest;
        assert s == [d] + s[1..];
      } else {
        var parts := SplitAll(s, d);
        assert parts[1..] == rest[1..];
        forall i | 0 <= i < |parts| ensures d !in parts[i] {
          if i > 0 { assert parts[i] == rest[i]; }
        }
        if |rest| == 1 {
          assert s == [s[0]] + s[1..];
        } else {
          assert Join(rest, d) == rest[0] + [d] + Join(rest[1..], d);
          assert s == [s[0]] + s[1..];
        }
      }
    }
  }

  /** A string without the delimiter is a single piece. */
  lemma {:induction false} SplitAllOfFree(a: string, d: char)
    requires d !in a
    ensures SplitAll(a, d) == [a]
  {
    if a != [] {
      SplitAllOfFree(a[1..], d);
      assert [a[0]] + a[1..] == a;
    }
  }

  /** Splitting a delimiter-free piece followed by the delimiter peels that piece off. */
  lemma {:induction false} SplitAllCons(a: string, rest: string, d: char)
    requires d !in a
    ensures SplitAll(a + [d] + rest, d) == [a] + SplitAll(rest, d)
  {
    if a == [] {
      assert ([d] + rest)[1..] == rest;
    } else {
      assert (a + [d] + rest)[1..] == a[1..] + [d] + rest;
      SplitAllCons(a[1..], rest, d);
      assert [a[0]] + a[1..] == a;
    }
  }

  /** Splitting undoes joining, for pieces that do not contain the delimiter. */
  lemma {:induction false} SplitAllOfJoin(parts: seq<string>, d: char)
    requires |parts| >= 1
    requires forall i :: 0 <= i < |parts| ==> d !in parts[i]
    ensures SplitAll(Join(parts, d), d) == parts
  {
    if |parts| == 1 {
      SplitAllOfFree(parts[0], d);
    } else {
      SplitAllOfJoin(parts[1..], d);
      SplitAllCons(parts[0], Join(parts[1..], d), d);
      assert [parts[0]] + parts[1..] == parts;
    }
  }

  /** Two or more pieces joined contain the delimiter. */
  lemma JoinHasDelimiter(parts: seq<string>, d: char)
    requires |parts| >= 2
    ensures d in Join(parts, d)
  {
    assert Join(parts, d)[|parts[0]|] == d;
  }

  /** Splitting pieces that do not contain the delimiter, the last one non-empty, the Java way. */
  lemma JavaSplitOfJoin(parts: seq<string>, d: char)
    requires |parts| >= 1 && parts[|parts| - 1] != []
    requires forall i :: 0 <= i < |parts| ==> d !in parts[i]
    ensures JavaSplit(Join(parts, d), d) == parts
  {
    if |parts| == 1 {
      assert Join(parts, d) == parts[0];
      assert parts == [parts[0]];
    } else {
      JoinHasDelimiter(parts, d);
      SplitAllOfJoin(parts, d);
      assert parts + Empties(0) == parts;
      DropEmptiesAfter(parts, 0);
    }
  }

  /** Appending one more piece appends the delimiter and that piece. */
  lemma {:induction false} JoinSnoc(parts: seq<string>, x: string, d: char)
    requires |parts| >= 1
    ensures Join(parts + [x], d) == Join(parts, d) + [d] + x
  {
    if |parts| > 1 {
      assert (parts + [x])[1..] == parts[1..] + [x];
      JoinSnoc(parts[1..], x, d);
    }
  }

  /** Appending `k` empty pieces appends `k` delimiters. */
  lemma {:induction false} JoinEmpties(parts: seq<string>, k: nat, d: char)
    requires |parts| >= 1
    ensures Join(parts + Empties(k), d) == Join(parts, d) + Repeat(d, k)
  {
    if k == 0 {
      assert parts + Empties(0) == parts;
    } else {
      JoinEmpties(parts, k - 1, d);
      assert parts + Empties(k) == (parts + Empties(k - 1)) + [[]];
      JoinSnoc(parts + Empties(k - 1), [], d);
      assert Repeat(d, k) == Repeat(d, k - 1) + [d];
    }
  }

  /** Dropping trailing empties from pieces whose last kept piece is non-empty. */
  lemma {:induction false} DropEmptiesAfter(parts: seq<string>, k: nat)
    requires parts != [] && parts[|parts| - 1] != []
    ensures DropTrailingEmpty(parts + Empties(k)) == parts
  {
    if k > 0 {
      assert (parts + Empties(k))[..|parts| + k - 1] == parts + Empties(k - 1);
      DropEmptiesAfter(parts, k - 1);
    }
  }

  /**
   * The pieces Java returns when `s` contains the delimiter are the full split with its
   * trailing empty pieces removed: the full split is the result followed by empties, and
   * `s` is the result joined back with one delimiter per dropped piece after it.
   */
  lemma JavaSplitReconstructs(s: string, d: char)
    requires d in s
    ensures |JavaSplit(s, d)| <= |SplitAll(s, d)|
    ensures SplitAll(s, d) == JavaSplit(s, d) + Empties(|SplitAll(s, d)| - |JavaSplit(s, d)|)
    ensures JavaSplit(s, d) != [] ==>
      s == Join(JavaSplit(s, d), d) + Repeat(d, |SplitAll(s, d)| - |JavaSplit(s, d)|)
  {
    var all := SplitAll(s, d);
    var parts := JavaSplit(s, d);
    var k := |all| - |parts|;
    assert all == parts + Empties(k);
    SplitAllJoin(s, d);
    if parts != [] {
      JoinEmpties(parts, k, d);
    }
  }
}

/**
 * Operating-system versions and the `sorted().first` idiom over them.
 *
 * A version is reduced to its numeric core `major.minor.patch`, ordered by the
 * precedence rule of section 11 of Semantic Versioning 2.0.0 restricted to those
 * three fields: compare major, then minor, then patch, numerically.
 */
module Versions {
  import opened Wrappers

  datatype Version = Version(major: nat, minor: nat, patch: nat)

  /** Precedence: `a` is lower than or equal to `b`. */
  predicate Le(a: Version, b: Version) {
    if a.major != b.major then a.major < b.major
    else if a.minor != b.minor then a.minor < b.minor
    else a.patch <= b.patch
  }

  /** The abstracted precedence is a total order, so an ascending arrangement exists and its head is unique. */
  lemma LeIsTotalOrder()
    ensures forall a :: Le(a, a)
    ensures forall a, b :: Le(a, b) && Le(b, a) ==> a == b
    ensures forall a, b, c :: Le(a, b) && Le(b, c) ==> Le(a, c)
    ensures forall a, b :: Le(a, b) || Le(b, a)
  {
  }

  /** Every element is lower than or equal to every later one. */
  predicate IsSorted(s: seq<Version>) {
    forall i, j :: 0 <= i < j < |s| ==> Le(s[i], s[j])
  }

  /** `v` is an element of `s` and no element of `s` is lower. */
  predicate IsLeast(v: Version, s: seq<Version>) {
    v in s && forall w :: w in s ==> Le(v, w)
  }

  /** Places `x` into the ascending sequence `s`. */
  function Insert(x: Version, s: seq<Version>): (r: seq<Version>)
    requires IsSorted(s)
    ensures IsSorted(r)
    ensures multiset(r) == multiset(s) + multiset{x}
  {
    if s == [] then [x]
    else if Le(x, s[0]) then [x] + s
    else
      var tail := Insert(x, s[1..]);
      assert s == [s[0]] + s[1..];
      assert forall k :: 0 <= k < |tail| ==> Le(s[0], tail[k]) by {
        forall k | 0 <= k < |tail| ensures Le(s[0], tail[k]) {
          assert tail[k] in multiset(tail);
          assert tail[k] == x || tail[k] in s[1..];
        }
      }
      [s[0]] + tail
  }

  /** The ascending rearrangement of `s` (Swift's `sorted()`). */
  function Sorted(s: seq<Version>): (r: seq<Version>)
    ensures IsSorted(r)
    ensures multiset(r) == multiset(s)
  {
    if s == [] then []
    else
      assert s == [s[0]] + s[1..];
      Insert(s[0], Sorted(s[1..]))
  }

  /** `sorted().first`: the first element of the ascending rearrangement, if any. */
  function Lowest(s: seq<Version>): (r: Option<Version>)
    ensures r.None? <==> s == []
    ensures r.Some? ==> IsLeast(r.value, s)
  {
    var sorted := Sorted(s);
    if sorted == [] then None
    else
      assert sorted[0] in multiset(sorted);
      assert forall w :: w in s ==> Le(sorted[0], w) by {
        forall w | w in s ensures Le(sorted[0], w) {
          assert w in multiset(sorted);
          var k :| 0 <= k < |sorted| && sorted[k] == w;
          assert k == 0 || Le(sorted[0], sorted[k]);
        }
      }
      Some(sorted[0])
  }

  /** There is at most one least element. */
  lemma LeastIsUnique(v: Version, w: Version, s: seq<Version>, t: seq<Version>)
    requires IsLeast(v, s) && IsLeast(w, t)
    requires forall x :: x in s <==> x in t
    ensures v == w
  {
    LeIsTotalOrder();
  }

  /** `sorted().first` depends only on which versions occur, not on their order or count. */
  lemma LowestDependsOnlyOnMembers(s: seq<Version>, t: seq<Version>)
    requires forall x :: x in s <==> x in t
    ensures Lowest(s) == Lowest(t)
  {
    if s != [] {
      LeastIsUnique(Lowest(s).value, Lowest(t).value, s, t);
    }
  }
}

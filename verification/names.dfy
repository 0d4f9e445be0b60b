/** Domain names as sequences of labels, the most specific label first.
    The root name has no labels, so the ancestors of a name are exactly the
    names obtained by dropping leading labels. */
module Names {

  type Label = string

  type Name = seq<Label>

  const Root: Name := []

  /** `n` is `z` or lies below it: `z` is a (not necessarily proper) suffix of `n`. */
  predicate IsSubdomain(n: Name, z: Name) {
    |z| <= |n| && n[|n| - |z|..] == z
  }

  /** The name one level up: `n` without its leading label. */
  function Parent(n: Name): (p: Name)
    requires n != Root
    ensures |p| + 1 == |n|
    ensures IsSubdomain(n, p)
  {
    n[1..]
  }

  /** The suffixes of `n` are exactly the names reached by stripping `k`
      leading labels, for some `k` from 0 (the name itself) to `|n|` (the root). */
  lemma SubdomainIffStripped(n: Name, z: Name)
    ensures IsSubdomain(n, z) <==> exists k :: 0 <= k <= |n| && n[k..] == z
  {
    if exists k :: 0 <= k <= |n| && n[k..] == z {
      var k :| 0 <= k <= |n| && n[k..] == z;
      assert |n| - |z| == k;
    }
  }

  /** Two suffixes of one name with the same number of labels are the same name. */
  lemma SubdomainsOfSameLength(n: Name, a: Name, b: Name)
    requires IsSubdomain(n, a) && IsSubdomain(n, b)
    requires |a| == |b|
    ensures a == b
  {
  }
}

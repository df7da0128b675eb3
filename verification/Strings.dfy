/** Substring search as in Go's `strings` package. */
module Strings {
  import opened Lines

  predicate Occurs(t: string, p: string, i: nat) {
    i + |p| <= |t| && t[i..i + |p|] == p
  }

  ghost predicate Absent(t: string, p: string) {
    forall i: nat :: !Occurs(t, p, i)
  }

  function IndexFrom(t: string, p: string, i: nat): (r: Option<nat>)
    ensures r.None? <==> forall k: nat :: i <= k ==> !Occurs(t, p, k)
    ensures r.Some? ==> i <= r.value && Occurs(t, p, r.value) && forall k: nat :: i <= k < r.value ==> !Occurs(t, p, k)
    decreases |t| - i
  {
    if i + |p| > |t| then None
    else if Occurs(t, p, i) then Some(i)
    else IndexFrom(t, p, i + 1)
  }

  /** `strings.Index`: the first occurrence. */
  function Index(t: string, p: string): (r: Option<nat>)
    ensures r.None? <==> Absent(t, p)
    ensures r.Some? ==> Occurs(t, p, r.value) && forall i: nat :: i < r.value ==> !Occurs(t, p, i)
  {
    IndexFrom(t, p, 0)
  }

  lemma IndexIs(t: string, p: string, i: nat)
    requires Occurs(t, p, i) && forall k: nat :: k < i ==> !Occurs(t, p, k)
    ensures Index(t, p) == Some(i)
  {
    var r := Index(t, p);
    assert r.Some?;
    assert !(r.value < i) && !(i < r.value);
  }

  /** `strings.Contains`. */
  predicate Contains(t: string, p: string) {
    Index(t, p).Some?
  }
}

/** The order in which the popup lists the profiles (popup.js, `renderProfiles`). */
module DisplayOrder {
  import opened Seqs
  import opened Profiles

  predicate IsDisabled(p: Profile) { !p.enabled }

  /** The comparator handed to `sort`: enabled before disabled, otherwise equal. */
  function Compare(a: Profile, b: Profile): (c: int)
    ensures c == 0 <==> a.enabled == b.enabled
    ensures c < 0 <==> a.enabled && !b.enabled
    ensures -1 <= c <= 1
  {
    if a.enabled == b.enabled then 0 else if a.enabled then -1 else 1
  }

  /** The comparator is consistent, as `Array.prototype.sort` demands: antisymmetric and
      transitive. */
  lemma CompareIsConsistent(a: Profile, b: Profile, c: Profile)
    ensures Compare(a, b) == -Compare(b, a)
    ensures Compare(a, b) <= 0 && Compare(b, c) <= 0 ==> Compare(a, c) <= 0
  {
  }

  /** No profile is listed after one that the comparator puts behind it. */
  predicate Sorted(r: seq<Profile>) {
    forall i, j :: 0 <= i < j < |r| ==> Compare(r[i], r[j]) <= 0
  }

  /** The list as displayed: `sort` is stable, so this is the enabled profiles in list
      order followed by the disabled ones in list order. */
  function DisplayOrder(ps: seq<Profile>): (r: seq<Profile>)
    ensures |r| == |ps|
  {
    FilterComplementLength(ps, IsEnabled, IsDisabled);
    Filter(ps, IsEnabled) + Filter(ps, IsDisabled)
  }

  /** The empty third part when the profiles are split into enabled and disabled ones
      for the permutation proof below. */
  function Never(p: Profile): bool { false }

  /** The selection that keeps every profile, the whole of that split. */
  function Always(p: Profile): bool { true }

  /** The displayed list is a rearrangement of the stored one: nothing added, lost or
      duplicated. */
  lemma DisplayIsPermutation(ps: seq<Profile>)
    ensures multiset(DisplayOrder(ps)) == multiset(ps)
  {
    FilterSplit(ps, IsEnabled, IsDisabled, Never, Always);
    FilterAll(ps, Always);
    FilterEmptyIff(ps, Never);
  }

  /** The displayed list is sorted by the comparator. */
  lemma DisplayIsSorted(ps: seq<Profile>)
    ensures Sorted(DisplayOrder(ps))
  {
    FilterSatisfies(ps, IsEnabled);
    FilterSatisfies(ps, IsDisabled);
    var r := DisplayOrder(ps);
    var n := |Filter(ps, IsEnabled)|;
    assert forall i :: 0 <= i < n ==> r[i].enabled;
    assert forall i :: n <= i < |r| ==> !r[i].enabled;
  }

  /** The sort is stable: within the enabled and within the disabled profiles the stored
      order is kept. */
  lemma DisplayIsStable(ps: seq<Profile>)
    ensures Filter(DisplayOrder(ps), IsEnabled) == Filter(ps, IsEnabled)
    ensures Filter(DisplayOrder(ps), IsDisabled) == Filter(ps, IsDisabled)
  {
    var en, dis := Filter(ps, IsEnabled), Filter(ps, IsDisabled);
    FilterAppend(en, dis, IsEnabled);
    FilterAppend(en, dis, IsDisabled);
    FilterIdempotent(ps, IsEnabled);
    FilterIdempotent(ps, IsDisabled);
    FilterExcludes(ps, IsDisabled, IsEnabled);
    FilterExcludes(ps, IsEnabled, IsDisabled);
  }

  /** A sorted list is its enabled profiles followed by its disabled ones. */
  lemma {:induction false} SortedSplits(r: seq<Profile>)
    requires Sorted(r)
    ensures r == Filter(r, IsEnabled) + Filter(r, IsDisabled)
  {
    if r != [] {
      var tail := r[1..];
      assert Sorted(tail) by {
        assert forall i :: 0 <= i < |tail| ==> tail[i] == r[i + 1];
      }
      if r[0].enabled {
        SortedSplits(tail);
      } else {
        assert forall i :: 0 <= i < |r| ==> Compare(r[0], r[i]) <= 0;
        FilterAll(r, IsDisabled);
        FilterEmptyIff(r, IsEnabled);
      }
    }
  }

  /** The displayed order is the only one that is sorted and stable: any list holding the
      stored enabled profiles and the stored disabled profiles each in stored order, and
      sorted by the comparator, is the displayed list. */
  lemma DisplayOrderUnique(ps: seq<Profile>, r: seq<Profile>)
    requires Sorted(r)
    requires Filter(r, IsEnabled) == Filter(ps, IsEnabled)
    requires Filter(r, IsDisabled) == Filter(ps, IsDisabled)
    ensures r == DisplayOrder(ps)
  {
    SortedSplits(r);
  }
}

/** How the home page turns the fetched collections into the lists it displays
    (src/components/pages/HomePage.tsx, inside `fetchData`).

    - Brand pillars and ritual steps: stable sort by `displayOrder` / `stepNumber`,
      a missing key compared as 0.
    - Tea blends and ingredients: the first 4 and the first 6 received.
    - Wellness benefits: those with `isActive`, stably sorted by `displayOrder`,
      then the first 6.
    - Testimonials and sustainability points are kept as received (see `HomePage`).

    A comparator `(a, b) => (a.k || 0) - (b.k || 0)` orders exactly as `SortBy`
    with key `k.GetOr(0)`: for an integer field, `k || 0` is 0 precisely when
    the field is missing or 0. */
module HomeCuration {
  import opened Wrappers
  import opened Entities
  import opened StableSort

  function PillarKey(p: BrandPillar): int { p.displayOrder.GetOr(0) }

  function StepKey(s: EveningRitualStep): int { s.stepNumber.GetOr(0) }

  function BenefitKey(b: WellnessBenefit): int { b.displayOrder.GetOr(0) }

  /** Truthiness of `b.isActive`: a missing flag is falsy. */
  predicate IsActive(b: WellnessBenefit) { b.isActive == Some(true) }

  function Min(a: int, b: int): int { if a <= b then a else b }

  /** `s.slice(0, k)`: the first `k` elements, or all of them when there are fewer. */
  function Take<T>(s: seq<T>, k: nat): (r: seq<T>)
    ensures |r| == Min(k, |s|)
    ensures forall i :: 0 <= i < |r| ==> r[i] == s[i]
    ensures r + s[|r|..] == s
  {
    if |s| <= k then s else s[..k]
  }

  /** The pillars in display order: a stable rearrangement of what was fetched,
      non-decreasing in `displayOrder` (a missing one counting as 0). */
  function CuratePillars(items: seq<BrandPillar>): (r: seq<BrandPillar>)
    ensures multiset(r) == multiset(items)
    ensures SortedBy(r, PillarKey)
    ensures Stable(items, r, PillarKey)
  {
    SortByCharacterized(items, PillarKey);
    SortBy(items, PillarKey)
  }

  /** The ritual steps in step order, likewise. */
  function CurateSteps(items: seq<EveningRitualStep>): (r: seq<EveningRitualStep>)
    ensures multiset(r) == multiset(items)
    ensures SortedBy(r, StepKey)
    ensures Stable(items, r, StepKey)
  {
    SortByCharacterized(items, StepKey);
    SortBy(items, StepKey)
  }

  /** The first four tea blends in received order. */
  function CurateBlends(items: seq<RitualTeaBlend>): (r: seq<RitualTeaBlend>)
    ensures |r| == Min(4, |items|)
    ensures r + items[|r|..] == items
  {
    Take(items, 4)
  }

  /** The first six ingredients in received order. */
  function CurateIngredients(items: seq<Ingredient>): (r: seq<Ingredient>)
    ensures |r| == Min(6, |items|)
    ensures r + items[|r|..] == items
  {
    Take(items, 6)
  }

  /** `r` is `s` with some elements left out: the others in their order in `s`. */
  ghost predicate Subsequence<T>(r: seq<T>, s: seq<T>)
    decreases |s|
  {
    r == [] ||
    (s != [] &&
     ((r[|r| - 1] == s[|s| - 1] && Subsequence(r[..|r| - 1], s[..|s| - 1])) ||
      Subsequence(r, s[..|s| - 1])))
  }

  /** `items.filter(b => b.isActive)`: the active benefits, in received order.
      `ActiveOnlyCounts` and `ActiveOnlyKeepsOrder` state the multiplicities and
      the order. */
  function ActiveOnly(items: seq<WellnessBenefit>): (r: seq<WellnessBenefit>)
    ensures forall b :: b in r ==> IsActive(b)
    ensures forall b :: b in r <==> b in items && IsActive(b)
    ensures multiset(r) <= multiset(items)
  {
    if items == [] then []
    else
      var init, last := items[..|items| - 1], items[|items| - 1];
      assert items == init + [last];
      ActiveOnly(init) + (if IsActive(last) then [last] else [])
  }

  /** The active benefits in display order, at most six of them. Within each
      `displayOrder` the shown benefits are the first ones of that order in the
      filtered list, in filtered order. */
  function CurateBenefits(items: seq<WellnessBenefit>): (r: seq<WellnessBenefit>)
    ensures |r| == Min(6, |ActiveOnly(items)|)
    ensures forall b :: b in r ==> IsActive(b)
    ensures multiset(r) <= multiset(items)
    ensures SortedBy(r, BenefitKey)
    ensures forall k :: WithKey(r, BenefitKey, k) <= WithKey(ActiveOnly(items), BenefitKey, k)
  {
    var sorted := SortBy(ActiveOnly(items), BenefitKey);
    SortByCharacterized(ActiveOnly(items), BenefitKey);
    var r := Take(sorted, 6);
    assert multiset(r) <= multiset(sorted) by {
      assert sorted == r + sorted[|r|..];
    }
    forall b | b in r ensures IsActive(b) {
      assert b in multiset(sorted);
    }
    forall k ensures WithKey(r, BenefitKey, k) <= WithKey(ActiveOnly(items), BenefitKey, k) {
      WithKeyAppend(r, sorted[|r|..], BenefitKey, k);
    }
    r
  }

  // ---- lemmas ----

  /** When every pillar that has a `displayOrder` has a positive one, the pillars
      without one are shown before all that have one. */
  lemma PillarsWithoutOrderFirst(items: seq<BrandPillar>, i: nat, j: nat)
    requires forall p :: p in items && p.displayOrder.Some? ==> p.displayOrder.value > 0
    requires i < |CuratePillars(items)| && j < |CuratePillars(items)|
    requires CuratePillars(items)[i].displayOrder.None?
    requires CuratePillars(items)[j].displayOrder.Some?
    ensures i < j
  {
    var r := CuratePillars(items);
    assert r[j] in multiset(items);
  }

  /** The six shown benefits are the ones with the smallest keys: no active
      benefit is left out while one with a strictly larger key is shown. */
  lemma BenefitsKeepSmallestKeys(items: seq<WellnessBenefit>, b: WellnessBenefit, c: WellnessBenefit)
    requires b in items && IsActive(b)
    requires c in CurateBenefits(items)
    requires BenefitKey(b) < BenefitKey(c)
    ensures b in CurateBenefits(items)
  {
    var active := ActiveOnly(items);
    var sorted := SortBy(active, BenefitKey);
    SortByCharacterized(active, BenefitKey);
    var r := CurateBenefits(items);
    assert r == Take(sorted, 6);
    assert b in multiset(sorted) by { assert b in active; }
    var p :| 0 <= p < |sorted| && sorted[p] == b;
    var q :| 0 <= q < |r| && r[q] == c;
    assert sorted[q] == c;
    assert p < |r|;
    assert r[p] == b;
  }

  /** Every shown benefit was fetched and is active; and when fewer than six are
      active, every active one is shown. */
  lemma BenefitsAllShownWhenFew(items: seq<WellnessBenefit>, b: WellnessBenefit)
    requires |ActiveOnly(items)| <= 6
    ensures b in CurateBenefits(items) <==> b in items && IsActive(b)
  {
    var active := ActiveOnly(items);
    SortByCharacterized(active, BenefitKey);
    var sorted := SortBy(active, BenefitKey);
    assert CurateBenefits(items) == sorted;
    assert b in sorted <==> b in multiset(sorted);
    assert b in active <==> b in multiset(active);
  }

  /** `CurateBenefits` is the first six of the unique stable key-order arrangement
      of the active benefits: every stable sort of them gives the same six. */
  lemma BenefitsFromAnyStableSort(items: seq<WellnessBenefit>, arranged: seq<WellnessBenefit>)
    requires SortedBy(arranged, BenefitKey)
    requires Stable(ActiveOnly(items), arranged, BenefitKey)
    ensures CurateBenefits(items) == Take(arranged, 6)
  {
    SortByUnique(ActiveOnly(items), arranged, BenefitKey);
  }

  /** The filter keeps every active benefit as often as it was received, and no
      other. */
  lemma {:induction false} ActiveOnlyCounts(items: seq<WellnessBenefit>, b: WellnessBenefit)
    ensures multiset(ActiveOnly(items))[b] == if IsActive(b) then multiset(items)[b] else 0
  {
    if items != [] {
      var init, last := items[..|items| - 1], items[|items| - 1];
      ActiveOnlyCounts(init, b);
      assert items == init + [last];
      assert multiset(items) == multiset(init) + multiset{last};
    }
  }

  /** The filter keeps the received order. */
  lemma {:induction false} ActiveOnlyKeepsOrder(items: seq<WellnessBenefit>)
    ensures Subsequence(ActiveOnly(items), items)
  {
    if items != [] {
      var init, last := items[..|items| - 1], items[|items| - 1];
      ActiveOnlyKeepsOrder(init);
      var r, p := ActiveOnly(items), ActiveOnly(init);
      assert items[..|items| - 1] == init;
      if IsActive(last) {
        assert r == p + [last];
        assert r[..|r| - 1] == p && r[|r| - 1] == last;
      } else {
        assert r == p;
      }
    }
  }

  lemma {:induction false} ActiveOnlyAllActive(items: seq<WellnessBenefit>)
    requires forall i :: 0 <= i < |items| ==> IsActive(items[i])
    ensures ActiveOnly(items) == items
  {
    if items != [] {
      var init := items[..|items| - 1];
      ActiveOnlyAllActive(init);
      assert items == init + [items[|items| - 1]];
    }
  }

  /** Curating an already curated list changes nothing. */
  lemma CurateBenefitsIdempotent(items: seq<WellnessBenefit>)
    ensures CurateBenefits(CurateBenefits(items)) == CurateBenefits(items)
  {
    var r := CurateBenefits(items);
    forall i | 0 <= i < |r| ensures IsActive(r[i]) {
      assert r[i] in r;
    }
    ActiveOnlyAllActive(r);
    SortBySortedIdentity(r, BenefitKey);
  }

  /** Sorting pillars or steps a second time changes nothing. */
  lemma CuratePillarsIdempotent(items: seq<BrandPillar>)
    ensures CuratePillars(CuratePillars(items)) == CuratePillars(items)
  {
    SortByIdempotent(items, PillarKey);
  }

  lemma CurateStepsIdempotent(items: seq<EveningRitualStep>)
    ensures CurateSteps(CurateSteps(items)) == CurateSteps(items)
  {
    SortByIdempotent(items, StepKey);
  }

  /** Slicing is idempotent too. */
  lemma CurateBlendsIdempotent(items: seq<RitualTeaBlend>)
    ensures CurateBlends(CurateBlends(items)) == CurateBlends(items)
  {
  }
}

/** The state of the home page component (src/components/pages/HomePage.tsx):
    the seven displayed lists and the index of the testimonial in the carousel.

    `FetchData` is what happens once the seven collections have arrived: the
    pillar and step arrays are sorted in place and stored, and the other lists
    are derived as `HomeCuration` describes. The requests themselves are not
    part of this model. */
module Home {
  import opened Wrappers
  import opened Entities
  import opened StableSort
  import opened HomeCuration
  import opened TestimonialCarousel

  class HomePage {
    var brandPillars: seq<BrandPillar>
    var teaBlends: seq<RitualTeaBlend>
    var ingredients: seq<Ingredient>
    var ritualSteps: seq<EveningRitualStep>
    var wellnessBenefits: seq<WellnessBenefit>
    var testimonials: seq<CustomerTestimonial>
    var sustainabilityPoints: seq<SustainabilityOriginPoint>
    var activeTestimonial: nat

    /** The carousel index points at a testimonial, or is the initial 0. */
    ghost predicate Valid()
      reads this
    {
      activeTestimonial == 0 || activeTestimonial < |testimonials|
    }

    /** Every list starts empty and the carousel at 0. */
    constructor ()
      ensures Valid()
      ensures brandPillars == [] && teaBlends == [] && ingredients == []
      ensures ritualSteps == [] && wellnessBenefits == [] && testimonials == []
      ensures sustainabilityPoints == [] && activeTestimonial == 0
    {
      brandPillars, teaBlends, ingredients := [], [], [];
      ritualSteps, wellnessBenefits, testimonials := [], [], [];
      sustainabilityPoints, activeTestimonial := [], 0;
    }

    /** The body of `fetchData` after the seven `getAll` results are in. It runs
        once, on mount, while the testimonials still hold their initial empty
        list. */
    method FetchData(
      pillarsData: array<BrandPillar>,
      blendsData: seq<RitualTeaBlend>,
      ingredientsData: seq<Ingredient>,
      stepsData: array<EveningRitualStep>,
      benefitsData: seq<WellnessBenefit>,
      testimonialsData: seq<CustomerTestimonial>,
      sustainabilityData: seq<SustainabilityOriginPoint>)
      requires Valid() && testimonials == []
      modifies this, pillarsData, stepsData
      ensures Valid()
      ensures brandPillars == pillarsData[..] == CuratePillars(old(pillarsData[..]))
      ensures teaBlends == CurateBlends(blendsData)
      ensures ingredients == CurateIngredients(ingredientsData)
      ensures ritualSteps == stepsData[..] == CurateSteps(old(stepsData[..]))
      ensures wellnessBenefits == CurateBenefits(benefitsData)
      ensures testimonials == testimonialsData
      ensures sustainabilityPoints == sustainabilityData
      ensures activeTestimonial == old(activeTestimonial)
    {
      SortInPlace(pillarsData, PillarKey);
      brandPillars := pillarsData[..];
      teaBlends := CurateBlends(blendsData);
      ingredients := CurateIngredients(ingredientsData);
      SortInPlace(stepsData, StepKey);
      assert pillarsData[..] == brandPillars;
      ritualSteps := stepsData[..];
      wellnessBenefits := CurateBenefits(benefitsData);
      testimonials := testimonialsData;
      sustainabilityPoints := sustainabilityData;
    }

    /** The testimonial the carousel shows, the one at the carousel index:
        rendered only when there is one, and then the index is in range. */
    function ShownTestimonial(): (r: Option<CustomerTestimonial>)
      reads this
      requires Valid()
      ensures r.Some? <==> |testimonials| > 0
      ensures r.Some? ==> r.value in testimonials
      ensures r.Some? ==> activeTestimonial < |testimonials| && r.value == testimonials[activeTestimonial]
    {
      if |testimonials| > 0 then Some(testimonials[activeTestimonial]) else None
    }

    /** The "next" arrow. */
    method NextTestimonial()
      requires Valid()
      modifies this`activeTestimonial
      ensures Valid()
      ensures activeTestimonial == Next(old(activeTestimonial), |testimonials|)
    {
      activeTestimonial := Next(activeTestimonial, |testimonials|);
    }

    /** The "previous" arrow. */
    method PrevTestimonial()
      requires Valid()
      modifies this`activeTestimonial
      ensures Valid()
      ensures activeTestimonial == Prev(old(activeTestimonial), |testimonials|)
    {
      activeTestimonial := Prev(activeTestimonial, |testimonials|);
    }

    /** Dot `idx`; one dot is rendered per testimonial. */
    method SelectTestimonial(idx: nat)
      requires Valid() && idx < |testimonials|
      modifies this`activeTestimonial
      ensures Valid()
      ensures activeTestimonial == idx
    {
      activeTestimonial := idx;
    }
  }
}

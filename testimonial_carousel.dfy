/** The testimonial carousel of the home page
    (src/components/pages/HomePage.tsx, `nextTestimonial`, `prevTestimonial` and
    the dot buttons).

    The index starts at 0. "Next" moves to `(i + 1) % n`, "previous" to
    `(i - 1 + n) % n`, and dot `idx` jumps to `idx`; `n` is the number of
    testimonials. The as-written functions compute on JavaScript numbers: with
    `n == 0` the remainder is `NaN`, and nothing brings the index back from it.
    `Next` and `Prev` are the corrected steps the rest of the model uses: with no
    testimonials they leave the index where it is. */
module TestimonialCarousel {
  import opened Wrappers
  import opened JsNumber

  // ---- as written ----

  /** `(prev + 1) % testimonials.length` */
  function NextAsWritten(prev: Number, n: nat): Number {
    Rem(Add(prev, Num(1)), Num(n))
  }

  /** `(prev - 1 + testimonials.length) % testimonials.length` */
  function PrevAsWritten(prev: Number, n: nat): Number {
    Rem(Add(Sub(prev, Num(1)), Num(n)), Num(n))
  }

  /** The arrow buttons are rendered whether or not the testimonials have
      arrived. A click while the list is still empty makes the index `NaN`;
      later clicks keep it `NaN`; and once the list has arrived the render guard
      `testimonials.length > 0` passes while `testimonials[activeTestimonial]`
      is `undefined`, whose `customerImage` the render then reads. */
  lemma ClickBeforeLoadLosesIndex<T>(loaded: seq<T>)
    requires |loaded| > 0
    ensures NextAsWritten(Num(0), 0) == NaN
    ensures PrevAsWritten(Num(0), 0) == NaN
    ensures Index(loaded, NextAsWritten(Num(0), 0)) == None
    ensures Index(loaded, PrevAsWritten(Num(0), 0)) == None
    ensures NextAsWritten(NaN, |loaded|) == NaN && PrevAsWritten(NaN, |loaded|) == NaN
  {
  }

  // ---- corrected ----

  /** One step forward, wrapping from the last testimonial to the first. */
  function Next(i: nat, n: nat): (r: nat)
    ensures n == 0 ==> r == i
    ensures n > 0 ==> r < n
    ensures n > 0 && i + 1 < n ==> r == i + 1
    ensures n > 0 && i + 1 == n ==> r == 0
  {
    if n == 0 then i else (i + 1) % n
  }

  /** One step back, wrapping from the first testimonial to the last. */
  function Prev(i: nat, n: nat): (r: nat)
    ensures n == 0 ==> r == i
    ensures n > 0 ==> r < n
    ensures n > 0 && 0 < i < n ==> r == i - 1
    ensures n > 0 && i == 0 ==> r == n - 1
  {
    if n == 0 then i else (i - 1 + n) % n
  }

  /** While there are testimonials, the corrected steps are the source's. */
  lemma AgreesWithSourceWhenNonEmpty(i: nat, n: nat)
    requires i < n
    ensures NextAsWritten(Num(i), n) == Num(Next(i, n))
    ensures PrevAsWritten(Num(i), n) == Num(Prev(i, n))
  {
    RemNonNegative(i + 1, n);
    RemNonNegative(i - 1 + n, n);
  }

  /** Previous undoes next, and next undoes previous. */
  lemma PrevUndoesNext(i: nat, n: nat)
    requires i < n
    ensures Prev(Next(i, n), n) == i
    ensures Next(Prev(i, n), n) == i
  {
  }

  /** `k` presses of "next". */
  function Advance(i: nat, k: nat, n: nat): nat {
    if k == 0 then i else Next(Advance(i, k - 1, n), n)
  }

  lemma {:induction false} AdvanceBy(i: nat, k: nat, n: nat)
    requires i < n && k <= n
    ensures Advance(i, k, n) == if i + k < n then i + k else i + k - n
  {
    if k > 0 {
      AdvanceBy(i, k - 1, n);
    }
  }

  /** `n` presses of "next" come back to where they started. */
  lemma FullCycle(i: nat, n: nat)
    requires i < n
    ensures Advance(i, n, n) == i
  {
    AdvanceBy(i, n, n);
  }
}

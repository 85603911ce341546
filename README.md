# Saanjh storefront: list curation, carousel, reveal and descriptor lookup

This project models the small pieces of behaviour that sit inside the
storefront's page components, and proves properties of them:

- **Home page list curation.** `fetchData` turns the fetched collections into display lists:
  - brand pillars and evening ritual steps are sorted in place, stably, by `displayOrder` / `stepNumber`, with a missing key compared as 0;
  - tea blends and ingredients are cut to their first 4 and 6 items;
  - wellness benefits are filtered on `isActive`, sorted by `displayOrder` and cut to 6;
  - testimonials and sustainability points are stored as received.
- **Testimonial carousel.** An index that "next" and "previous" move with wrap-around, and that a dot sets directly.
- **One-shot reveal.** `AnimatedElement` goes hidden → scheduled → visible. The observer lets go of the element on the first intersection, so visible is terminal.
- **Journal listing.** The fetched articles are sorted in place, newest first, with a missing `publishDate` counted as timestamp 0. That same array is stored.
- **Overlay descriptors.** `getOverlayDescriptor(i)` returns `Object.values(overlayDescriptors)[i % 8]`.

JavaScript's `Array.prototype.sort` is stable. Given the comparator `(a, b) => key(a) - key(b)`, it produces one particular result. `StableSort.SortBy` is that result, defined as an insertion sort. The properties "a permutation, in key order, equal keys in received order" characterise it completely (`SortByCharacterized`, `SortByUnique`), so which sorting algorithm the engine uses makes no difference. `StableSort.SortInPlace` is an in-place array algorithm proved to leave `SortBy` of the old contents in the array.

Modules:

| module | models |
|---|---|
| `Wrappers` | `Option` for optional fields and `undefined` results |
| `Entities` | the CMS records of `src/entities/index.ts` |
| `JsNumber` | JavaScript `%` (truncating, `NaN` on a zero divisor) and `array[i]` |
| `StableSort` | the stable, in-place `Array.prototype.sort` by an integer key |
| `HomeCuration` | the home page's list transforms |
| `TestimonialCarousel` | next / previous, as written and corrected |
| `Reveal` | `AnimatedElement` as a state machine and as an object |
| `Home` | the home page component's state |
| `JournalPage` | the journal listing |
| `OverlayDescriptors` | the descriptor table and its cyclic lookup |

Inputs that come from outside the modelled code are parameters. The fetched collections are arrays and sequences handed to `FetchData` / `FetchArticles`. Intersection callbacks, timer expiry and unmounting are the `Reveal.Event`s.

## Model

| member | source | states |
|---|---|---|
| `StableSort.SortByCharacterized` | src/components/pages/HomePage.tsx:78 | the reference sort keeps length and multiset, is non-decreasing in the key, and keeps every key class in received order (stability) |
| `StableSort.SortByUnique` | src/components/pages/HomePage.tsx:78 | any arrangement in key order that keeps every key class in received order equals `SortBy`; the stable sort's result is unique |
| `StableSort.SortBySortedIdentity` | src/components/pages/JournalPage.tsx:16-20 | sorting a list already in key order leaves it unchanged |
| `StableSort.SortByIdempotent` | src/components/pages/JournalPage.tsx:16-20 | sorting twice gives the same as sorting once |
| `StableSort.SortInPlace` | src/components/pages/JournalPage.tsx:16 | sorting in place leaves exactly `SortBy` of the old array contents in the same array |
| `HomeCuration.Take` | src/components/pages/HomePage.tsx:79-80 | `slice(0, k)` has length min(k, n), agrees with the input position by position, and is a prefix of it |
| `HomeCuration.CuratePillars` | src/components/pages/HomePage.tsx:78 | the shown pillars are a permutation of the fetched ones, non-decreasing in `displayOrder` (missing as 0), and pillars with equal order stay in fetched order |
| `HomeCuration.CurateSteps` | src/components/pages/HomePage.tsx:81 | the same for ritual steps and `stepNumber` |
| `HomeCuration.CurateBlends` | src/components/pages/HomePage.tsx:79 | the shown blends are exactly the first min(4, n) fetched, in fetched order |
| `HomeCuration.CurateIngredients` | src/components/pages/HomePage.tsx:80 | the shown ingredients are exactly the first min(6, n) fetched, in fetched order |
| `HomeCuration.ActiveOnly` | src/components/pages/HomePage.tsx:82 | the filter keeps only fetched benefits whose `isActive` is true (a missing flag is dropped), keeps every one of them, and invents none |
| `HomeCuration.ActiveOnlyCounts` | src/components/pages/HomePage.tsx:82 | each active benefit appears in the filtered list exactly as often as it was fetched; an inactive one not at all |
| `HomeCuration.ActiveOnlyKeepsOrder` | src/components/pages/HomePage.tsx:82 | the filtered list is a subsequence of the fetched one: the kept benefits stay in fetched order |
| `HomeCuration.CurateBenefits` | src/components/pages/HomePage.tsx:82 | at most six benefits are shown (min(6, number active)); all are active, all were fetched, they are non-decreasing in `displayOrder`, and for each `displayOrder` the shown ones are the first of that order in the filtered list, in filtered order (stability) |
| `HomeCuration.BenefitsKeepSmallestKeys` | src/components/pages/HomePage.tsx:82 | no active benefit is dropped while one with a strictly larger `displayOrder` is shown |
| `HomeCuration.BenefitsAllShownWhenFew` | src/components/pages/HomePage.tsx:82 | with six or fewer active benefits, a benefit is shown if and only if it was fetched and is active |
| `HomeCuration.BenefitsFromAnyStableSort` | src/components/pages/HomePage.tsx:82 | the shown benefits are the first six of any stable key-order arrangement of the active ones |
| `HomeCuration.CurateBenefitsIdempotent` | src/components/pages/HomePage.tsx:82 | curating the curated benefits again changes nothing |
| `HomeCuration.CuratePillarsIdempotent` | src/components/pages/HomePage.tsx:78 | sorting the sorted pillars again changes nothing |
| `HomeCuration.CurateStepsIdempotent` | src/components/pages/HomePage.tsx:81 | sorting the sorted steps again changes nothing |
| `HomeCuration.CurateBlendsIdempotent` | src/components/pages/HomePage.tsx:79 | slicing the sliced blends again changes nothing |
| `HomeCuration.PillarsWithoutOrderFirst` | src/components/pages/HomePage.tsx:78 | when every present `displayOrder` is positive, pillars without one come before all pillars with one |
| `Home.HomePage.constructor` | src/components/pages/HomePage.tsx:57-63 | every list starts empty and the carousel index at 0 |
| `Home.HomePage.FetchData` | src/components/pages/HomePage.tsx:78-84 | the pillar and step arrays are themselves reordered and stored; blends, ingredients and benefits are curated; testimonials and sustainability points are stored exactly as received; the carousel index is untouched |
| `Home.HomePage.ShownTestimonial` | src/components/pages/HomePage.tsx:490-501 | a testimonial is rendered exactly when the list is non-empty; it is `testimonials[activeTestimonial]`, and that index is then in range |
| `Home.HomePage.NextTestimonial` | src/components/pages/HomePage.tsx:93-95 | the index becomes `Next(i, n)` and stays a valid position |
| `Home.HomePage.PrevTestimonial` | src/components/pages/HomePage.tsx:97-99 | the index becomes `Prev(i, n)` and stays a valid position |
| `Home.HomePage.SelectTestimonial` | src/components/pages/HomePage.tsx:555-558 | a dot click sets the index to exactly that dot's position |
| `TestimonialCarousel.ClickBeforeLoadLosesIndex` | src/components/pages/HomePage.tsx:93-99 | as written, next/previous with no testimonials give `NaN`; `NaN` stays `NaN`; once testimonials exist, `testimonials[NaN]` is `undefined` |
| `TestimonialCarousel.Next` | src/components/pages/HomePage.tsx:93-95 | with n > 0 the result is in [0, n): i + 1, or 0 after the last; with n = 0 the index is kept |
| `TestimonialCarousel.Prev` | src/components/pages/HomePage.tsx:97-99 | with n > 0 the result is in [0, n): i − 1, or n − 1 from the first; with n = 0 the index is kept |
| `TestimonialCarousel.AgreesWithSourceWhenNonEmpty` | src/components/pages/HomePage.tsx:93-99 | for n > 0 and i in range, the corrected steps equal the source's `(i + 1) % n` and `(i - 1 + n) % n` computed on JavaScript numbers |
| `TestimonialCarousel.PrevUndoesNext` | src/components/pages/HomePage.tsx:93-99 | previous after next, and next after previous, return to the same index |
| `TestimonialCarousel.AdvanceBy` | src/components/pages/HomePage.tsx:93-95 | k presses of next from i land on i + k, wrapped once past n |
| `TestimonialCarousel.FullCycle` | src/components/pages/HomePage.tsx:93-95 | n presses of next come back to the starting testimonial |
| `Reveal.Step` | src/components/pages/HomePage.tsx:27-35 | each event keeps the state consistent (only a hidden element is observed), never moves the phase back, never makes `Visible` stop being visible, and never resumes observing |
| `Reveal.VisibleIsTerminal` | src/components/pages/HomePage.tsx:31 | once the class is added, no sequence of events removes it |
| `Reveal.RunMonotone` | src/components/pages/HomePage.tsx:27-35 | over any sequence of events the phase only moves forward |
| `Reveal.IntersectionAfterUnobserveIgnored` | src/components/pages/HomePage.tsx:33 | after unobserve, leaving and re-entering the viewport changes nothing |
| `Reveal.NoScheduleWhenNotObserving` | src/components/pages/HomePage.tsx:33 | an element no longer observed is never scheduled again |
| `Reveal.ScheduledAtMostOnce` | src/components/pages/HomePage.tsx:27-35 | from mount, the reveal is scheduled at most once whatever events follow |
| `Reveal.RevealNeedsIntersection` | src/components/pages/HomePage.tsx:28-30 | an element leaves `Hidden` only after a callback reported it intersecting |
| `Reveal.ScheduledThenRevealed` | src/components/pages/HomePage.tsx:30-32 | once scheduled, the element is visible when the timer fires, whatever happened in between, unmounting included |
| `Reveal.IntersectionSchedules` | src/components/pages/HomePage.tsx:28-33 | the first intersecting report on an observed, hidden element schedules the reveal and stops observing it |
| `Reveal.UnmountStopsObserving` | src/components/pages/HomePage.tsx:38 | `disconnect` stops observation and leaves the phase as it was |
| `Reveal.RunAppend` | src/components/pages/HomePage.tsx:27-38 | running two event sequences one after the other is running their concatenation |
| `Reveal.StaysObserved` | src/components/pages/HomePage.tsx:27-37 | until an intersecting report or unmount, the mounted element stays hidden and observed; in particular the initial "not intersecting" report that `observe` sends for an element below the fold changes nothing |
| `Reveal.MountedThenRevealed` | src/components/pages/HomePage.tsx:27-38 | from mount, after any non-intersecting reports and timer events, an intersecting report and then, after any other events, the timer make the element visible |
| `Reveal.AnimatedElement.constructor` | src/components/pages/HomePage.tsx:37 | on mount the element is hidden and observed |
| `Reveal.AnimatedElement.OnIntersection` | src/components/pages/HomePage.tsx:27-35 | the callback performs exactly `Step` on an intersection report |
| `Reveal.AnimatedElement.OnTimer` | src/components/pages/HomePage.tsx:30-32 | the timeout performs exactly `Step` on timer expiry |
| `Reveal.AnimatedElement.OnUnmount` | src/components/pages/HomePage.tsx:38 | the cleanup stops observing and leaves the phase alone; a pending timer still fires |
| `JournalPage.SortNewestFirst` | src/components/pages/JournalPage.tsx:16-20 | the listing is a permutation of the fetched articles, non-increasing in date (missing as 0), with equal dates in fetched order |
| `JournalPage.NewestFirstUnique` | src/components/pages/JournalPage.tsx:16-20 | every newest-first arrangement that keeps equal dates in fetched order is the listing |
| `JournalPage.SortNewestFirstIdempotent` | src/components/pages/JournalPage.tsx:16-20 | re-sorting the listing leaves it unchanged |
| `JournalPage.UndatedLast` | src/components/pages/JournalPage.tsx:17-19 | when every dated article is dated after the epoch, undated articles come after all dated ones |
| `JournalPage.EpochDateTiesWithUndated` | src/components/pages/JournalPage.tsx:17-19 | an article dated exactly at the epoch ties with an undated one, which may then come first |
| `JournalPage.ScenarioTwoDatesAndUndated` | src/components/pages/JournalPage.tsx:16-20 | fetched 2024-01-01, 2024-06-01 and undated, the listing is 2024-06-01, 2024-01-01, undated |
| `JournalPage.Journal.constructor` | src/components/pages/JournalPage.tsx:11 | the listing starts empty |
| `JournalPage.Journal.FetchArticles` | src/components/pages/JournalPage.tsx:15-21 | the fetched array itself is reordered into `SortNewestFirst` of its old contents, and that is what is stored |
| `JournalPage.Journal.FetchThenRender` | src/components/pages/JournalPage.tsx:57-62 | after a fetch the "No articles published yet" branch is taken exactly when nothing was fetched |
| `JsNumber.TruncRem` | src/data/overlay-descriptors.ts:64 | JavaScript `%` by a positive divisor: the result has the sign of the dividend (or is 0), is smaller than the divisor in magnitude, and differs from the dividend by a multiple of the divisor; for a non-negative dividend it is the Euclidean remainder |
| `JsNumber.Rem` | src/components/pages/HomePage.tsx:94 | for a divisor that is `NaN` or a non-negative number (every call site divides by a length), JavaScript `%` is a number exactly when both operands are numbers and the divisor is positive, and is then the remainder ECMAScript defines (sign of the dividend, magnitude below the divisor, dividend minus result a multiple of the divisor); otherwise `NaN` |
| `JsNumber.RemNonNegative` | src/components/pages/HomePage.tsx:94 | for i ≥ 0 and n > 0, JavaScript `i % n` is the Euclidean `i % n` |
| `OverlayDescriptors.Values` | src/data/overlay-descriptors.ts:63 | `Object.values` gives the eight entries, from `goldenHour` to `sacredStillness` |
| `OverlayDescriptors.GetOverlayDescriptor` | src/data/overlay-descriptors.ts:62-65 | the lookup is defined exactly for i ≥ 0 or i a multiple of 8. For i ≥ 0 it is entry i mod 8; for a negative multiple of 8 the remainder is `-0` and the result is `goldenHour`. A defined result is always a table entry |
| `OverlayDescriptors.FirstCycleInDeclarationOrder` | src/data/overlay-descriptors.ts:8-56 | indices 0 to 7 give the entries in declaration order |
| `OverlayDescriptors.Periodic` | src/data/overlay-descriptors.ts:64 | for i ≥ 0, index i + 8 gives the same descriptor as i |
| `OverlayDescriptors.NegativeIndexUndefined` | src/data/overlay-descriptors.ts:64 | a negative index that is not a multiple of 8 yields `undefined` |
| `OverlayDescriptors.EntriesNonEmpty` | src/data/overlay-descriptors.ts:10-55 | every entry has a non-empty keyword and a non-empty descriptor |

## Findings

| source | as written | input that shows it | evidently intended | confidence | as-written member | corrected member |
|---|---|---|---|---|---|---|
| src/components/pages/HomePage.tsx:93-99 | "next" and "previous" compute `% testimonials.length` even when the list is empty. The arrow buttons (lines 537-550) are rendered before the testimonials arrive. The result is `NaN`, and nothing resets it. | Click "next" while the fetch is pending, then let it return one or more testimonials. The guard at line 490 passes, `testimonials[NaN]` is `undefined`, and line 501 reads `.customerImage` of it. | With no testimonials the index stays where it is (0) | not executed; high | `TestimonialCarousel.ClickBeforeLoadLosesIndex` | `TestimonialCarousel.Next` |

The corrected `Next` and `Prev` are what `Home.HomePage` uses. `AgreesWithSourceWhenNonEmpty` shows they equal the source's formulas whenever there is at least one testimonial.

## Left out

- Data fetching (`BaseCrudService.getAll` / `getById`, `Promise.all`, unhandled rejections) is foreign backend I/O. Only the transforms applied to the fetched lists are modelled.
- Date parsing (`new Date(...).getTime()`) and formatting (`date-fns` `format`) are not modelled. `publishDate` is already an integer timestamp. An unparsable date, which yields `NaN` in the comparator, is not modelled.
- JavaScript floating point is not modelled: `displayOrder`, `stepNumber`, `price` and `readTime` are integers. Fractional or `NaN` keys are not modelled, and neither is `toFixed`.
- The overlay lookup is modelled for integer indices only.
- What the browser does is reduced to events: `IntersectionObserver` thresholds, `setTimeout` delays, `classList` and any JSX or animation rendering. The `if (!element) return` path is not modelled, because the ref is attached when the effect runs. Re-running the effect when `delay` changes is not modelled.
- `Home.HomePage.FetchData`: requires the testimonials to still be the initial empty list, because the effect runs once after mount.
- `Home.HomePage.FetchData`: stores the contents of the sorted pillar and step arrays as sequences, not the array reference. None of the modelled code writes to those arrays afterwards. The same holds for `JournalPage.Journal.FetchArticles`.
- The wellness benefits are filtered into a fresh array and sorted there. That sort is modelled on sequences (`CurateBenefits`), because the intermediate array is not visible to anything.
- `JournalPage.UndatedLast`: states "undated after dated" only for timestamps strictly after the epoch. An article dated exactly at timestamp 0 ties with undated ones (`EpochDateTiesWithUndated`).
- A missing sort key is compared as 0, not as the lowest possible key. With negative `displayOrder` values, pillars without one do not come first.
- The router (`src/components/Router.tsx`), the header's menu toggle, the contact form, and the static pages (`AboutPage.tsx`, `Footer.tsx`, `JournalArticlePage.tsx`) hold no logic of the modelled kind.
- No code in `src/` backfills tasting notes. `src/data/tasting-notes.ts` is a constant table that none of the shown files reads, so no backfill is modelled.
- `src/entities/index.ts` holds only type declarations. It is used as the schema of `Entities`.
- `JsNumber.Rem`: a negative divisor is not modelled (in JavaScript `5 % -3` is `2`). Every modelled call divides by an array length.

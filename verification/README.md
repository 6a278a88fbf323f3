# Sluggable, modelled in Dafny

A Dafny model of the `Sluggable` trait for Eloquent records (`src/Sluggable.php`).
A record using the trait gets a URL slug when it is created. The slug is derived
from an origin attribute (by default `name`) and written to a slug attribute (by
default `slug`). A slug that is already taken gets the suffix `-1`, `-2`, … from
a counter kept on the record.

Files:

- `wrappers.dfy`: `Option` (PHP `null`), `Result` and `Outcome` (a return value or a thrown exception).
- `decimal.dfy`: PHP's conversion of the counter to its decimal text in `'-' . ++$this->slugIteration`.
- `sluggable.dfy` has four parts:
  - the trait's read-only accessors, as functions of the record's settings and attribute map;
  - the specification of the collision search (`Candidate`, `FirstFree`) and the lemmas about it;
  - the predicate `GenerationOutcome`, which says what `setSlug()` and the creating hook leave behind;
  - the class `SluggableRecord`, whose methods update the attribute map and the counter in place.
- `scenarios.dfy`: client methods that replay concrete cases through the class's contracts. Three stand-in normalisers are used there. `KeepSlugChars` drops everything except `a-z`, `0-9` and `-`; `Verbatim` is the identity; `Constant` maps everything to one slug.

How the pieces are modelled:

- `str_slug` is the record's `slugify: string -> string` field. Nothing is known about it, except where the retry loop needs `SuffixesDistinct` (see below).
- `slugExists($slug)` is `SlugExists(existing, slug)`: membership in the record's `existing` set, which stands for the values of the slug column among persisted records.
- PHP truthiness (`?:`, `!!`, `empty()`) on a string-or-null value is `Truthy`. `null`, `""` and `"0"` are all falsy.
- `EmptyOriginException` is the error value `EmptyOrigin`.
- The recursion in `generateSlug` is a `while` loop in `SluggableRecord.GenerateSlug`. Its result is specified by `FirstFree`:
  - the counter ends at some `k` no smaller than where it started (`k0`);
  - the candidate at `k` is free;
  - every candidate tried for a counter value in `[k0, k)` was taken.

  The first candidate is `slugify(origin + append)`. Each later one is `slugify(origin + "-" + k)`. So the counter rises by exactly the number of collisions.
- Termination rests on one stated assumption, `SuffixesDistinct(slugify)`: for a given origin, different counter values give different slugs. With that assumption and a finite `existing` set, `FreeSuffixExists` proves by pigeonhole (`CandidatesCovered`) that some later suffix is free. The loop decreases towards that suffix. Without the assumption, the PHP recursion need not end either.

## Behaviour of the code that differs from what one might expect

The model follows the code in each case.

- **The counter persists across calls.** One might expect the attempt counter to belong to a single generation call. In the code, `$slugIteration` is an instance field (src/Sluggable.php:10), and nothing ever resets it. A second generation on the same record therefore continues from the old value. `Scenarios.CounterCarriesOver` shows a record that collided twice and then, on its next collision, tries `a-3`, not `a-1`. So the suffixes of one generation call start after the counter's current value, not at 1.
- **A generated slug can be empty.** One might expect generation never to yield an empty slug. The code only rejects a falsy origin. When `str_slug` turns a truthy origin into `""` (or `"0"`), that value is checked against the existing slugs and written as it is. `GeneratedSlugIsFree` therefore states that the record has a slug afterwards exactly when the generated text is truthy. `Scenarios.BlankSlugWritten` shows origin `"!!!"` leading to slug `""`, and the record still has no slug afterwards.
- **No limit on attempts.** The code has no ceiling on the number of attempts, and neither does the model.

## Model

| member | source | states |
|---|---|---|
| `Sluggable.Truthy` | src/Sluggable.php:97-99 | PHP truthiness as used by `empty()` here and by `!!` (line 31) and `?:` (lines 45, 71, 81): a string-or-null value is truthy iff it is neither null, `""` nor `"0"` |
| `Sluggable.SlugExists` | src/Sluggable.php:56-62 | a slug exists iff some persisted slug in `existing` equals it; the query changes nothing |
| `Sluggable.SlugColumn` | src/Sluggable.php:69-72 | the slug column is the configured `slugColumn` exactly when that setting is truthy, otherwise `"slug"`; the result is always truthy |
| `Sluggable.SlugOriginColumn` | src/Sluggable.php:79-82 | the origin column is the configured `slugOrigin` exactly when that setting is truthy, otherwise `"name"`; the result is always truthy |
| `Sluggable.HasSlug` | src/Sluggable.php:29-34 | a record has a slug iff the slug column is present and its value is neither `""` nor `"0"`; a pure read, so attributes and counter are untouched |
| `Sluggable.GetSlugOrigin` | src/Sluggable.php:91-102 | fails with `EmptyOrigin` iff the origin attribute is absent or falsy; otherwise returns that attribute's value unchanged; reads only |
| `Sluggable.CandidatesCovered` | src/Sluggable.php:124-127 | if `n` consecutive suffixed candidates are all taken, at least `n` slugs exist (suffixes are pairwise distinct) |
| `Sluggable.FreeSuffixExists` | src/Sluggable.php:124-127 | for any counter value, some later suffixed candidate is free, so the retry loop ends |
| `Sluggable.FirstFreeUnique` | src/Sluggable.php:111-131 | the search is deterministic: the final counter and the returned slug are determined by the origin, `append`, the starting counter and the existing slugs |
| `Sluggable.FreeFirstTryKeepsCounter` | src/Sluggable.php:124-130 | when `slugify(origin + append)` is free it is the result and the counter is unchanged |
| `Sluggable.CollisionUsesCounterSuffix` | src/Sluggable.php:111-141 | after a first-try collision the counter has advanced, the result is `slugify(origin + "-" + k)` for the final counter `k`, rebuilt from the origin, and every suffix tried before it was taken |
| `Sluggable.FirstFreeIsLeast` | src/Sluggable.php:124-130 | the search stops at the first free candidate: no free candidate precedes the final counter |
| `Sluggable.GeneratedSlugIsFree` | src/Sluggable.php:41-47 | a successful generated write puts a slug not among the existing ones into the slug column, leaves every other attribute as it was, never lowers the counter, and leaves the record with a slug iff the generated text is truthy |
| `Sluggable.GenerationFailsOnEmptyOrigin` | src/Sluggable.php:41-47 | writing a generated slug fails exactly when the origin is absent or falsy, and then raises `EmptyOrigin` with the attributes and counter as they were |
| `Sluggable.SluggableRecord.constructor` | src/Sluggable.php:10 | a new record starts with the counter at 0 |
| `Sluggable.SluggableRecord.GetSlugSuffix` | src/Sluggable.php:138-141 | pre-increments the counter by exactly 1 and returns `"-"` followed by its new value |
| `Sluggable.SluggableRecord.GenerateSlug` | src/Sluggable.php:111-131 | on an empty origin raises `EmptyOrigin` and leaves the counter alone; otherwise returns the first free candidate (`FirstFree`): never an existing slug, the counter raised by the number of collisions and never lowered |
| `Sluggable.SluggableRecord.SetSlug` | src/Sluggable.php:41-47 | a truthy argument is written verbatim to the slug column, with no uniqueness check and the counter unchanged; a null or falsy one is replaced by a generated slug (`GenerationOutcome`), and on an empty origin nothing is written |
| `Sluggable.SluggableRecord.Creating` | src/Sluggable.php:17-21 | a record that already has a slug is left entirely unchanged; otherwise it receives a generated slug as `SetSlug(null)` would, or `EmptyOrigin` propagates with nothing written |
| `Decimal.NatToString` | src/Sluggable.php:140 | the counter prints as a non-empty string of decimal digits with no leading zero |
| `Decimal.DecimalRoundTrip` | src/Sluggable.php:140 | reading the printed counter back as a decimal number gives the counter |
| `Decimal.NatToStringInjective` | src/Sluggable.php:140 | different counter values print differently, so different suffixes |

## Left out

- `str_slug` (src/Sluggable.php:114) is not modelled. It is a foreign library function with transliteration rules; the model takes it as an arbitrary function. The retry loop additionally assumes `SuffixesDistinct`.
- `Sluggable.SluggableRecord.GenerateSlug` requires `SuffixesDistinct(slugify)`, and `SetSlug` and `Creating` require it only on the paths that generate a slug (a falsy argument, a record without a slug). The code does not check this condition. It is the condition under which the recursion at src/Sluggable.php:124-127 ends.
- The Eloquent query in `slugExists` (src/Sluggable.php:58-61) is modelled only as membership in `existing`. How rows are selected and how the database answers are not modelled.
- The check-then-write race with concurrent inserts is not modelled. Persistence is outside the trait. A free slug is free only at the moment of the check; a unique index on the slug column is the real guarantee.
- Registration through `self::creating` (src/Sluggable.php:17) is not modelled; only the closure's body is, as `Creating`. Event dispatch belongs to the framework.
- `getAttributeValue`/`setAttribute` are a plain map read and write. Accessors, mutators, casts and non-string attribute values are not modelled.
- The recursion re-reads the origin on every step. The loop reads it once. The attributes cannot change during the loop, so every re-read gives the same value.
- The counter is an unbounded `nat`. PHP's integer would turn into a float past `PHP_INT_MAX`, which no realistic number of collisions reaches.

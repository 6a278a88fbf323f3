/**
 * The Sluggable trait: a record derives a unique slug from an origin
 * attribute when it is created, resolving collisions with "-1", "-2", ...
 *
 * The slug normaliser (`str_slug`) is the record's `slugify` function, about
 * which nothing is assumed except, where the retry loop needs it, that it keeps
 * the numbered suffixes of one origin apart. The database query behind
 * `slugExists` is membership in the record's `existing` set of slugs.
 */
module Sluggable {
  import opened Wrappers
  import opened Decimal

  // ---------------------------------------------------------------------------
  // Values and the trait's read-only accessors
  // ---------------------------------------------------------------------------

  /** PHP truthiness of a string-or-null value: null, "" and "0" are falsy. */
  predicate Truthy(v: Option<string>)
    ensures Truthy(v) <==> v != None && v != Some("") && v != Some("0")
  {
    v.Some? && v.value != "" && v.value != "0"
  }

  /** The record type's optional `slugColumn` and `slugOrigin` properties. */
  datatype Settings = Settings(slugColumn: Option<string>, slugOrigin: Option<string>)

  /** The only error the trait raises: `EmptyOriginException`. */
  datatype SlugError = EmptyOrigin

  /** Reading an attribute: a missing key reads as null. */
  function Lookup(attributes: map<string, string>, key: string): Option<string> {
    if key in attributes then Some(attributes[key]) else None
  }

  /** The column holding the slug: the configured one when truthy, else "slug". */
  function SlugColumn(settings: Settings): (column: string)
    ensures Truthy(Some(column))
    ensures Some(column) == settings.slugColumn <==> Truthy(settings.slugColumn)
    ensures Some(column) != settings.slugColumn ==> column == "slug"
  {
    if Truthy(settings.slugColumn) then settings.slugColumn.value else "slug"
  }

  /** The column the slug is derived from: the configured one when truthy, else "name". */
  function SlugOriginColumn(settings: Settings): (column: string)
    ensures Truthy(Some(column))
    ensures Some(column) == settings.slugOrigin <==> Truthy(settings.slugOrigin)
    ensures Some(column) != settings.slugOrigin ==> column == "name"
  {
    if Truthy(settings.slugOrigin) then settings.slugOrigin.value else "name"
  }

  /** Whether the record already carries a slug: a present, truthy slug attribute. */
  predicate HasSlug(settings: Settings, attributes: map<string, string>)
    ensures HasSlug(settings, attributes) <==>
      SlugColumn(settings) in attributes && attributes[SlugColumn(settings)] !in {"", "0"}
  {
    Truthy(Lookup(attributes, SlugColumn(settings)))
  }

  /** The origin text, or `EmptyOrigin` when the origin attribute is absent or falsy. */
  function GetSlugOrigin(settings: Settings, attributes: map<string, string>): (r: Result<string, SlugError>)
    ensures r.Failure? <==> !Truthy(Lookup(attributes, SlugOriginColumn(settings)))
    ensures r.Failure? ==> r.error == EmptyOrigin
    ensures r.Success? ==>
      SlugOriginColumn(settings) in attributes &&
      r.value == attributes[SlugOriginColumn(settings)] && Truthy(Some(r.value))
  {
    var origin := Lookup(attributes, SlugOriginColumn(settings));
    if !Truthy(origin) then Failure(EmptyOrigin) else Success(origin.value)
  }

  /** The uniqueness query: some persisted record already has this slug. */
  predicate SlugExists(existing: set<string>, slug: string)
    ensures SlugExists(existing, slug) <==> exists taken :: taken in existing && taken == slug
  {
    slug in existing
  }

  // ---------------------------------------------------------------------------
  // The candidates the collision search tries
  // ---------------------------------------------------------------------------

  /** The suffix built from the counter value `k`: "-" followed by its digits. */
  function Suffix(k: nat): string {
    "-" + NatToString(k)
  }

  /** The slug of the origin text with `text` appended. */
  function SlugOf(slugify: string -> string, origin: string, text: string): string {
    slugify(origin + text)
  }

  /**
   * The assumption under which the retry loop ends: the slugs of one origin
   * with different numbered suffixes are different.
   */
  ghost predicate SuffixesDistinct(slugify: string -> string) {
    forall origin: string, i: nat, j: nat ::
      i != j ==> SlugOf(slugify, origin, Suffix(i)) != SlugOf(slugify, origin, Suffix(j))
  }

  /**
   * The candidate tried when the counter stands at `k`, for a search that
   * started with the counter at `k0` and the caller's `append`: the first try
   * appends `append`, every later one appends the counter's suffix to the
   * origin text (not to the previous candidate).
   */
  function Candidate(slugify: string -> string, origin: string, append: string, k0: nat, k: nat): string {
    if k == k0 then SlugOf(slugify, origin, append) else SlugOf(slugify, origin, Suffix(k))
  }

  /**
   * `slug` is what the search returns with the counter ending at `k`: every
   * candidate tried before it collided, and it does not.
   */
  ghost predicate FirstFree(slugify: string -> string, existing: set<string>, origin: string,
                            append: string, k0: nat, k: nat, slug: string)
  {
    && k0 <= k
    && slug == Candidate(slugify, origin, append, k0, k)
    && slug !in existing
    && forall j :: k0 <= j < k ==> Candidate(slugify, origin, append, k0, j) in existing
  }

  /** If `n` consecutive suffixed slugs are all taken, at least `n` slugs exist. */
  lemma {:induction false} CandidatesCovered(slugify: string -> string, origin: string,
                                             existing: set<string>, from: nat, n: nat)
    requires SuffixesDistinct(slugify)
    requires forall k: nat :: from < k <= from + n ==> SlugOf(slugify, origin, Suffix(k)) in existing
    ensures n <= |existing|
    decreases n
  {
    if n > 0 {
      var last := SlugOf(slugify, origin, Suffix(from + n));
      var rest := existing - {last};
      forall k: nat | from < k <= from + n - 1
        ensures SlugOf(slugify, origin, Suffix(k)) in rest
      {
        assert SlugOf(slugify, origin, Suffix(k)) != last;
      }
      CandidatesCovered(slugify, origin, rest, from, n - 1);
    }
  }

  /** However far the counter has got, some later suffixed slug is free. */
  lemma FreeSuffixExists(slugify: string -> string, origin: string, existing: set<string>, from: nat)
    returns (k: nat)
    requires SuffixesDistinct(slugify)
    ensures from < k && SlugOf(slugify, origin, Suffix(k)) !in existing
  {
    if forall k: nat :: from < k ==> SlugOf(slugify, origin, Suffix(k)) in existing {
      CandidatesCovered(slugify, origin, existing, from, |existing| + 1);
    }
    k :| from < k && SlugOf(slugify, origin, Suffix(k)) !in existing;
  }

  /** The search is deterministic: the final counter and the slug are unique. */
  lemma FirstFreeUnique(slugify: string -> string, existing: set<string>, origin: string,
                        append: string, k0: nat, k: nat, slug: string, k': nat, slug': string)
    requires FirstFree(slugify, existing, origin, append, k0, k, slug)
    requires FirstFree(slugify, existing, origin, append, k0, k', slug')
    ensures k == k' && slug == slug'
  {
  }

  /** No collision on the first try: that slug is returned and the counter is untouched. */
  lemma FreeFirstTryKeepsCounter(slugify: string -> string, existing: set<string>, origin: string,
                                 append: string, k0: nat, k: nat, slug: string)
    requires FirstFree(slugify, existing, origin, append, k0, k, slug)
    requires SlugOf(slugify, origin, append) !in existing
    ensures k == k0 && slug == SlugOf(slugify, origin, append)
  {
    assert k0 < k ==> Candidate(slugify, origin, append, k0, k0) in existing;
  }

  /**
   * A collision on the first try: the counter has advanced by the number of
   * collisions, and the result is the origin's slug with the final counter's suffix.
   */
  lemma CollisionUsesCounterSuffix(slugify: string -> string, existing: set<string>, origin: string,
                                   append: string, k0: nat, k: nat, slug: string)
    requires FirstFree(slugify, existing, origin, append, k0, k, slug)
    requires SlugOf(slugify, origin, append) in existing
    ensures k0 < k && slug == SlugOf(slugify, origin, Suffix(k))
    ensures forall j :: k0 < j < k ==> SlugOf(slugify, origin, Suffix(j)) in existing
  {
    forall j | k0 < j < k
      ensures SlugOf(slugify, origin, Suffix(j)) in existing
    {
      assert Candidate(slugify, origin, append, k0, j) in existing;
    }
  }

  /** The search stops at the first free candidate: no free candidate lies before it. */
  lemma FirstFreeIsLeast(slugify: string -> string, existing: set<string>, origin: string,
                         append: string, k0: nat, k: nat, slug: string, j: nat)
    requires FirstFree(slugify, existing, origin, append, k0, k, slug)
    requires k0 <= j && Candidate(slugify, origin, append, k0, j) !in existing
    ensures k <= j
  {
  }

  // ---------------------------------------------------------------------------
  // What setSlug() and the creating hook leave behind after generating a slug
  // ---------------------------------------------------------------------------

  /**
   * The effect of writing a generated slug into the record: on an empty origin
   * nothing changes and `EmptyOrigin` is raised; otherwise only the slug column
   * changes, to the first free candidate, and the counter ends at `k1`.
   */
  ghost predicate GenerationOutcome(settings: Settings, slugify: string -> string, existing: set<string>,
                                    before: map<string, string>, after: map<string, string>,
                                    k0: nat, k1: nat, r: Outcome<SlugError>)
  {
    var column := SlugColumn(settings);
    match GetSlugOrigin(settings, before)
    case Failure(e) => r == Fail(e) && after == before && k1 == k0
    case Success(origin) =>
      && r == Pass
      && column in after
      && after == before[column := after[column]]
      && FirstFree(slugify, existing, origin, "", k0, k1, after[column])
  }

  /**
   * A successful generation writes a slug that is not taken, touches no other
   * attribute, never lowers the counter, and leaves the record with a slug
   * exactly when the generated text is truthy.
   */
  lemma GeneratedSlugIsFree(settings: Settings, slugify: string -> string, existing: set<string>,
                            before: map<string, string>, after: map<string, string>, k0: nat, k1: nat)
    requires GenerationOutcome(settings, slugify, existing, before, after, k0, k1, Pass)
    ensures SlugColumn(settings) in after && after[SlugColumn(settings)] !in existing
    ensures forall key :: key != SlugColumn(settings) ==> Lookup(after, key) == Lookup(before, key)
    ensures HasSlug(settings, after) <==> Truthy(Some(after[SlugColumn(settings)]))
    ensures k0 <= k1
  {
  }

  /** Generation fails exactly on an empty origin, and then leaves the record as it was. */
  lemma GenerationFailsOnEmptyOrigin(settings: Settings, slugify: string -> string, existing: set<string>,
                                     before: map<string, string>, after: map<string, string>,
                                     k0: nat, k1: nat, r: Outcome<SlugError>)
    requires GenerationOutcome(settings, slugify, existing, before, after, k0, k1, r)
    ensures r.Fail? <==> !Truthy(Lookup(before, SlugOriginColumn(settings)))
    ensures r.Fail? ==> r.error == EmptyOrigin && after == before && k1 == k0
  {
  }

  // ---------------------------------------------------------------------------
  // The record
  // ---------------------------------------------------------------------------

  /** A record of a type that uses the trait. */
  class SluggableRecord {
    const settings: Settings
    /** The slug normaliser (`str_slug` with separator "-"). */
    const slugify: string -> string
    var attributes: map<string, string>
    /** The slugs already stored in the slug column of persisted records; the host's. */
    var existing: set<string>
    /** How many collisions this record has met so far; never reset. */
    var slugIteration: nat

    constructor (settings: Settings, slugify: string -> string,
                 attributes: map<string, string>, existing: set<string>)
      ensures this.settings == settings && this.slugify == slugify
      ensures this.attributes == attributes && this.existing == existing
      ensures slugIteration == 0
    {
      this.settings := settings;
      this.slugify := slugify;
      this.attributes := attributes;
      this.existing := existing;
      slugIteration := 0;
    }

    /** Advances the counter and returns the suffix for its new value. */
    method GetSlugSuffix() returns (suffix: string)
      modifies this`slugIteration
      ensures slugIteration == old(slugIteration) + 1
      ensures suffix == Suffix(slugIteration)
    {
      slugIteration := slugIteration + 1;
      suffix := Suffix(slugIteration);
    }

    /**
     * Slugs the origin text with `append`, and on each collision retries with
     * the counter's next suffix until the candidate is free.
     */
    method GenerateSlug(append: string) returns (r: Result<string, SlugError>)
      requires SuffixesDistinct(slugify)
      modifies this`slugIteration
      ensures old(slugIteration) <= slugIteration
      ensures GetSlugOrigin(settings, attributes).Failure? ==>
        r == Failure(EmptyOrigin) && slugIteration == old(slugIteration)
      ensures GetSlugOrigin(settings, attributes).Success? ==>
        r.Success? &&
        FirstFree(slugify, existing, GetSlugOrigin(settings, attributes).value, append,
                  old(slugIteration), slugIteration, r.value)
    {
      var origin := GetSlugOrigin(settings, attributes);
      if origin.Failure? {
        return Failure(origin.error);
      }
      var slug := SlugOf(slugify, origin.value, append);
      ghost var k0 := slugIteration;
      ghost var bound := FreeSuffixExists(slugify, origin.value, existing, k0);
      while SlugExists(existing, slug)
        invariant k0 <= slugIteration <= bound
        invariant slug == Candidate(slugify, origin.value, append, k0, slugIteration)
        invariant forall j :: k0 <= j < slugIteration ==> Candidate(slugify, origin.value, append, k0, j) in existing
        decreases bound - slugIteration
      {
        var suffix := GetSlugSuffix();
        slug := SlugOf(slugify, origin.value, suffix);
      }
      return Success(slug);
    }

    /**
     * Writes `slug` into the slug column when it is truthy, and otherwise
     * a generated slug; on an empty origin nothing is written.
     */
    method SetSlug(slug: Option<string>) returns (r: Outcome<SlugError>)
      requires !Truthy(slug) ==> SuffixesDistinct(slugify)
      modifies this`attributes, this`slugIteration
      ensures Truthy(slug) ==>
        r == Pass && attributes == old(attributes)[SlugColumn(settings) := slug.value] &&
        slugIteration == old(slugIteration)
      ensures !Truthy(slug) ==>
        GenerationOutcome(settings, slugify, existing, old(attributes), attributes,
                          old(slugIteration), slugIteration, r)
    {
      var column := SlugColumn(settings);
      if Truthy(slug) {
        attributes := attributes[column := slug.value];
        r := Pass;
      } else {
        var generated := GenerateSlug("");
        match generated
        case Failure(e) =>
          r := Fail(e);
        case Success(s) =>
          attributes := attributes[column := s];
          r := Pass;
      }
    }

    /** The body of the "creating" hook: generate a slug unless one is already set. */
    method Creating() returns (r: Outcome<SlugError>)
      requires !HasSlug(settings, attributes) ==> SuffixesDistinct(slugify)
      modifies this`attributes, this`slugIteration
      ensures old(HasSlug(settings, attributes)) ==>
        r == Pass && attributes == old(attributes) && slugIteration == old(slugIteration)
      ensures !old(HasSlug(settings, attributes)) ==>
        GenerationOutcome(settings, slugify, existing, old(attributes), attributes,
                          old(slugIteration), slugIteration, r)
    {
      if !HasSlug(settings, attributes) {
        r := SetSlug(None);
      } else {
        r := Pass;
      }
    }
  }
}

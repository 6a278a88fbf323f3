/**
 * Worked cases of the trait, with simple stand-ins for `str_slug`:
 * `KeepSlugChars` keeps lower-case letters, digits and hyphens and drops
 * everything else; `Verbatim` leaves its input as it is; `Constant` maps every
 * input to the same slug, so it breaks the assumption the retry loop needs.
 */
module Scenarios {
  import opened Wrappers
  import opened Decimal
  import opened Sluggable

  predicate IsSlugChar(c: char) {
    'a' <= c <= 'z' || '0' <= c <= '9' || c == '-'
  }

  /** The stand-in normaliser: the slug characters of `s`, in order. */
  function KeepSlugChars(s: string): string {
    if s == [] then [] else KeepChar(s[0]) + KeepSlugChars(s[1..])
  }

  function KeepChar(c: char): string {
    if IsSlugChar(c) then [c] else []
  }

  lemma {:induction false} KeepSlugCharsAppend(a: string, b: string)
    ensures KeepSlugChars(a + b) == KeepSlugChars(a) + KeepSlugChars(b)
  {
    if a == [] {
      assert a + b == b;
    } else {
      var ab := a + b;
      assert ab[0] == a[0] && ab[1..] == a[1..] + b;
      KeepSlugCharsAppend(a[1..], b);
      assert KeepSlugChars(ab) == KeepChar(a[0]) + (KeepSlugChars(a[1..]) + KeepSlugChars(b));
    }
  }

  lemma {:induction false} KeepSlugCharsKeepsSlugs(s: string)
    requires forall i :: 0 <= i < |s| ==> IsSlugChar(s[i])
    ensures KeepSlugChars(s) == s
  {
    if s != [] {
      KeepSlugCharsKeepsSlugs(s[1..]);
    }
  }

  /** The stand-in satisfies the assumption the retry loop relies on. */
  lemma KeepSlugCharsKeepsSuffixesApart()
    ensures SuffixesDistinct(KeepSlugChars)
  {
    forall origin: string, i: nat, j: nat | i != j
      ensures SlugOf(KeepSlugChars, origin, Suffix(i)) != SlugOf(KeepSlugChars, origin, Suffix(j))
    {
      SuffixKept(origin, i);
      SuffixKept(origin, j);
      var head := KeepSlugChars(origin);
      if head + Suffix(i) == head + Suffix(j) {
        assert Suffix(i) == (head + Suffix(i))[|head|..];
        assert NatToString(i) == Suffix(i)[1..];
        NatToStringInjective(i, j);
      }
    }
  }

  lemma SuffixKept(origin: string, k: nat)
    ensures SlugOf(KeepSlugChars, origin, Suffix(k)) == KeepSlugChars(origin) + Suffix(k)
  {
    KeepSlugCharsAppend(origin, Suffix(k));
    KeepSlugCharsKeepsSlugs(Suffix(k));
  }

  lemma HiSlug()
    ensures KeepSlugChars("hi!") == "hi"
  {
  }

  lemma HiSuffixed()
    ensures SlugOf(KeepSlugChars, "hi!", Suffix(1)) == "hi-1"
  {
    SuffixKept("hi!", 1);
    HiSlug();
    assert NatToString(1) == "1";
  }

  lemma HiCandidates()
    ensures Candidate(KeepSlugChars, "hi!", "", 0, 0) == "hi"
    ensures Candidate(KeepSlugChars, "hi!", "", 0, 1) == "hi-1"
  {
    HiSlug();
    HiSuffixed();
    assert "hi!" + "" == "hi!";
  }

  /** A free slug is used as it is. */
  method FreeSlugUsedAsIs() {
    KeepSlugCharsKeepsSuffixesApart();
    HiCandidates();
    var rec := new SluggableRecord(Settings(None, None), KeepSlugChars, map["name" := "hi!"], {});
    var r := rec.Creating();
    FreeFirstTryKeepsCounter(KeepSlugChars, {}, "hi!", "", 0, rec.slugIteration, rec.attributes["slug"]);
    assert r == Pass && rec.attributes["slug"] == "hi" && rec.slugIteration == 0;
  }

  /** A second record with the same origin gets the suffix "-1". */
  method CollisionGetsSuffix() {
    KeepSlugCharsKeepsSuffixesApart();
    HiCandidates();
    var rec := new SluggableRecord(Settings(None, None), KeepSlugChars, map["name" := "hi!"], {"hi"});
    var r := rec.Creating();
    FirstFreeIsLeast(KeepSlugChars, {"hi"}, "hi!", "", 0, rec.slugIteration, rec.attributes["slug"], 1);
    assert r == Pass && rec.attributes["slug"] == "hi-1" && rec.slugIteration == 1;
  }

  /** A slug set before creation is kept, and nothing is generated. */
  method PresetSlugKept() {
    KeepSlugCharsKeepsSuffixesApart();
    var rec := new SluggableRecord(Settings(Some("handle"), Some("title")), KeepSlugChars,
                                   map["title" := "a", "handle" := "mine"], {"mine"});
    var r := rec.Creating();
    assert r == Pass && rec.attributes["handle"] == "mine" && rec.slugIteration == 0;
  }

  /** A normaliser that gives every text the same slug. */
  function Constant(s: string): string {
    "x"
  }

  /** An explicit slug is written verbatim, without generating one, whatever the normaliser. */
  method ExplicitSlugWritten() {
    var rec := new SluggableRecord(Settings(None, None), Constant, map["name" := "a"], {"custom"});
    var r := rec.SetSlug(Some("custom"));
    assert r == Pass && rec.attributes == map["name" := "a", "slug" := "custom"] && rec.slugIteration == 0;
    r := rec.Creating();
    assert r == Pass && rec.attributes["slug"] == "custom";
  }

  /** Without an origin the hook raises `EmptyOrigin` and writes nothing. */
  method EmptyOriginRaises() {
    KeepSlugCharsKeepsSuffixesApart();
    var rec := new SluggableRecord(Settings(None, None), KeepSlugChars, map["name" := "0"], {});
    var r := rec.Creating();
    assert r == Fail(EmptyOrigin) && rec.attributes == map["name" := "0"];
  }

  /** A normaliser that leaves already slug-shaped text as it is. */
  function Verbatim(s: string): string {
    s
  }

  lemma VerbatimKeepsSuffixesApart()
    ensures SuffixesDistinct(Verbatim)
  {
    forall origin: string, i: nat, j: nat | i != j
      ensures SlugOf(Verbatim, origin, Suffix(i)) != SlugOf(Verbatim, origin, Suffix(j))
    {
      if origin + Suffix(i) == origin + Suffix(j) {
        assert Suffix(i) == (origin + Suffix(i))[|origin|..];
        assert NatToString(i) == Suffix(i)[1..];
        NatToStringInjective(i, j);
      }
    }
  }

  lemma CounterCandidates()
    ensures Candidate(Verbatim, "a", "", 0, 0) == "a"
    ensures Candidate(Verbatim, "a", "", 0, 1) == "a-1"
    ensures Candidate(Verbatim, "a", "", 0, 2) == "a-2"
    ensures Candidate(Verbatim, "a", "", 2, 2) == "a"
    ensures Candidate(Verbatim, "a", "", 2, 3) == "a-3"
  {
    assert NatToString(1) == "1" && NatToString(2) == "2" && NatToString(3) == "3";
  }

  /**
   * The counter is not reset between generations on one record: after two
   * collisions, a later collision on the same record continues with "-3".
   */
  method CounterCarriesOver() {
    VerbatimKeepsSuffixesApart();
    CounterCandidates();
    var rec := new SluggableRecord(Settings(None, None), Verbatim, map["name" := "a"], {"a", "a-1"});
    var first := rec.GenerateSlug("");
    FirstFreeIsLeast(Verbatim, {"a", "a-1"}, "a", "", 0, rec.slugIteration, first.value, 2);
    assert first == Success("a-2") && rec.slugIteration == 2;

    rec.existing := {"a"};
    var second := rec.GenerateSlug("");
    FirstFreeIsLeast(Verbatim, {"a"}, "a", "", 2, rec.slugIteration, second.value, 3);
    assert second == Success("a-3") && rec.slugIteration == 3;
  }

  /**
   * An origin that normalises to nothing yields the empty slug, which is
   * written, and the record still has no slug afterwards.
   */
  method BlankSlugWritten() {
    KeepSlugCharsKeepsSuffixesApart();
    var rec := new SluggableRecord(Settings(None, None), KeepSlugChars, map["name" := "!!!"], {});
    var r := rec.Creating();
    assert KeepSlugChars("!!!" + "") == "";
    FreeFirstTryKeepsCounter(KeepSlugChars, {}, "!!!", "", 0, rec.slugIteration, rec.attributes["slug"]);
    assert r == Pass && rec.attributes["slug"] == "" && !HasSlug(rec.settings, rec.attributes);
  }
}

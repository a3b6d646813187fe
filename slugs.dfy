/** Slug assignment: the rule SlugMixin.save applies, and the search for the
    first slug no sibling uses (Place.ensure_slug_uniqueness). slugify is the
    framework's and is passed in as a plain function. */
module Slugs {
  import opened Results
  import opened Numerals

  /** SlugMixin.save as written: the new value of the field that slug_field
      names. An empty slug makes that field slugify(its own value); the slug
      itself is never written. */
  function SourceAfterSlugStep(slug: string, source: string, slugify: string -> string): (r: string)
    ensures slug != "" ==> r == source
    ensures slug == "" ==> r == slugify(source)
  {
    if slug == "" then slugify(source) else source
  }

  /** The rule SlugMixin.save evidently intends: an empty slug is filled with
      slugify of the field that slug_field names, which stays as it is. */
  function SlugAfterSlugStep(slug: string, source: string, slugify: string -> string): (r: string)
    ensures slug != "" ==> r == slug
    ensures slug == "" ==> r == slugify(source)
  {
    if slug == "" then slugify(source) else slug
  }

  /** As written, saving twice with an empty slug slugifies the source field twice. */
  lemma SourceSlugifiedOnEverySave(source: string, slugify: string -> string)
    ensures SourceAfterSlugStep("", SourceAfterSlugStep("", source, slugify), slugify) == slugify(slugify(source))
  {
  }

  /** With the intended rule a second save keeps the slug the first one
      assigned, whatever the source field holds by then. */
  lemma SlugStepIdempotent(slug: string, source: string, source': string, slugify: string -> string)
    requires slugify(source) != ""
    ensures SlugAfterSlugStep(SlugAfterSlugStep(slug, source, slugify), source', slugify) ==
            SlugAfterSlugStep(slug, source, slugify)
  {
  }

  /** The k-th slug ensure_slug_uniqueness tries: the base itself, then
      base-2, base-3, ...; the number always goes on the bare base. */
  function Candidate(base: string, k: nat): (r: string)
    requires k >= 1
    // always base itself, followed by more exactly when k >= 2
    ensures |r| >= |base| && r[..|base|] == base
    ensures k == 1 <==> |r| == |base|
  {
    if k == 1 then base else base + "-" + Decimal(k)
  }

  /** After the base and its '-', a suffixed candidate holds a numeral that
      int() reads back as k. */
  lemma CandidateSuffixReadsBack(base: string, k: nat)
    requires k >= 2
    ensures var c := Candidate(base, k); c[|base|] == '-' && ParseInt(c[|base| + 1..]) == Ok(k)
  {
    var c := Candidate(base, k);
    assert c[|base| + 1..] == IntToString(k);
    ParseIntOfIntToString(k);
  }

  lemma CandidateInjective(base: string, i: nat, j: nat)
    requires i >= 1 && j >= 1
    ensures Candidate(base, i) == Candidate(base, j) ==> i == j
  {
    if i >= 2 && j >= 2 {
      var n := |base| + 1;
      assert Decimal(i) == Candidate(base, i)[n..];
      assert Decimal(j) == Candidate(base, j)[n..];
      DecimalInjective(i, j);
    } else if i != j {
      assert |Candidate(base, i)| != |Candidate(base, j)|;
    }
  }

  /** One row of get_siblings(): a node under the same parent. */
  datatype Sibling = Sibling(pk: nat, slug: string)

  /** siblings.exclude(pk=pk).filter(slug=s).exists() */
  predicate TakenBySibling(siblings: seq<Sibling>, pk: nat, s: string) {
    exists i :: 0 <= i < |siblings| && siblings[i].pk != pk && siblings[i].slug == s
  }

  ghost function TakenSlugs(siblings: seq<Sibling>, pk: nat): set<string> {
    set i | 0 <= i < |siblings| && siblings[i].pk != pk :: siblings[i].slug
  }

  ghost function EarlierCandidates(base: string, k: nat): set<string> {
    set j | 1 <= j < k :: Candidate(base, j)
  }

  lemma CandidateIsNew(base: string, k: nat)
    requires k >= 1
    ensures Candidate(base, k) !in EarlierCandidates(base, k)
  {
    if Candidate(base, k) in EarlierCandidates(base, k) {
      var j :| 1 <= j < k && Candidate(base, j) == Candidate(base, k);
      CandidateInjective(base, j, k);
    }
  }

  /** s is the first candidate on base that no other sibling uses. */
  ghost predicate IsFirstFreeSlug(base: string, siblings: seq<Sibling>, pk: nat, s: string) {
    exists k :: k >= 1 && s == Candidate(base, k) && FirstFreeAt(base, siblings, pk, k)
  }

  ghost predicate FirstFreeAt(base: string, siblings: seq<Sibling>, pk: nat, k: nat)
    requires k >= 1
  {
    && !TakenBySibling(siblings, pk, Candidate(base, k))
    && forall j :: 1 <= j < k ==> TakenBySibling(siblings, pk, Candidate(base, j))
  }

  lemma FirstFreeIsLeast(base: string, siblings: seq<Sibling>, pk: nat, k: nat, m: nat)
    ensures 1 <= k < m ==> !(FirstFreeAt(base, siblings, pk, k) && FirstFreeAt(base, siblings, pk, m))
  {
    if 1 <= k < m && FirstFreeAt(base, siblings, pk, m) {
      assert TakenBySibling(siblings, pk, Candidate(base, k));
    }
  }

  /** The first free candidate is unique. */
  lemma FirstFreeSlugUnique(base: string, siblings: seq<Sibling>, pk: nat, s: string, t: string)
    requires IsFirstFreeSlug(base, siblings, pk, s) && IsFirstFreeSlug(base, siblings, pk, t)
    ensures s == t
  {
    var k :| k >= 1 && s == Candidate(base, k) && FirstFreeAt(base, siblings, pk, k);
    var m :| m >= 1 && t == Candidate(base, m) && FirstFreeAt(base, siblings, pk, m);
    FirstFreeIsLeast(base, siblings, pk, k, m);
    FirstFreeIsLeast(base, siblings, pk, m, k);
  }

  /** The search loop of ensure_slug_uniqueness: starting from base, try
      base-2, base-3, ... until no sibling other than pk has the slug.
      Returns the slug found and the loop's final next_num. */
  method FindUniqueSlug(base: string, siblings: seq<Sibling>, pk: nat) returns (uniqueSlug: string, nextNum: nat)
    ensures nextNum >= 2 && uniqueSlug == Candidate(base, nextNum - 1)
    ensures !TakenBySibling(siblings, pk, uniqueSlug)
    ensures forall j :: 1 <= j < nextNum - 1 ==> TakenBySibling(siblings, pk, Candidate(base, j))
    ensures IsFirstFreeSlug(base, siblings, pk, uniqueSlug)
  {
    ghost var taken := TakenSlugs(siblings, pk);
    uniqueSlug := base;
    nextNum := 2;
    while TakenBySibling(siblings, pk, uniqueSlug)
      invariant nextNum >= 2 && uniqueSlug == Candidate(base, nextNum - 1)
      invariant forall j :: 1 <= j < nextNum - 1 ==> TakenBySibling(siblings, pk, Candidate(base, j))
      decreases taken - EarlierCandidates(base, nextNum - 1)
    {
      ghost var i :| 0 <= i < |siblings| && siblings[i].pk != pk && siblings[i].slug == uniqueSlug;
      assert uniqueSlug in taken;
      CandidateIsNew(base, nextNum - 1);
      assert EarlierCandidates(base, nextNum) == EarlierCandidates(base, nextNum - 1) + {uniqueSlug};
      uniqueSlug := base + "-" + Decimal(nextNum);
      nextNum := nextNum + 1;
    }
    assert FirstFreeAt(base, siblings, pk, nextNum - 1);
  }
}

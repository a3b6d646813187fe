# djobberbase core, modelled in Dafny

djobberbase is a Django job board. This project models the part of it that
holds logic of its own:

- The derived views of a tree node (`TreeNodeMixin`): `full_name`,
  `reversed_full_name`, `full_path`, `total_job_count` and the four generator
  helpers. The tree library supplies a node's ancestors root first; here
  they are a given sequence.
- Slug assignment. `SlugMixin.save` is modelled as written. The sibling
  search in `Place.ensure_slug_uniqueness` is a loop proved to return the
  first of `base`, `base-2`, `base-3`, … that no other sibling uses.
- The save rules of `Category`, `Place` and `Job`:
  - order allocation,
  - salary-range normalisation,
  - description rendering,
  - the moderation default,
  - `switch_activate`,
  - `Job.clean`: the validity window, then the duplicate check, which
    raises as written (see Findings).
- The template helpers: the three `get_*_jobs` tag parsers with their node
  constructors (`int(num)`), and the `nofollow` filter. `nofollow` is the
  regular-expression substitution, written as a left-to-right scan with its
  two lookaheads as predicates.

Records whose fields the source updates in place are classes (`Place`,
`Category`, `Job`). Each class has a `writes` log holding the row each
framework `save()` stores, so the contracts can say what was persisted as
well as what is in memory. What the framework provides is passed in as a
parameter:

- `slugify`, `textile` and `markdown` are `string -> string` functions;
- the orders of the stored categories are a `seq<nat>`;
- a node's siblings are a `seq<Sibling>`;
- "now" and `valid_until` are integers;
- the two settings `Job.save` reads form a `Settings` record. Their defaults
  are `DefaultSettings`: no markup language, moderation on.

Files: `results.dfy` (Option/Result/Outcome), `numerals.dfy` (Python `int()`
and `str()` on integers), `text.dfy` (`str.join`, `reversed`),
`tree_nodes.dfy`, `slugs.dfy`, `places.dfy`, `categories.dfy`, `jobs.dfy`,
`template_tags.dfy`.

The model follows the code as written. In two places the code's own text
says something else, and both are under Findings with the intended rule
modelled beside the written one:

- `Job.clean` looks its slug up as `self.slug or self.get_slug(self.title)`
  (djobberbase/models.py:300), so it takes the slug to be slugify of the
  title. `SlugMixin.save` instead writes slugify's result into the field
  that `slug_field` names and leaves `slug` empty.
- The `Category` docstring (djobberbase/models.py:87-88) has an order
  assigned when none is provided. The code also reassigns an order of 0.

## Model

| member | source | states |
|---|---|---|
| TreeNodes.AncestorsAndSelf | djobberbase/models.py:73-76 | `get_ancestors_and_self` yields the ancestors in the library's order, root first, and then the node itself, last |
| TreeNodes.SelfAndAncestors | djobberbase/models.py:67-70 | `get_self_and_ancestors` yields the node first, then position i holds the i-th ancestor counted upwards from the parent |
| TreeNodes.SelfAndDescendants | djobberbase/models.py:61-64 | `get_self_and_descendants` yields the node first and then its ancestors nearest first, so no descendant ever |
| TreeNodes.DescendantsAndSelf | djobberbase/models.py:78-81 | `get_descendants_and_self` yields the descendants in the library's order and then the node itself, last |
| TreeNodes.SelfAndAncestorsReversesChain | djobberbase/models.py:67-76 | `get_self_and_ancestors` yields exactly the reverse of `get_ancestors_and_self` |
| TreeNodes.SelfAndDescendantsYieldsAncestors | djobberbase/models.py:61-70 | `get_self_and_descendants` yields the node and then its ancestors, nearest first, the same sequence as `get_self_and_ancestors`; no descendant appears |
| TreeNodes.FullName | djobberbase/models.py:48-50 | `full_name` is the node's own name for a root; otherwise it is the ancestors' names root first, then the node's name, with the kind's separator between each two |
| TreeNodes.FullNameOfChild | djobberbase/models.py:48-50 | a child's `full_name` is its parent's `full_name`, the separator, and the child's name |
| TreeNodes.ReversedFullNameReversesParts | djobberbase/models.py:52-54 | `reversed_full_name` joins exactly the reverse of the name list `full_name` joins |
| TreeNodes.ReversedFullName | djobberbase/models.py:52-54 | `reversed_full_name` is the node's own name, then the ancestors' names nearest first |
| TreeNodes.TechnologySoftwareFullName | djobberbase/models.py:37-50 | with the default separator, Software under Technology is "Technology > Software" |
| TreeNodes.PlaceFullNameUsesComma | djobberbase/models.py:158 | a Place joins with ", ": Regensburg under Bavaria is "Bavaria, Regensburg" |
| TreeNodes.FullPath | djobberbase/models.py:56-58 | `full_path` is the node's own slug for a root; otherwise the ancestors' slugs root first, "/", and the node's slug |
| TreeNodes.FullPathOfChild | djobberbase/models.py:56-58 | a child's `full_path` is its parent's plus "/" and the child's slug |
| TreeNodes.TotalJobCount | djobberbase/models.py:44-46 | `total_job_count` is the node's own job count plus the sum of every ancestor's; nodes below take no part |
| TreeNodes.TotalJobCountOverSelfAndAncestors | djobberbase/models.py:44-46 | summing over `get_self_and_ancestors` instead gives the same total |
| TreeNodes.TotalJobCountOfChild | djobberbase/models.py:44-46 | a child's total is its parent's total plus its own count |
| TreeNodes.LeafTotalJobCount | djobberbase/models.py:44-46 | a node with 3 jobs under a root with 5 has total 8 |
| Slugs.SourceAfterSlugStep | djobberbase/models.py:27-31 | SlugMixin.save as written: a non-empty slug leaves the source field as it is; an empty slug replaces the source field by slugify of its own value |
| Slugs.SourceSlugifiedOnEverySave | djobberbase/models.py:27-31 | as written, two saves with an empty slug slugify the source field twice |
| Slugs.SlugAfterSlugStep | djobberbase/models.py:27-31 | the intended rule: a non-empty slug is kept; an empty slug becomes slugify of the source field |
| Slugs.SlugStepIdempotent | djobberbase/models.py:27-31 | under the intended rule, a second save keeps the slug the first assigned, even if the source field changed |
| Slugs.Candidate | djobberbase/models.py:199-203 | every candidate starts with the base, and it is longer than the base exactly from the second candidate on |
| Slugs.CandidateSuffixReadsBack | djobberbase/models.py:203 | in `base-k` the text after the base is '-' and a numeral that `int()` reads back as k |
| Slugs.CandidateInjective | djobberbase/models.py:201-204 | the candidates `base`, `base-2`, `base-3`, … are pairwise distinct, because the number always goes on the bare base |
| Slugs.FirstFreeIsLeast | djobberbase/models.py:201-204 | no two different candidate numbers can both be the first one no other sibling uses |
| Slugs.FirstFreeSlugUnique | djobberbase/models.py:199-204 | the first free candidate is unique |
| Slugs.FindUniqueSlug | djobberbase/models.py:199-204 | the search loop returns `base-(next_num - 1)` (or `base` itself). No sibling other than self has it, every earlier candidate is taken, and so it is the first free one. The loop ends because each round retires one of finitely many taken slugs |
| Places.PlaceTypeCode | djobberbase/models.py:140-155 | the stored place-type codes are 0 to 6 |
| Places.PlaceTypeOfCode | djobberbase/models.py:140-155 | an integer is a place-type choice exactly when it is 0 to 6 (documents the choices; nothing in the core reads a code back) |
| Places.PlaceTypeCodeRoundTrip | djobberbase/models.py:140-155 | the code a row stores reads back as the place type that was stored |
| Places.PlaceTypeCodeInjective | djobberbase/models.py:140-155 | distinct place types have distinct codes |
| Places.Place.constructor | djobberbase/models.py:160-161 | a new Place is a City with nothing written |
| Places.Place.Save | djobberbase/models.py:186-190 | with a slug already set: one write and nothing else changes. With an empty slug: the name becomes slugify(name), and a row with an empty slug is written. Then the slug becomes the first free candidate on slugify of the new name, and a second row is written only when a suffix was needed. Without a suffix, the slug found is never stored |
| Places.Place.EnsureSlugUniqueness | djobberbase/models.py:193-208 | the slug becomes the first candidate on slugify(name) that no other sibling uses; the node is saved again exactly when a suffix was added |
| Places.Place.SaveIntended | djobberbase/models.py:186-190 | with the intended SlugMixin rule, the name is untouched, the slug is the first free candidate, and the last row stored equals the object in memory |
| Places.TwoBerlins | djobberbase/models.py:186-208 | as written, two Places named "Berlin" saved in turn under one parent, the second checked against the first's stored row, both end with slug "berlin" in memory and both rows store an empty slug |
| Places.TwoBerlinsIntended | djobberbase/models.py:186-208 | under the intended slug rule the same two saves give "berlin" and "berlin-2", and each row stores the slug in memory |
| Categories.MaxOrder | djobberbase/models.py:110-111 | `latest('category_order')` is a stored order that no stored order exceeds |
| Categories.OrderAfterSave | djobberbase/models.py:107-114 | a truthy order is kept. None or 0 becomes an order greater than every stored one, and so not in use: 0 when nothing is stored, otherwise the stored maximum plus one |
| Categories.ZeroOrderMoves | djobberbase/models.py:108 | saving a category whose order is 0, when 0 is among the stored orders, never keeps 0 (with nothing stored it is given 0 again) |
| Categories.IntendedOrderAfterSave | djobberbase/models.py:107-114 | the intended rule: any given order, 0 included, is kept; a missing one becomes the stored maximum plus one, or 0 when nothing is stored. On every input except a given order of 0 it agrees with the rule as written |
| Categories.IntendedOrderStable | djobberbase/models.py:107-114 | under the intended rule a second save keeps the order, whatever was stored in between |
| Categories.Category.Save | djobberbase/models.py:107-114 | the order after save is `OrderAfterSave` of the old order and the stored orders. The name follows the SlugMixin rule, the slug and description are unchanged, and one row is written |
| Jobs.NormalisedSalary | djobberbase/models.py:307-312 | afterwards both bounds are truthy or both falsy. A missing bound copies the other. When both or neither are given, nothing changes |
| Jobs.NormalisedSalaryIdempotent | djobberbase/models.py:307-312 | applying the salary rule twice is the same as once |
| Jobs.NormalisedSalarySymmetric | djobberbase/models.py:307-312 | the rule treats minimum and maximum alike |
| Jobs.DescriptionHtml | djobberbase/models.py:314-328 | "textile" renders with textile, "markdown" with markdown, and any other setting copies the description |
| Jobs.ModeratedActive | djobberbase/models.py:330-331 | `is_active` changes exactly when moderation is on and it is None, and then it becomes False |
| Jobs.Toggled | djobberbase/models.py:280 | `not self.is_active`: the result is decided, and True exactly when the old flag was not True |
| Jobs.ToggledTwice | djobberbase/models.py:279-281 | toggling twice restores a decided flag; an undecided one ends at False |
| Jobs.ModerationKeepsToggled | djobberbase/models.py:279-281 | the save inside `switch_activate` never overrides the toggled flag |
| Jobs.ValidUntilCheck | djobberbase/models.py:295-298 | rejects exactly when `valid_until` is set and strictly before now, with the source's message |
| Jobs.ValidUntilCheckMonotone | djobberbase/models.py:296-298 | a posting accepted later is accepted earlier, and a posting is accepted at its own end date |
| Jobs.Job.constructor | djobberbase/models.py:258-260 | a new Job is active with an empty slug and nothing written |
| Jobs.Job.Clean | djobberbase/models.py:295-303 | `clean` never passes. It fails with the end-date message exactly when the end date is strictly before now; otherwise the duplicate check raises |
| Jobs.Job.CleanIntended | djobberbase/models.py:295-303 | the intended `clean` passes exactly when the end date is not past and no similar active posting exists. A similar posting gives the message followed by its URL |
| Jobs.UndatedPostingCleaned | djobberbase/models.py:295-303 | a posting without an end date: as written `clean` raises; as intended, with no similar posting, it passes |
| Jobs.DefaultMarkupCopiesDescription | djobberbase/conf/settings.py:68 | with no markup language configured, `description_html` is the description itself |
| Jobs.DefaultModerationHoldsNewPosts | djobberbase/conf/settings.py:39 | moderation is on by default, so an undecided posting is stored inactive and a decided one keeps its flag |
| Jobs.Job.Save | djobberbase/models.py:306-334 | salary bounds normalised, description rendered per setting, moderation default applied, title per the SlugMixin rule; slug, description and end date unchanged; one row written |
| Jobs.Job.SwitchActivate | djobberbase/models.py:279-281 | `is_active` is toggled, then saved with every save rule applied; one row written |
| Jobs.SwitchTwice | djobberbase/models.py:279-281 | switching a decided posting twice leaves `is_active` as it was, after two writes |
| Numerals.ParseInt | djobberbase/templatetags/djobberbase_tags.py:18 | `int()` accepts exactly an optional sign and a digit group with single underscores, once surrounding whitespace is stripped; a negative value needs a '-' |
| Numerals.IntToString | djobberbase/models.py:203 | `str(i)` starts with '-' exactly for a negative number, and every other character is a digit |
| Numerals.ParseIntOfIntToString | djobberbase/templatetags/djobberbase_tags.py:18 | `int(str(i)) == i` for every integer |
| Numerals.ParseIntIgnoresSurroundingSpace | djobberbase/templatetags/djobberbase_tags.py:18 | `int()` ignores whitespace on either side |
| Numerals.ParseIntReadsPaddedNumeral | djobberbase/templatetags/djobberbase_tags.py:18 | `int(" 5\n") == 5` |
| Numerals.ParseIntReadsSignedNumeral | djobberbase/templatetags/djobberbase_tags.py:18 | `int("-12") == -12` |
| Numerals.ParseIntRejectsWord | djobberbase/templatetags/djobberbase_tags.py:18 | `int("five")` raises ValueError |
| Numerals.ParseIntRejectsDoubleUnderscore | djobberbase/templatetags/djobberbase_tags.py:18 | `int("1__0")` raises ValueError |
| TemplateTags.NewJobsNode | djobberbase/templatetags/djobberbase_tags.py:17-19 | a node is built exactly when `int(num)` succeeds. It stores that integer and `varname` unchanged; otherwise ValueError |
| TemplateTags.NewJobsNodeOfNumeral | djobberbase/templatetags/djobberbase_tags.py:17-19 | a node built from `str(n)` holds n |
| TemplateTags.ParseJobsTag | djobberbase/templatetags/djobberbase_tags.py:10-14 | TemplateSyntaxError with the tag's message exactly when there are not four bits; otherwise the node of `bits[1]` and `bits[3]` |
| TemplateTags.ParseJobsTagIgnoresNameAndAs | djobberbase/templatetags/djobberbase_tags.py:14 | `bits[0]` and `bits[2]` do not affect the result |
| TemplateTags.DoLatestJobs | djobberbase/templatetags/djobberbase_tags.py:10-14 | syntax error exactly when the bit count is not 4; success exactly when there are four bits and `int(bits[1])` succeeds. With four bits the result is the latest-jobs node of `bits[1]` and `bits[3]`, a ValueError included |
| TemplateTags.DoSpotlightJobs | djobberbase/templatetags/djobberbase_tags.py:26-30 | the same, for spotlight jobs |
| TemplateTags.DoMostAppliedJobs | djobberbase/templatetags/djobberbase_tags.py:42-46 | the same, for most-applied jobs |
| TemplateTags.LatestJobsExample | djobberbase/templatetags/djobberbase_tags.py:10-19 | `get_latest_jobs 5 as latest` gives the node (5, "latest") |
| TemplateTags.SpotlightJobsTooFewBits | djobberbase/templatetags/djobberbase_tags.py:26-29 | two bits give the spotlight tag's own TemplateSyntaxError message |
| TemplateTags.MostAppliedJobsBadCount | djobberbase/templatetags/djobberbase_tags.py:42-51 | a non-numeric count gives ValueError |
| TemplateTags.Nofollow | djobberbase/templatetags/djobberbase_tags.py:84-88 | the output is never shorter than the input; the rewriting rule itself is stated by `NofollowAtAnchor` (a rewritten `<A ` is lower-cased, so characters can change) |
| TemplateTags.PlainPrefixKept | djobberbase/templatetags/djobberbase_tags.py:87-88 | text without '<' is copied as it is, whatever follows it |
| TemplateTags.NofollowWithoutTags | djobberbase/templatetags/djobberbase_tags.py:87-88 | content without '<' is returned unchanged |
| TemplateTags.HasNofollowRelKept | djobberbase/templatetags/djobberbase_tags.py:84 | if a `rel="nofollow"` (either quote) occurs before the next '>', it still does after the substitution |
| TemplateTags.HasRelativeHrefKept | djobberbase/templatetags/djobberbase_tags.py:85 | if a site-relative href (quote, up to two dots, '/', a character other than '/') occurs before the next '>', it still does after the substitution |
| TemplateTags.NofollowAtAnchor | djobberbase/templatetags/djobberbase_tags.py:84-88 | an `<a ` that already has rel="nofollow" or a site-relative href before the next '>' is copied as it is, letter case included; any other `<a `, in any letter case, becomes `<a rel="nofollow" ` |
| TemplateTags.OutputHasNoRewrite | djobberbase/templatetags/djobberbase_tags.py:84-88 | no position of the output holds an `<a ` the pattern would still match |
| TemplateTags.NofollowIdentity | djobberbase/templatetags/djobberbase_tags.py:84-88 | content in which the pattern matches nowhere is returned unchanged |
| TemplateTags.NofollowIdempotent | djobberbase/templatetags/djobberbase_tags.py:87-88 | `nofollow(nofollow(c)) == nofollow(c)` |
| TemplateTags.NofollowLength | djobberbase/templatetags/djobberbase_tags.py:88 | the output is longer than the input by exactly 15 characters per rewritten anchor |
| TemplateTags.NofollowBareAnchor | djobberbase/templatetags/djobberbase_tags.py:84-88 | `<A >` becomes `<a rel="nofollow" >` |
| TemplateTags.NofollowSiteRelativeLink | djobberbase/templatetags/djobberbase_tags.py:85 | `<a href="/jobs">` is left alone |

## Left out

- The tree library (path encoding, depth, `get_ancestors`, `get_siblings`,
  `get_descendants`) is not part of this model. Ancestors, descendants and
  siblings are given sequences, and their order is the library's.
- `slugify`, `textile`, `markdown`, `mark_safe`, `smart_str`, `force_text`
  and translation are foreign calls. The three that compute text are
  uninterpreted function parameters; the others are the identity.
- `job_count` is a database count; each node carries it as a number.
- `@cached_property` memoisation of `full_name`, `reversed_full_name` and
  `full_path` is left out. The model recomputes them; the cached value can
  go stale after a rename, and the model does not capture that.
- `Place.clean` is left out. Its own comment says it does not work, and it
  uses a database aggregate.
- The query behind the duplicate-posting check in `Job.clean` is not part
  of this model. `Jobs.Job.CleanIntended` takes its result as a parameter,
  the URL of a similar active posting or None.
- `JobStat.save`, the views, URL routing, migrations, admin, mail
  (`postman`, `tasks`), the context processor and the clean-up command are
  left out. They are persistence, HTTP, mail and console I/O.
- The `render` methods of the tag nodes and the categories, job-types and
  companies tags are left out. They only run database queries into the
  template context.
- `split_contents` is the template engine's; the parsers take its tokens.
- `SlugMixin.save` calls `super().save(self, ...)`, which passes the
  instance as the framework's `force_insert` argument. A model instance is
  truthy, so every save is an INSERT. Saving a row that is already stored
  then inserts an existing primary key, and the database refuses it. The
  framework's save is modelled only as appending the row to `writes`, so
  the lines below describe such re-saves as successful writes.
- Places.Place.EnsureSlugUniqueness: the second save, after a suffix was
  added (djobberbase/models.py:208), re-saves the row just stored. With
  `force_insert` it fails, so as written the suffixed slug is never stored
  either.
- Places.Place.Save, Places.Place.SaveIntended: a save of a Place that is
  already stored fails as an INSERT; the model records it as a write.
- Categories.Category.Save: the same holds for re-saving a stored
  category, including the re-save of order 0 under Findings.
- Jobs.Job.Save, Jobs.Job.SwitchActivate: `switch_activate`
  (djobberbase/models.py:281) always re-saves a stored posting, so as
  written it fails; the model records it as a write.
- `Type`, `Education` and `Language` are left out. Their only behaviour is
  `SlugMixin.save`, modelled once by `Slugs.SourceAfterSlugStep`.
- Concurrency is left out. Slug and order allocation are modelled for one
  writer at a time.
- Primary-key allocation is left out. Keys are given.
- Database uniqueness constraints are left out. They would reject a save.
- Categories whose stored order is NULL are assumed absent from the stored
  orders.
- Datetimes are integers on one clock. Time zones are not modelled.
- Numerals.ParseInt: only ASCII whitespace and ASCII digits are
  recognised. Python's `int()` also accepts other Unicode digits and
  whitespace, which this model does not.
- Numerals.ParseIntOfIntToString, Numerals.ParseInt, Numerals.IntToString:
  CPython's limit on int/str conversion (4300 digits by default, since 3.11
  and the 3.7.14, 3.8.14, 3.9.14 and 3.10.7 releases) is not modelled. Past
  it `int()` and `str()` raise ValueError, and the round trip does not hold.
- Case-insensitive matching in `nofollow`: `re.IGNORECASE` is modelled for ASCII letters only,
  which are all the pattern contains. Unicode case folding of other input
  characters (such as the Kelvin sign against `k`, which the pattern does
  not contain) plays no part.

## Findings

| source | as written | input that shows it | evidently intended | confidence | as-written member | corrected member |
|---|---|---|---|---|---|---|
| djobberbase/models.py:27-31 | an empty slug makes `setattr(self, self.slug_field, slugify(...))`. This overwrites the name or title, and `slug` stays empty | A Place named "Berlin" with an empty slug and no siblings is stored with name "berlin" and slug "". The slug "berlin" that `ensure_slug_uniqueness` computes is never saved, because no suffix was needed. A Job or Category loses its title or name to its slugified form on every such save | fill `slug` with slugify of the source field and leave that field alone | not executed; high, read from the code | Places.Place.Save, Places.TwoBerlins, Slugs.SourceSlugifiedOnEverySave | Places.Place.SaveIntended, Places.TwoBerlinsIntended, Slugs.SlugStepIdempotent |
| djobberbase/models.py:108 | `if not self.category_order` treats order 0 like a missing order | The first category ever saved receives order 0. Saving it again, with 0 among the stored orders, gives it the maximum plus one, so it moves behind all the others | allocate only when the order is None | not executed; high, read from the code | Categories.ZeroOrderMoves | Categories.IntendedOrderStable |
| djobberbase/models.py:301 | the duplicate check reads `self.user`, and Job defines no such attribute | A posting whose `valid_until` is unset passes the date check, and then `clean` raises AttributeError (or, with no place set, the missing-relation error) instead of passing | after the date check, look up active postings with the same place, submitter and slug; reject when one exists, otherwise pass | not executed; high, read from the code | Jobs.Job.Clean, Jobs.UndatedPostingCleaned | Jobs.Job.CleanIntended |

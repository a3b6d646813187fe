/** Job: a posting whose save() normalises the salary range, renders the
    description and applies the moderation default, and whose clean() checks
    the validity window. Times are plain integers on one clock; textile,
    markdown and slugify are passed in as functions. */
module Jobs {
  import opened Results
  import opened Slugs

  /** The two settings Job.save reads. */
  datatype Settings = Settings(markupLanguage: Option<string>, newPostModeration: bool)

  /** DJOBBERBASE_MARKUP_LANGUAGE defaults to None and
      DJOBBERBASE_ENABLE_NEW_POST_MODERATION to True. */
  const DefaultSettings: Settings := Settings(None, true)

  /** Under the default settings the description is stored as it is. */
  lemma DefaultMarkupCopiesDescription(description: string, textile: string -> string,
                                       markdown: string -> string)
    ensures DescriptionHtml(DefaultSettings.markupLanguage, description, textile, markdown) == description
  {
  }

  /** Under the default settings a posting whose flag is undecided is stored
      inactive, awaiting moderation; a decided flag is kept. */
  lemma DefaultModerationHoldsNewPosts(isActive: Option<bool>)
    ensures ModeratedActive(DefaultSettings.newPostModeration, None) == Some(false)
    ensures isActive.Some? ==> ModeratedActive(DefaultSettings.newPostModeration, isActive) == isActive
  {
  }

  /** Python truthiness of a nullable salary bound: None and 0 are false. */
  predicate Truthy(v: Option<nat>) {
    v.Some? && v.value != 0
  }

  /** The salary rule of Job.save: a missing bound copies the other one. */
  function NormalisedSalary(min: Option<nat>, max: Option<nat>): (r: (Option<nat>, Option<nat>))
    ensures Truthy(r.0) <==> Truthy(r.1)
    ensures Truthy(min) == Truthy(max) ==> r == (min, max)
    ensures Truthy(min) && !Truthy(max) ==> r == (min, min)
    ensures !Truthy(min) && Truthy(max) ==> r == (max, max)
  {
    if Truthy(min) then
      if !Truthy(max) then (min, min) else (min, max)
    else
      if Truthy(max) then (max, max) else (min, max)
  }

  lemma NormalisedSalaryIdempotent(min: Option<nat>, max: Option<nat>)
    ensures var r := NormalisedSalary(min, max); NormalisedSalary(r.0, r.1) == r
  {
  }

  /** The rule treats the two bounds alike. */
  lemma NormalisedSalarySymmetric(min: Option<nat>, max: Option<nat>)
    ensures var r := NormalisedSalary(max, min); NormalisedSalary(min, max) == (r.1, r.0)
  {
  }

  /** description_html as Job.save renders it. */
  function DescriptionHtml(markupLanguage: Option<string>, description: string,
                           textile: string -> string, markdown: string -> string): (html: string)
    ensures markupLanguage == Some("textile") ==> html == textile(description)
    ensures markupLanguage == Some("markdown") ==> html == markdown(description)
    ensures markupLanguage != Some("textile") && markupLanguage != Some("markdown") ==> html == description
  {
    if markupLanguage == Some("textile") then textile(description)
    else if markupLanguage == Some("markdown") then markdown(description)
    else description
  }

  /** The moderation default of Job.save: only an undecided flag changes,
      and only when moderation is on. */
  function ModeratedActive(moderation: bool, isActive: Option<bool>): (r: Option<bool>)
    ensures r != isActive <==> moderation && isActive.None?
    ensures r != isActive ==> r == Some(false)
    ensures moderation ==> r.Some?
  {
    if moderation && isActive.None? then Some(false) else isActive
  }

  /** `not self.is_active`: an undecided flag counts as false. */
  function Toggled(isActive: Option<bool>): (r: Option<bool>)
    ensures r.Some?
    ensures r.value <==> !(isActive == Some(true))
  {
    Some(!(isActive == Some(true)))
  }

  /** switch_activate twice restores a decided flag; an undecided one ends at false. */
  lemma ToggledTwice(isActive: Option<bool>)
    ensures isActive.Some? ==> Toggled(Toggled(isActive)) == isActive
    ensures isActive.None? ==> Toggled(Toggled(isActive)) == Some(false)
  {
    match isActive
    case Some(b) => assert Toggled(isActive) == Some(!b);
    case None =>
  }

  /** The save that follows a switch leaves the new flag alone. */
  lemma ModerationKeepsToggled(moderation: bool, isActive: Option<bool>)
    ensures ModeratedActive(moderation, Toggled(isActive)) == Toggled(isActive)
  {
  }

  const PastEndDateMessage: string := "Job posting end date is in the past. "

  /** The validity-window part of Job.clean. */
  function ValidUntilCheck(validUntil: Option<int>, now: int): (r: Outcome<string>)
    ensures r.Fail? <==> validUntil.Some? && validUntil.value < now
    ensures r.Fail? ==> r.error == PastEndDateMessage
  {
    if validUntil.Some? && validUntil.value < now then Fail(PastEndDateMessage) else Pass
  }

  /** A posting is accepted up to and including its end, and rejected from
      then on. */
  lemma ValidUntilCheckMonotone(validUntil: Option<int>, now: int, later: int)
    requires now <= later
    ensures ValidUntilCheck(validUntil, later).Pass? ==> ValidUntilCheck(validUntil, now).Pass?
    ensures validUntil.Some? ==> ValidUntilCheck(validUntil, validUntil.value).Pass?
  {
  }

  const SimilarPostingMessage: string :=
    "Similar active job posting from your company already exists. You need to change the title of your posting or deactivate the original one. The original is available over here: "

  /** Why Job.clean does not pass: the end date, or (as written) the
      duplicate check itself raising, or (as intended) a similar posting. */
  datatype CleanError =
    | EndDateInPast(message: string)
    | DuplicateCheckRaises
    | SimilarPosting(message: string)

  /** The stored column values of one Job row. */
  datatype JobRow = JobRow(
    title: string, slug: string,
    salaryRangeMin: Option<nat>, salaryRangeMax: Option<nat>,
    description: string, descriptionHtml: string,
    validUntil: Option<int>, isActive: Option<bool>)

  class Job {
    var title: string
    var slug: string
    var salaryRangeMin: Option<nat>
    var salaryRangeMax: Option<nat>
    var description: string
    var descriptionHtml: string
    var validUntil: Option<int>
    var isActive: Option<bool>
    /** Every row written by the framework's save, oldest first. */
    var writes: seq<JobRow>

    function Row(): JobRow
      reads this
    {
      JobRow(title, slug, salaryRangeMin, salaryRangeMax, description, descriptionHtml, validUntil, isActive)
    }

    /** A posting built in memory (is_active defaults to True); nothing written yet. */
    constructor (title: string, description: string, salaryRangeMin: Option<nat>,
                 salaryRangeMax: Option<nat>, validUntil: Option<int>)
      ensures this.title == title && slug == "" && this.description == description
      ensures this.salaryRangeMin == salaryRangeMin && this.salaryRangeMax == salaryRangeMax
      ensures this.validUntil == validUntil && descriptionHtml == ""
      ensures isActive == Some(true) && writes == []
    {
      this.title := title;
      slug := "";
      this.salaryRangeMin := salaryRangeMin;
      this.salaryRangeMax := salaryRangeMax;
      this.description := description;
      descriptionHtml := "";
      this.validUntil := validUntil;
      isActive := Some(true);
      writes := [];
    }

    /** Job.clean as written: an end date strictly before now is rejected;
        otherwise the duplicate check reads self.user, which Job does not
        define, and raises. So clean never passes. */
    function Clean(now: int): (r: Outcome<CleanError>)
      reads this
      ensures r.Fail?
      ensures r.error.EndDateInPast? <==> ValidUntilCheck(validUntil, now).Fail?
      ensures r.error.EndDateInPast? ==> r.error.message == PastEndDateMessage
      ensures !r.error.EndDateInPast? ==> r.error == DuplicateCheckRaises
    {
      match ValidUntilCheck(validUntil, now)
      case Fail(message) => Fail(EndDateInPast(message))
      case Pass => Fail(DuplicateCheckRaises)
    }

    /** Job.clean as intended: after the date check, reject the posting when
        an active posting with the same place, submitter and slug exists.
        `similarUrl` is that posting's absolute URL, or None when the store
        holds no such posting. */
    function CleanIntended(now: int, similarUrl: Option<string>): (r: Outcome<CleanError>)
      reads this
      ensures r.Pass? <==> ValidUntilCheck(validUntil, now).Pass? && similarUrl.None?
      ensures r.Fail? && r.error.EndDateInPast? <==> ValidUntilCheck(validUntil, now).Fail?
      ensures r.Fail? && r.error.EndDateInPast? ==> r.error.message == PastEndDateMessage
      ensures ValidUntilCheck(validUntil, now).Pass? && similarUrl.Some? ==>
        r == Fail(SimilarPosting(SimilarPostingMessage + similarUrl.value))
    {
      match ValidUntilCheck(validUntil, now)
      case Fail(message) => Fail(EndDateInPast(message))
      case Pass =>
        match similarUrl
        case Some(url) => Fail(SimilarPosting(SimilarPostingMessage + url))
        case None => Pass
    }

    /** Job.save: salary rule, description rendering, moderation default,
        then SlugMixin.save (slug_field is 'title') and the write. */
    method Save(settings: Settings, textile: string -> string, markdown: string -> string,
                slugify: string -> string)
      modifies this
      ensures (salaryRangeMin, salaryRangeMax) == NormalisedSalary(old(salaryRangeMin), old(salaryRangeMax))
      ensures descriptionHtml == DescriptionHtml(settings.markupLanguage, description, textile, markdown)
      ensures isActive == ModeratedActive(settings.newPostModeration, old(isActive))
      ensures title == SourceAfterSlugStep(old(slug), old(title), slugify)
      ensures slug == old(slug) && description == old(description) && validUntil == old(validUntil)
      ensures writes == old(writes) + [Row()]
    {
      if Truthy(salaryRangeMin) {
        if !Truthy(salaryRangeMax) {
          salaryRangeMax := salaryRangeMin;
        }
      } else {
        if Truthy(salaryRangeMax) {
          salaryRangeMin := salaryRangeMax;
        }
      }
      descriptionHtml := DescriptionHtml(settings.markupLanguage, description, textile, markdown);
      if settings.newPostModeration && isActive.None? {
        isActive := Some(false);
      }
      title := SourceAfterSlugStep(slug, title, slugify);
      writes := writes + [Row()];
    }

    /** Job.switch_activate: flip is_active, then save. */
    method SwitchActivate(settings: Settings, textile: string -> string, markdown: string -> string,
                          slugify: string -> string)
      modifies this
      ensures isActive == Toggled(old(isActive))
      ensures (salaryRangeMin, salaryRangeMax) == NormalisedSalary(old(salaryRangeMin), old(salaryRangeMax))
      ensures descriptionHtml == DescriptionHtml(settings.markupLanguage, description, textile, markdown)
      ensures title == SourceAfterSlugStep(old(slug), old(title), slugify)
      ensures slug == old(slug) && description == old(description) && validUntil == old(validUntil)
      ensures writes == old(writes) + [Row()]
    {
      isActive := Toggled(isActive);
      Save(settings, textile, markdown, slugify);
    }
  }

  /** Switching a posting on and off again leaves is_active as it was. */
  method SwitchTwice(job: Job, settings: Settings, textile: string -> string,
                     markdown: string -> string, slugify: string -> string)
    requires job.isActive.Some?
    modifies job
    ensures job.isActive == old(job.isActive)
    ensures |job.writes| == |old(job.writes)| + 2
  {
    job.SwitchActivate(settings, textile, markdown, slugify);
    job.SwitchActivate(settings, textile, markdown, slugify);
    ToggledTwice(old(job.isActive));
  }

  /** A posting with no end date and no similar posting: clean as written
      raises, clean as intended accepts it. */
  lemma UndatedPostingCleaned(job: Job, now: int)
    requires job.validUntil.None?
    ensures job.Clean(now) == Fail(DuplicateCheckRaises)
    ensures job.CleanIntended(now, None) == Pass
  {
  }
}

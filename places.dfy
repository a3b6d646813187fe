/** Place: a node of the location tree whose save() assigns a slug that is
    unique among the node's siblings. Every write to the store is recorded in
    `writes`, so the model can say what was persisted and when. */
module Places {
  import opened Results
  import opened Slugs

  /** PLACE_TYPE_CHOICES, coarse to fine. */
  datatype PlaceType = Continent | Region | Country | State | County | City | Street

  /** The integer stored for each place type. */
  function PlaceTypeCode(t: PlaceType): (code: nat)
    ensures code <= 6
  {
    match t
    case Continent => 0
    case Region => 1
    case Country => 2
    case State => 3
    case County => 4
    case City => 5
    case Street => 6
  }

  /** The place type a stored integer stands for; any other integer is not a
      choice. This documents PLACE_TYPE_CHOICES as a decoding of the stored
      column: nothing in this core reads a code back (Place.clean, which
      would, is not part of this model). */
  function PlaceTypeOfCode(code: int): (t: Option<PlaceType>)
    ensures t.Some? <==> 0 <= code <= 6
  {
    if code == 0 then Some(Continent)
    else if code == 1 then Some(Region)
    else if code == 2 then Some(Country)
    else if code == 3 then Some(State)
    else if code == 4 then Some(County)
    else if code == 5 then Some(City)
    else if code == 6 then Some(Street)
    else None
  }

  /** Reading back the stored integer gives the place type that was stored. */
  lemma PlaceTypeCodeRoundTrip(t: PlaceType)
    ensures PlaceTypeOfCode(PlaceTypeCode(t)) == Some(t)
  {
  }

  lemma PlaceTypeCodeInjective(s: PlaceType, t: PlaceType)
    ensures PlaceTypeCode(s) == PlaceTypeCode(t) ==> s == t
  {
    PlaceTypeCodeRoundTrip(s);
    PlaceTypeCodeRoundTrip(t);
  }

  /** The stored column values of one Place row; place_type is stored as its code. */
  datatype PlaceRow = PlaceRow(pk: nat, name: string, slug: string, placeType: nat)

  class Place {
    const pk: nat
    var name: string
    var slug: string
    var placeType: PlaceType
    /** Every row written by the framework's save, oldest first. */
    var writes: seq<PlaceRow>

    function Row(): PlaceRow
      reads this
    {
      PlaceRow(pk, name, slug, PlaceTypeCode(placeType))
    }

    /** A Place built in memory (place_type defaults to CITY); nothing written yet. */
    constructor (pk: nat, name: string, slug: string)
      ensures this.pk == pk && this.name == name && this.slug == slug
      ensures placeType == City && writes == []
    {
      this.pk := pk;
      this.name := name;
      this.slug := slug;
      placeType := City;
      writes := [];
    }

    /** Place.save: SlugMixin.save (which, for an empty slug, slugifies the
        name), the write, and then ensure_slug_uniqueness when the slug was
        empty on entry. `siblings` is get_siblings() for this node. */
    method Save(siblings: seq<Sibling>, slugify: string -> string)
      modifies this
      decreases if slug == "" then 2 else 0
      ensures placeType == old(placeType)
      ensures old(slug) != "" ==>
        name == old(name) && slug == old(slug) && writes == old(writes) + [Row()]
      ensures old(slug) == "" ==>
        && name == slugify(old(name))
        && IsFirstFreeSlug(slugify(name), siblings, pk, slug)
        && writes == old(writes) + [PlaceRow(pk, name, "", PlaceTypeCode(placeType))]
                     + (if slug != slugify(name) then [Row()] else [])
      // the slug found is kept only in memory when it needed no suffix
      ensures old(slug) == "" && slug == slugify(name) ==> writes[|writes| - 1].slug == ""
    {
      var checkSlug := slug == "";
      name := SourceAfterSlugStep(slug, name, slugify);
      writes := writes + [Row()];
      if checkSlug {
        EnsureSlugUniqueness(siblings, slugify);
      }
    }

    /** Place.ensure_slug_uniqueness: slug := slugify(name), then the first
        of slug, slug-2, slug-3, ... that no other sibling uses; the node is
        saved again only when a suffix was needed. */
    method EnsureSlugUniqueness(siblings: seq<Sibling>, slugify: string -> string)
      modifies this
      decreases 1
      ensures name == old(name) && placeType == old(placeType)
      ensures IsFirstFreeSlug(slugify(name), siblings, pk, slug)
      ensures !TakenBySibling(siblings, pk, slug)
      ensures writes == old(writes) + (if slug != slugify(name) then [Row()] else [])
    {
      slug := slugify(name);
      var uniqueSlug, nextNum := FindUniqueSlug(slug, siblings, pk);
      if uniqueSlug != slug {
        slug := uniqueSlug;
        Save(siblings, slugify);
      }
    }

    /** Place.save with the intended SlugMixin rule (the slug, not the name,
        receives slugify(name) before the first write). */
    method SaveIntended(siblings: seq<Sibling>, slugify: string -> string)
      modifies this
      ensures name == old(name) && placeType == old(placeType)
      ensures old(slug) != "" ==> slug == old(slug) && writes == old(writes) + [Row()]
      ensures old(slug) == "" ==>
        && IsFirstFreeSlug(slugify(name), siblings, pk, slug)
        && writes == old(writes) + [PlaceRow(pk, name, slugify(name), PlaceTypeCode(placeType))]
                     + (if slug != slugify(name) then [Row()] else [])
      // what is stored is what is in memory
      ensures writes[|writes| - 1] == Row()
    {
      var checkSlug := slug == "";
      slug := SlugAfterSlugStep(slug, name, slugify);
      writes := writes + [Row()];
      if checkSlug {
        EnsureSlugUniqueness(siblings, slugify);
      }
    }
  }

  /** Two places named "Berlin" saved one after the other under one parent,
      the second seeing the first as the database holds it. As written, both
      end up with the in-memory slug "berlin" and both rows store an empty
      slug: the first found no clash and was not saved again, so the second
      finds no stored "berlin" to avoid. */
  method TwoBerlins(slugify: string -> string)
      returns (first: string, second: string, firstStored: string, secondStored: string)
    requires slugify("Berlin") == "berlin" && slugify("berlin") == "berlin"
    ensures first == "berlin" && second == "berlin"
    ensures firstStored == "" && secondStored == ""
  {
    var a := new Place(1, "Berlin", "");
    a.Save([], slugify);
    first := a.slug;
    firstStored := a.writes[|a.writes| - 1].slug;
    assert !TakenBySibling([], 1, "berlin");
    FirstFreeSlugUnique("berlin", [], 1, first, Candidate("berlin", 1));
    var b := new Place(2, "Berlin", "");
    var siblings := [Sibling(1, firstStored)];
    b.Save(siblings, slugify);
    second := b.slug;
    secondStored := b.writes[|b.writes| - 1].slug;
    assert !TakenBySibling(siblings, 2, "berlin");
    FirstFreeSlugUnique("berlin", siblings, 2, second, Candidate("berlin", 1));
  }

  /** The same two saves under the intended slug rule: the first row stores
      "berlin" and the second, seeing it, takes "berlin-2". */
  method TwoBerlinsIntended(slugify: string -> string)
      returns (first: string, second: string, firstStored: string, secondStored: string)
    requires slugify("Berlin") == "berlin"
    ensures first == "berlin" && second == "berlin-2"
    ensures firstStored == first && secondStored == second
  {
    var a := new Place(1, "Berlin", "");
    a.SaveIntended([], slugify);
    first := a.slug;
    firstStored := a.writes[|a.writes| - 1].slug;
    assert !TakenBySibling([], 1, "berlin");
    FirstFreeSlugUnique("berlin", [], 1, first, Candidate("berlin", 1));
    var b := new Place(2, "Berlin", "");
    var siblings := [Sibling(1, firstStored)];
    b.SaveIntended(siblings, slugify);
    second := b.slug;
    secondStored := b.writes[|b.writes| - 1].slug;
    assert siblings[0].pk != 2 && siblings[0].slug == Candidate("berlin", 1);
    assert TakenBySibling(siblings, 2, Candidate("berlin", 1));
    assert Candidate("berlin", 2) == "berlin-2";
    assert !TakenBySibling(siblings, 2, "berlin-2");
    assert FirstFreeAt("berlin", siblings, 2, 2);
    FirstFreeSlugUnique("berlin", siblings, 2, second, Candidate("berlin", 2));
  }
}

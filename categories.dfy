/** Category: a node of the category tree with a display order that save()
    allocates when none is given. */
module Categories {
  import opened Results
  import opened Slugs

  /** Python truthiness of the nullable category_order: None and 0 are false. */
  predicate OrderGiven(order: Option<nat>) {
    order.Some? && order.value != 0
  }

  /** The largest stored order: what Category.objects.latest('category_order')
      reads when there is at least one category. */
  function MaxOrder(orders: seq<nat>): (m: nat)
    requires |orders| > 0
    ensures m in orders
    ensures forall i :: 0 <= i < |orders| ==> orders[i] <= m
  {
    if |orders| == 1 then orders[0]
    else
      var rest := MaxOrder(orders[1..]);
      if orders[0] >= rest then orders[0] else rest
  }

  /** Category.save as written: the order kept after save, given the orders
      of all stored categories. A missing or zero order becomes the largest
      stored order plus one, or 0 when no category is stored. */
  function OrderAfterSave(current: Option<nat>, stored: seq<nat>): (r: nat)
    ensures OrderGiven(current) ==> r == current.value
    ensures !OrderGiven(current) ==> forall i :: 0 <= i < |stored| ==> stored[i] < r
    ensures !OrderGiven(current) ==> r !in stored
    ensures !OrderGiven(current) && |stored| > 0 ==> r - 1 in stored
    ensures !OrderGiven(current) && |stored| == 0 ==> r == 0
  {
    if OrderGiven(current) then current.value
    else if |stored| == 0 then 0
    else MaxOrder(stored) + 1
  }

  /** Saving a category that holds order 0, while 0 is among the stored
      orders, never keeps 0: the first category ever saved is moved behind
      the others the next time it is saved. (With nothing stored, 0 is
      handed out again.) */
  lemma ZeroOrderMoves(stored: seq<nat>)
    requires 0 in stored
    ensures OrderAfterSave(Some(0), stored) > 0
  {
  }

  /** The evidently intended rule: only a missing order is allocated. */
  function IntendedOrderAfterSave(current: Option<nat>, stored: seq<nat>): (r: nat)
    ensures current.Some? ==> r == current.value
    ensures current.None? ==> forall i :: 0 <= i < |stored| ==> stored[i] < r
    ensures current.None? && |stored| == 0 ==> r == 0
    ensures current.None? && |stored| > 0 ==> r - 1 in stored
    // it differs from the rule as written only on a given order of 0
    ensures current != Some(0) ==> r == OrderAfterSave(current, stored)
  {
    if current.Some? then current.value
    else if |stored| == 0 then 0
    else MaxOrder(stored) + 1
  }

  /** With the intended rule, saving again keeps the order, whatever has been
      stored in between. */
  lemma IntendedOrderStable(current: Option<nat>, stored: seq<nat>, later: seq<nat>)
    ensures IntendedOrderAfterSave(Some(IntendedOrderAfterSave(current, stored)), later) ==
            IntendedOrderAfterSave(current, stored)
  {
  }

  /** The stored column values of one Category row. */
  datatype CategoryRow = CategoryRow(name: string, slug: string, description: Option<string>, categoryOrder: Option<nat>)

  class Category {
    var name: string
    var slug: string
    var description: Option<string>
    var categoryOrder: Option<nat>
    /** Every row written by the framework's save, oldest first. */
    var writes: seq<CategoryRow>

    function Row(): CategoryRow
      reads this
    {
      CategoryRow(name, slug, description, categoryOrder)
    }

    constructor (name: string, slug: string, description: Option<string>, categoryOrder: Option<nat>)
      ensures this.name == name && this.slug == slug
      ensures this.description == description && this.categoryOrder == categoryOrder
      ensures writes == []
    {
      this.name := name;
      this.slug := slug;
      this.description := description;
      this.categoryOrder := categoryOrder;
      writes := [];
    }

    /** Category.save: allocate an order if needed, then SlugMixin.save
        (slug_field is 'name') and the write. `stored` holds the orders of
        the categories in the store at that moment. */
    method Save(stored: seq<nat>, slugify: string -> string)
      modifies this
      ensures categoryOrder == Some(OrderAfterSave(old(categoryOrder), stored))
      ensures name == SourceAfterSlugStep(old(slug), old(name), slugify)
      ensures slug == old(slug) && description == old(description)
      ensures writes == old(writes) + [Row()]
    {
      if !OrderGiven(categoryOrder) {
        if |stored| == 0 {
          categoryOrder := Some(0);
        } else {
          categoryOrder := Some(MaxOrder(stored) + 1);
        }
      }
      name := SourceAfterSlugStep(slug, name, slugify);
      writes := writes + [Row()];
    }
  }
}

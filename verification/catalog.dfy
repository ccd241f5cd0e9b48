/** Categories and subcategories as the admin pages receive them, and the
    lookup both pages use to show a category's name next to a row:
    `categories.find((c) => c.id === id)?.name || fallback`. */
module Catalog {
  import opened Base
  import Seqs

  datatype Category = Category(id: nat, name: string)

  datatype Subcategory = Subcategory(id: nat, name: string, categoryId: nat)

  /** The position of the first category with id `id`, if any. */
  function FindCategory(categories: seq<Category>, id: Option<nat>): Option<nat>
  {
    if id.None? then None else Seqs.FindFirst(categories, (c: Category) => c.id == id.value)
  }

  /** The name shown for `id`: the name of the first category with that id,
      or `fallback` when there is none or its name is empty. */
  function CategoryLabel(categories: seq<Category>, id: Option<nat>, fallback: string): (r: string)
    ensures id.None? ==> r == fallback
    ensures forall k ::
              (0 <= k < |categories| && id == Some(categories[k].id)
               && (forall j :: 0 <= j < k ==> categories[j].id != categories[k].id))
              ==> r == (if categories[k].name != "" then categories[k].name else fallback)
    ensures (forall k :: 0 <= k < |categories| ==> id != Some(categories[k].id)) ==> r == fallback
  {
    match FindCategory(categories, id)
    case None => fallback
    case Some(i) => if categories[i].name != "" then categories[i].name else fallback
  }

  /** The same lookup over subcategories, used for a product's subcategory cell. */
  function SubcategoryLabel(subcategories: seq<Subcategory>, id: Option<nat>, fallback: string): (r: string)
    ensures id.None? ==> r == fallback
    ensures forall k ::
              (0 <= k < |subcategories| && id == Some(subcategories[k].id)
               && (forall j :: 0 <= j < k ==> subcategories[j].id != subcategories[k].id))
              ==> r == (if subcategories[k].name != "" then subcategories[k].name else fallback)
    ensures (forall k :: 0 <= k < |subcategories| ==> id != Some(subcategories[k].id)) ==> r == fallback
  {
    if id.None? then fallback
    else match Seqs.FindFirst(subcategories, (sc: Subcategory) => sc.id == id.value)
      case None => fallback
      case Some(i) => if subcategories[i].name != "" then subcategories[i].name else fallback
  }
}

/** The admin category page: one name field shared by the category and
    subcategory forms, a parent select, the two edit ids, the save
    handlers with their validation and create-or-update dispatch, the
    reset, the edit buttons and the confirmed deletes. */
module CategoryManagement {
  import opened Base
  import opened Text
  import Catalog

  /** The parent select's value: the string from its `onChange`, or the
      numeric id the subcategory Edit button copies. */
  datatype Parent = ParentText(text: string) | ParentId(id: nat)

  datatype State = State(
    name: string,
    parentId: Parent,
    editCatId: Option<nat>,
    editSubId: Option<nat>,
    error: Option<string>)

  const Initial := State("", ParentText(""), None, None, None)

  datatype Call =
    | CreateCategory(name: string)
    | UpdateCategory(id: nat, name: string)
    | CreateSubcategory(name: string, parent: Parent)
    | UpdateSubcategory(id: nat, name: string, parent: Parent)
    | DeleteCategory(id: nat)
    | DeleteSubcategory(id: nat)

  /** `!name.trim()`. */
  predicate Blank(name: string)
  {
    Trim(name) == ""
  }

  /** A JavaScript id or select value is truthy unless null, 0 or "". */
  predicate IdSet(id: Option<nat>)
  {
    id.Some? && id.value != 0
  }

  predicate ParentSet(p: Parent)
  {
    match p
    case ParentText(t) => t != ""
    case ParentId(n) => n != 0
  }

  /** `resetForm`. */
  function Reset(s: State): (r: State)
    ensures r.name == "" && r.parentId == ParentText("") && r.editCatId.None? && r.editSubId.None? && r.error.None?
  {
    Initial
  }

  /** `handleCatSave` given the API outcome. */
  function SaveCategory(s: State, result: ApiResult<()>): (r: (State, Option<Call>))
    ensures r.1.None? <==> Blank(s.name)
    ensures Blank(s.name) ==> r.0 == s.(error := Some("Name required"))
    ensures r.1.Some? ==> (r.1.value.UpdateCategory? <==> IdSet(s.editCatId))
    ensures r.1.Some? ==> (r.1.value.CreateCategory? <==> !IdSet(s.editCatId))
    ensures r.1.Some? ==> r.1.value.name == s.name
    ensures r.1.Some? && r.1.value.UpdateCategory? ==> r.1.value.id == s.editCatId.value
    ensures r.1.Some? && result.ApiOk? ==> r.0 == Reset(s)
    ensures r.1.Some? && result.ApiFailed? ==> r.0 == s.(error := Some(result.message))
  {
    if Blank(s.name) then (s.(error := Some("Name required")), None)
    else
      var call := if IdSet(s.editCatId) then UpdateCategory(s.editCatId.value, s.name) else CreateCategory(s.name);
      match result
      case ApiOk(_) => (Reset(s), Some(call))
      case ApiFailed(msg) => (s.(error := Some(msg)), Some(call))
  }

  /** `handleSubSave` given the API outcome. */
  function SaveSubcategory(s: State, result: ApiResult<()>): (r: (State, Option<Call>))
    ensures r.1.None? <==> Blank(s.name) || !ParentSet(s.parentId)
    ensures r.1.None? ==> r.0 == s.(error := Some("Name and category required"))
    ensures r.1.Some? ==> (r.1.value.UpdateSubcategory? <==> IdSet(s.editSubId))
    ensures r.1.Some? ==> (r.1.value.CreateSubcategory? <==> !IdSet(s.editSubId))
    ensures r.1.Some? ==> r.1.value.name == s.name && r.1.value.parent == s.parentId
    ensures r.1.Some? && r.1.value.UpdateSubcategory? ==> r.1.value.id == s.editSubId.value
    ensures r.1.Some? && result.ApiOk? ==> r.0 == Reset(s)
    ensures r.1.Some? && result.ApiFailed? ==> r.0 == s.(error := Some(result.message))
  {
    if Blank(s.name) || !ParentSet(s.parentId) then (s.(error := Some("Name and category required")), None)
    else
      var call := if IdSet(s.editSubId)
        then UpdateSubcategory(s.editSubId.value, s.name, s.parentId)
        else CreateSubcategory(s.name, s.parentId);
      match result
      case ApiOk(_) => (Reset(s), Some(call))
      case ApiFailed(msg) => (s.(error := Some(msg)), Some(call))
  }

  /** A name made only of white space counts as missing, for both forms,
      and nothing is sent. */
  lemma WhiteSpaceNameRefused(s: State, result: ApiResult<()>)
    requires forall k :: 0 <= k < |s.name| ==> IsSpace(s.name[k])
    ensures SaveCategory(s, result) == (s.(error := Some("Name required")), None)
    ensures SaveSubcategory(s, result) == (s.(error := Some("Name and category required")), None)
  {
    TrimEmptyIffAllSpaces(s.name);
  }

  /** A name with a visible character is accepted as typed, surrounding
      white space included. */
  lemma VisibleNameSentUntrimmed(s: State, k: nat)
    requires k < |s.name| && !IsSpace(s.name[k])
    ensures SaveCategory(s, ApiOk(())).1.Some?
    ensures SaveCategory(s, ApiOk(())).1.value.name == s.name
  {
    TrimEmptyIffAllSpaces(s.name);
  }

  /** The category Edit button. */
  function EditCategory(s: State, c: Catalog.Category): (r: State)
    ensures r.editCatId == Some(c.id) && r.name == c.name
    ensures r.parentId == s.parentId && r.editSubId == s.editSubId && r.error == s.error
  {
    s.(editCatId := Some(c.id), name := c.name)
  }

  /** The subcategory Edit button. */
  function EditSubcategory(s: State, sc: Catalog.Subcategory): (r: State)
    ensures r.editSubId == Some(sc.id) && r.name == sc.name && r.parentId == ParentId(sc.categoryId)
    ensures r.editCatId == s.editCatId && r.error == s.error
  {
    s.(editSubId := Some(sc.id), name := sc.name, parentId := ParentId(sc.categoryId))
  }

  /** Editing a category and saving it unchanged updates that category and
      then clears the form. */
  lemma EditCategoryThenSave(s: State, c: Catalog.Category)
    requires c.id != 0 && !Blank(c.name)
    ensures SaveCategory(EditCategory(s, c), ApiOk(())) == (Initial, Some(UpdateCategory(c.id, c.name)))
  {
  }

  /** Editing a subcategory and saving it unchanged updates it under the
      same parent and then clears the form. */
  lemma EditSubcategoryThenSave(s: State, sc: Catalog.Subcategory)
    requires sc.id != 0 && sc.categoryId != 0 && !Blank(sc.name)
    ensures SaveSubcategory(EditSubcategory(s, sc), ApiOk(()))
         == (Initial, Some(UpdateSubcategory(sc.id, sc.name, ParentId(sc.categoryId))))
  {
  }

  datatype Kind = CategoryKind | SubcategoryKind

  /** `handleRemoveCat` / `handleRemoveSub`: nothing without confirmation;
      a failed delete shows the server's message. */
  function Remove(s: State, kind: Kind, id: nat, confirmed: bool, result: ApiResult<()>): (r: (State, Option<Call>))
    ensures !confirmed ==> r == (s, None)
    ensures confirmed ==> r.1 == Some(if kind == CategoryKind then DeleteCategory(id) else DeleteSubcategory(id))
    ensures confirmed && result.ApiOk? ==> r.0 == s
    ensures confirmed && result.ApiFailed? ==> r.0 == s.(error := Some(result.message))
  {
    if !confirmed then (s, None)
    else
      var call := if kind == CategoryKind then DeleteCategory(id) else DeleteSubcategory(id);
      match result
      case ApiOk(_) => (s, Some(call))
      case ApiFailed(msg) => (s.(error := Some(msg)), Some(call))
  }

  /** The category cell of a subcategory row. */
  function ParentName(categories: seq<Catalog.Category>, sc: Catalog.Subcategory): string
  {
    Catalog.CategoryLabel(categories, Some(sc.categoryId), "N/A")
  }

  /** A subcategory whose category is missing from the list shows "N/A". */
  lemma OrphanShowsNA(categories: seq<Catalog.Category>, sc: Catalog.Subcategory)
    requires forall k :: 0 <= k < |categories| ==> categories[k].id != sc.categoryId
    ensures ParentName(categories, sc) == "N/A"
  {
  }
}

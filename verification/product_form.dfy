/** The admin product form: the quantity field that resets the serial
    inputs, the per-slot serial editor, the save guard and dispatch, the
    edit/cancel handlers and the subcategory options. */
module ProductForm {
  import opened Base
  import opened Text
  import Seqs
  import Serials
  import JsonValues
  import Catalog
  import ProductTable
  import ProductRoutes
  import ProductModel

  /** What `Number(text)` evaluates to. The conversion itself is not
      modelled: the value arrives with the text. `NonInteger` covers
      fractions and the infinities. */
  datatype JsNumber = NaN | Integer(value: int) | NonInteger

  /** The quantity input's text together with `Number(text)`. */
  datatype Quantity = Quantity(text: string, number: JsNumber)

  /** A select's value: the string an `onChange` event delivers, or the
      numeric id `handleEdit` copies from a product. */
  datatype Selection = Text(text: string) | Id(id: nat)

  /** One element of the serials array. `Hole` is an index never assigned
      (it is skipped by `.some` but read as `undefined` by spread and by
      `JSON.stringify`). */
  datatype Slot = Hole | Undefined | Filled(text: string)

  datatype Form = Form(
    name: string,
    description: string,
    price: string,
    quantity: Quantity,
    categoryId: Selection,
    subcategoryId: Selection,
    images: seq<string>,
    serials: seq<Slot>)

  datatype Page = Page(form: Form, editId: Option<nat>, error: Option<string>)

  /** The all-empty form the page starts with and returns to. */
  const InitialForm := Form("", "", "", Quantity("", Integer(0)), Text(""), Text(""), [], [])

  const InitialPage := Page(InitialForm, None, None)

  /** `Array(n)` accepts only integers in [0, 2^32). */
  const ArrayLengthBound := 0x1_0000_0000

  /** The quantity branch of `handleChange`, or the RangeError `Array(qty)`
      throws. */
  datatype QuantityOutcome = Applied(form: Form) | RangeError

  /** `Number(value) || 0`: NaN and zero become 0. */
  function OrZero(n: JsNumber): JsNumber
  {
    if n.NaN? then Integer(0) else n
  }

  /** `quantity: value, serials: Array(Number(value) || 0).fill("")`. */
  function ChangeQuantity(f: Form, value: Quantity): (r: QuantityOutcome)
    ensures r.Applied? <==>
      OrZero(value.number).Integer? && 0 <= OrZero(value.number).value < ArrayLengthBound
    ensures r.Applied? ==>
      |r.form.serials| == OrZero(value.number).value &&
      (forall i :: 0 <= i < |r.form.serials| ==> r.form.serials[i] == Filled(""))
    ensures r.Applied? ==>
      r.form == f.(quantity := value, serials := r.form.serials)
  {
    var q := OrZero(value.number);
    if q.Integer? && 0 <= q.value < ArrayLengthBound
    then Applied(f.(quantity := value, serials := seq(q.value, _ => Filled(""))))
    else RangeError
  }

  /** The plain text inputs and selects handled by `[name]: value`. */
  datatype Field = NameField | DescriptionField | PriceField | CategoryField | SubcategoryField

  /** A select's value is truthy unless it is "" or 0. */
  predicate Chosen(s: Selection)
  {
    match s
    case Text(t) => t != ""
    case Id(n) => n != 0
  }

  /** `[name]: value`. The subcategory select is disabled until a category
      is chosen, so changing it before then does nothing. */
  function ChangeField(f: Form, field: Field, value: string): (r: Form)
    ensures r.quantity == f.quantity && r.serials == f.serials && r.images == f.images
    ensures field == NameField ==> r == f.(name := value)
    ensures field == DescriptionField ==> r == f.(description := value)
    ensures field == PriceField ==> r == f.(price := value)
    ensures field == CategoryField ==> r == f.(categoryId := Text(value))
    ensures field == SubcategoryField && Chosen(f.categoryId) ==> r == f.(subcategoryId := Text(value))
    ensures field == SubcategoryField && !Chosen(f.categoryId) ==> r == f
  {
    match field
    case NameField => f.(name := value)
    case DescriptionField => f.(description := value)
    case PriceField => f.(price := value)
    case CategoryField => f.(categoryId := Text(value))
    case SubcategoryField => if Chosen(f.categoryId) then f.(subcategoryId := Text(value)) else f
  }

  /** The images branch: the chosen files replace the previous choice. */
  function ChangeImages(f: Form, files: seq<string>): (r: Form)
    ensures r.images == files && r.(images := f.images) == f
  {
    f.(images := files)
  }

  /** `[...serials]`: spreading reads every hole as `undefined`. */
  function Spread(s: seq<Slot>): (r: seq<Slot>)
    ensures |r| == |s|
    ensures forall i :: 0 <= i < |s| ==> r[i] == (if s[i].Hole? then Undefined else s[i])
  {
    seq(|s|, i requires 0 <= i < |s| => if s[i].Hole? then Undefined else s[i])
  }

  function Holes(n: nat): (r: seq<Slot>)
    ensures |r| == n && forall i :: 0 <= i < n ==> r[i].Hole?
  {
    seq(n, _ => Hole)
  }

  /** `handleSerialChange(idx, val)`: copy the array, then assign
      `val.trim().toUpperCase()` at `idx`; an assignment past the end
      lengthens the array and leaves holes in between. */
  function SerialChange(f: Form, idx: nat, val: string): (r: Form)
    ensures r == f.(serials := r.serials)
    ensures idx < |f.serials| ==> |r.serials| == |f.serials|
    ensures idx >= |f.serials| ==> |r.serials| == idx + 1
    ensures r.serials[idx] == Filled(Serials.Normalise(val))
    ensures forall i :: 0 <= i < |f.serials| && i != idx ==>
      r.serials[i] == (if f.serials[i].Hole? then Undefined else f.serials[i])
    ensures forall i :: |f.serials| <= i < idx ==> r.serials[i] == Hole
  {
    var copy := Spread(f.serials);
    var v := Filled(Serials.Normalise(val));
    if idx < |copy| then f.(serials := copy[idx := v])
    else f.(serials := copy + Holes(idx - |copy|) + [v])
  }

  /** The save guard as written:
      `serials.length !== Number(quantity) || serials.some(s => !s)` refuses;
      `.some` never visits a hole. */
  predicate SaveAllowedAsWritten(f: Form)
  {
    f.quantity.number == Integer(|f.serials|) &&
    forall i :: 0 <= i < |f.serials| ==> !(f.serials[i].Undefined? || f.serials[i] == Filled(""))
  }

  /** The guard the message promises: exactly `quantity` serials, every one
      a non-empty string. */
  predicate SaveAllowed(f: Form)
  {
    f.quantity.number == Integer(|f.serials|) &&
    forall i :: 0 <= i < |f.serials| ==> f.serials[i].Filled? && f.serials[i].text != ""
  }

  /** The two guards differ only on arrays with holes. */
  lemma GuardsAgreeWithoutHoles(f: Form)
    requires forall i :: 0 <= i < |f.serials| ==> !f.serials[i].Hole?
    ensures SaveAllowedAsWritten(f) <==> SaveAllowed(f)
  {
  }

  /** The refusal message. */
  function CountMessage(f: Form): string
  {
    "Please enter exactly " + f.quantity.text + " serial number(s)."
  }

  /** The multipart body the form sends. Every field becomes a string;
      `serials` is `JSON.stringify(form.serials)`, shown here as the JSON
      value it encodes. */
  datatype Payload = Payload(
    name: string,
    description: string,
    price: string,
    quantity: string,
    categoryId: string,
    subcategoryId: string,
    images: seq<string>,
    serials: JsonValues.Json)

  function SelectionText(s: Selection): string
  {
    match s
    case Text(t) => t
    case Id(n) => Decimal(n)
  }

  /** `JSON.stringify` writes holes and `undefined` array entries as `null`. */
  function SlotJson(s: Slot): JsonValues.Json
  {
    if s.Filled? then JsonValues.JString(s.text) else JsonValues.JNull
  }

  function SerialsJson(s: seq<Slot>): (r: JsonValues.Json)
    ensures r.JArray? && |r.items| == |s|
    ensures forall i :: 0 <= i < |s| ==> r.items[i] == SlotJson(s[i])
  {
    JsonValues.JArray(seq(|s|, i requires 0 <= i < |s| => SlotJson(s[i])))
  }

  function PayloadOf(f: Form): Payload
  {
    Payload(f.name, f.description, f.price, f.quantity.text,
            SelectionText(f.categoryId), SelectionText(f.subcategoryId),
            f.images, SerialsJson(f.serials))
  }

  datatype SaveCall = CreateCall(payload: Payload) | UpdateCall(id: nat, payload: Payload)

  /** `editProductId` is truthy: set and not 0. */
  predicate Editing(p: Page)
  {
    p.editId.Some? && p.editId.value != 0
  }

  /** The call `handleSave` would make for the current page. */
  function SaveCallOf(p: Page): SaveCall
  {
    if Editing(p) then UpdateCall(p.editId.value, PayloadOf(p.form)) else CreateCall(PayloadOf(p.form))
  }

  /** `handleSave` given the API outcome: the page afterwards and the call
      made, if any. The guard is the corrected one (see `SaveAllowed`). */
  function Save(p: Page, result: ApiResult<()>): (r: (Page, Option<SaveCall>))
    ensures r.1.Some? <==> SaveAllowed(p.form)
    ensures !SaveAllowed(p.form) ==> r.0 == p.(error := Some(CountMessage(p.form)))
    ensures r.1.Some? ==> (r.1.value.UpdateCall? <==> Editing(p))
    ensures r.1.Some? && r.1.value.UpdateCall? ==> r.1.value.id == p.editId.value
    ensures r.1.Some? ==> r.1.value.payload == PayloadOf(p.form)
    ensures r.1.Some? && result.ApiOk? ==> r.0 == InitialPage
    ensures r.1.Some? && result.ApiFailed? ==> r.0 == p.(error := Some(result.message))
  {
    if !SaveAllowed(p.form) then (p.(error := Some(CountMessage(p.form))), None)
    else
      var call := SaveCallOf(p);
      match result
      case ApiOk(_) => (InitialPage, Some(call))
      case ApiFailed(msg) => (p.(error := Some(msg)), Some(call))
  }

  /** A call that passes the guard sends exactly `quantity` serials: the
      typed ones, in order, each a non-empty JSON string. */
  lemma SentSerialsAreComplete(p: Page, result: ApiResult<()>)
    requires Save(p, result).1.Some?
    ensures Save(p, result).1.value.payload.serials == SerialsJson(p.form.serials)
    ensures var items := Save(p, result).1.value.payload.serials.items;
      Integer(|items|) == p.form.quantity.number && |items| == |p.form.serials| &&
      forall i :: 0 <= i < |items| ==> items[i].JString? && items[i].s != ""
    ensures var items := Save(p, result).1.value.payload.serials.items;
      forall i :: 0 <= i < |items| ==>
        p.form.serials[i].Filled? && items[i] == JsonValues.JString(p.form.serials[i].text)
  {
  }

  /** After a quantity change to a positive count, save is refused until
      the serials are filled in. */
  lemma NewQuantityBlocksSave(f: Form, value: Quantity)
    requires ChangeQuantity(f, value).Applied?
    requires OrZero(value.number).value > 0
    ensures !SaveAllowed(ChangeQuantity(f, value).form)
  {
    assert ChangeQuantity(f, value).form.serials[0] == Filled("");
  }

  /** Typing into a slot of a complete form keeps it complete as long as
      the typed text normalises to something non-empty. */
  lemma SerialChangeKeepsComplete(f: Form, idx: nat, val: string)
    requires SaveAllowed(f) && idx < |f.serials|
    requires Serials.Normalise(val) != ""
    ensures SaveAllowed(SerialChange(f, idx, val))
  {
  }

  /** Every slot a serial change writes is already in normal form. */
  lemma SerialChangeStoresNormalised(f: Form, idx: nat, val: string)
    ensures var s := SerialChange(f, idx, val).serials[idx];
      s.Filled? && Serials.Normalise(s.text) == s.text
  {
    Serials.NormaliseIdempotent(val);
  }

  /** `handleEdit(p)`: load a product into the form. Falsy category ids
      become "", the quantity its decimal text, and the serials the product's
      array (or none). */
  function Edit(page: Page, p: ProductTable.AdminProduct): (r: Page)
    ensures r.editId == Some(p.id) && r.error == page.error
    ensures r.form.name == p.name && r.form.description == p.description && r.form.price == p.price
    ensures r.form.categoryId == Truthy(p.categoryId) && r.form.subcategoryId == Truthy(p.subcategoryId)
    ensures r.form.quantity == Quantity(Decimal(p.quantity), Integer(p.quantity))
    ensures r.form.images == []
    ensures p.serials.Some? ==> |r.form.serials| == |p.serials.value|
    ensures p.serials.Some? ==>
      forall i :: 0 <= i < |r.form.serials| ==> r.form.serials[i] == Filled(p.serials.value[i])
    ensures p.serials.None? ==> r.form.serials == []
  {
    var serials := if p.serials.Some? then p.serials.value else [];
    Page(Form(p.name, p.description, p.price,
              Quantity(Decimal(p.quantity), Integer(p.quantity)),
              Truthy(p.categoryId), Truthy(p.subcategoryId), [],
              seq(|serials|, i requires 0 <= i < |serials| => Filled(serials[i]))),
         Some(p.id), page.error)
  }

  /** `id || ""`. */
  function Truthy(id: Option<nat>): (r: Selection)
    ensures r.Id? <==> id.Some? && id.value != 0
    ensures r.Id? ==> r.id == id.value
    ensures r.Text? ==> r.text == ""
  {
    if id.Some? && id.value != 0 then Id(id.value) else Text("")
  }

  /** The Cancel button. */
  function Cancel(page: Page): (r: Page)
    ensures r.form == InitialForm && r.editId.None? && r.error == page.error
  {
    page.(form := InitialForm, editId := None)
  }

  /** Cancelling straight after Edit gives back the initial page, keeping
      only the error message. */
  lemma CancelAfterEdit(page: Page, p: ProductTable.AdminProduct)
    ensures Cancel(Edit(page, p)) == InitialPage.(error := page.error)
  {
  }

  /** Editing a product whose serials already match its quantity lets it be
      saved unchanged; the save then updates that product. */
  lemma EditThenSave(page: Page, p: ProductTable.AdminProduct, result: ApiResult<()>)
    requires p.serials.Some? && |p.serials.value| == p.quantity
    requires forall i :: 0 <= i < |p.serials.value| ==> p.serials.value[i] != ""
    requires p.id != 0
    ensures var r := Save(Edit(page, p), result);
      r.1 == Some(UpdateCall(p.id, PayloadOf(Edit(page, p).form)))
  {
  }

  /** `subcategories.filter(sc => sc.category_id.toString() === form.category_id)`:
      a number id never equals a string, so a selection loaded by
      `handleEdit` matches nothing. */
  predicate OptionMatches(sel: Selection, sc: Catalog.Subcategory)
  {
    sel.Text? && Decimal(sc.categoryId) == sel.text
  }

  function SubcategoryOptions(subs: seq<Catalog.Subcategory>, sel: Selection): seq<Catalog.Subcategory>
  {
    Seqs.Filter(subs, sc => OptionMatches(sel, sc))
  }

  /** The options chosen through the category select are exactly the
      subcategories of that category, in their original order. */
  lemma SubcategoryOptionsOfCategory(subs: seq<Catalog.Subcategory>, c: nat)
    ensures Seqs.IsSubsequence(SubcategoryOptions(subs, Text(Decimal(c))), subs)
    ensures forall sc :: sc in SubcategoryOptions(subs, Text(Decimal(c))) <==> sc in subs && sc.categoryId == c
  {
    Seqs.FilterIsSubsequence(subs, sc => OptionMatches(Text(Decimal(c)), sc));
    forall sc: Catalog.Subcategory ensures OptionMatches(Text(Decimal(c)), sc) <==> sc.categoryId == c {
      DecimalInjective(sc.categoryId, c);
    }
  }

  /** After `handleEdit` the category selection is either the product's id as
      a number, which never equals a string, or "" (no category, or id 0),
      which is no subcategory's id text: either way no option is offered. */
  lemma SubcategoryOptionsAfterEdit(page: Page, p: ProductTable.AdminProduct, subs: seq<Catalog.Subcategory>)
    ensures SubcategoryOptions(subs, Edit(page, p).form.categoryId) == []
  {
    var sel := Edit(page, p).form.categoryId;
    forall sc: Catalog.Subcategory ensures !OptionMatches(sel, sc) {
      assert |Decimal(sc.categoryId)| > 0;
    }
  }

  /** The form a product with quantity 2 and no serials reaches when a
      serial is pasted into the second box. */
  const HoleProduct := ProductTable.AdminProduct(7, "Amp", "", "100.00", 2, None, None, None)

  /** As written, the guard lets a hole through: editing `HoleProduct` and
      pasting one serial into the second box passes the check, and the
      request carries `[null, "WH1001"]`, which the server's `s.trim()`
      cannot handle. */
  lemma HoleSlipsThroughGuard()
    ensures var f := SerialChange(Edit(InitialPage, HoleProduct).form, 1, "wh1001");
      f.serials == [Hole, Filled("WH1001")] &&
      SaveAllowedAsWritten(f) &&
      !SaveAllowed(f) &&
      PayloadOf(f).serials == JsonValues.JArray([JsonValues.JNull, JsonValues.JString("WH1001")])
  {
    var e := Edit(InitialPage, HoleProduct).form;
    assert e.serials == [];
    assert e.quantity.number == Integer(2);
    var f := SerialChange(e, 1, "wh1001");
    Serials.AcceptedExample();
    assert f.serials == [Hole, Filled("WH1001")];
    assert SaveAllowedAsWritten(f);
    assert !f.serials[0].Filled?;
    assert PayloadOf(f).serials.items == [JsonValues.JNull, JsonValues.JString("WH1001")];
  }

  /** The PUT request the save sends for the form of `HoleSlipsThroughGuard`. */
  function HoleRequest(fields: ProductModel.ProductFields, files: seq<ProductRoutes.Upload>): ProductRoutes.ProductRequest
  {
    var items := [JsonValues.JNull, JsonValues.JString("WH1001")];
    ProductRoutes.ProductRequest(fields, Some(files),
      ProductRoutes.Present("[null,\"WH1001\"]", Some(JsonValues.JArray(items))))
  }

  /** On the server, the `null` from the hole stops the PUT handler's serial
      loop at its first entry: the answer is 500 and no serial is stored,
      although the scalar update and the images are already written. */
  lemma HoleEndsInServerError(st: ProductModel.Store, id: nat,
                              fields: ProductModel.ProductFields, files: seq<ProductRoutes.Upload>)
    requires |files| <= ProductRoutes.MaxImages
    ensures ProductRoutes.Update(st, id, HoleRequest(fields, files)).response == ProductRoutes.ServerError
    ensures ProductRoutes.Update(st, id, HoleRequest(fields, files)).store.serials == st.serials
    ensures ProductRoutes.Update(st, id, HoleRequest(fields, files)).store.images
         == st.images + ProductRoutes.ImageRows(id, files)
    ensures forall k :: 0 <= k < |st.products| && st.products[k].id == id ==>
      ProductRoutes.Update(st, id, HoleRequest(fields, files)).store.products[k].fields == fields
  {
    var items := [JsonValues.JNull, JsonValues.JString("WH1001")];
    var req := HoleRequest(fields, files);
    ProductRoutes.UpdateStopsAtRefusedSerial(st, id, req, items, 0);
    ProductRoutes.UpdateOverwritesFields(st, id, req);
    assert items[..0] == [];
  }
}

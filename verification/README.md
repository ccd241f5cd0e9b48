# MasterSound storefront core, modelled in Dafny

MasterSound is a small storefront for audio equipment. An Express back end
stores products, their images and their serial numbers. A React front end has
a public shop, a customer e-warranty wizard and admin pages for products,
categories and warranty registrations.

This project models the parts of that system that are sequential logic over
records, lists and strings:

- the product routes' POST and PUT handlers (`ProductRoutes`), over an
  abstract store value (`ProductModel`). They rely on:
  - the upload-filename sanitiser and image path (`Uploads`, `Paths`);
  - serial normalisation and validation (`Serials`).
- the admin product page:
  - the form's quantity/serial bookkeeping, save guard, save dispatch,
    edit and cancel, and the subcategory options (`ProductForm`);
  - the flattened one-row-per-serial table (`ProductTable`).
- the customer warranty wizard, as a three-step state machine (`EWarranty`).
- the admin warranty list: status update, delete, serial search and per-row
  actions (`EWarrantyManagement`).
- the admin category page: validation, create-or-update dispatch, reset,
  edit and delete (`CategoryManagement`), and the name lookup shared by the
  admin tables (`Catalog`).
- the shop's name search and card image (`Shop`).

The JavaScript built-ins these rely on are modelled once and shared:

- `trim`, `toUpperCase`/`toLowerCase` on ASCII letters, `includes`, and
  decimal rendering of numbers (`Text`);
- `filter` and `find`/`findIndex` (`Seqs`);
- the values `JSON.parse` can return and what `for...of` does with them
  (`JsonValues`);
- `path.join` for absolute POSIX paths (`Paths`).

Every handler is one pure transition. It takes the state before, the user
input, and the outcome of the API or database call (`Base.ApiResult`). It
returns the state after, plus the call it made, if any. The clock
(`Date.now()`), `Number(...)` and `JSON.parse` are inputs to the model, not
computed by it.

## Model

Each row names the member whose contract states the property. Where the
row is a lemma, it stands for the function it specifies: for example
`Serials.NormaliseSpec` for `Serials.Normalise`, `ProductRoutes.SaveSerialsStopsAt`
for `ProductRoutes.Rejection`, `ProductForm.GuardsAgreeWithoutHoles` for
`ProductForm.SaveAllowedAsWritten`, `ProductForm.SubcategoryOptionsOfCategory`
for `ProductForm.SubcategoryOptions`, `Shop.FilteredIsMatchingSubsequence` for
`Shop.Filtered` and `EWarrantyManagement.VisibleIsMatchingSubsequence` for
`EWarrantyManagement.Visible`. To verify the project, run
`dafny verify *.dfy` in this directory.

| member | source | states |
|---|---|---|
| Text.TrimIsTrimOf | backend/routes/productRoutes.js:108 | `trim` returns a slice of the input with only white space before and after it, and the slice neither starts nor ends with white space |
| Text.TrimEmptyIffAllSpaces | frontend/src/pages/admin/CategoryManagement.jsx:57 | `name.trim()` is empty exactly when every character of `name` is white space |
| Text.UpperSpec | backend/routes/productRoutes.js:108 | upper-casing keeps the length, leaves no lower-case letter, moves each lower-case letter to its capital and changes nothing else |
| Text.LowerOfUpper | frontend/src/pages/Shop.jsx:150 | lower-casing gives the same result whatever case the letters had before |
| Text.UpperOfLower | frontend/src/pages/admin/EWarrantyManagement.jsx:64 | upper-casing gives the same result whatever case the letters had before |
| Text.ContainsIffOccurs | frontend/src/pages/Shop.jsx:150 | `haystack.includes(needle)` holds exactly when the needle occurs at some index of the haystack |
| Text.Decimal | backend/routes/productRoutes.js:33 | a number's decimal text is non-empty, all digits and has no leading zero |
| Text.ParseDecimalOfDecimal | frontend/src/pages/admin/ProductManagement.jsx:157 | reading a number's decimal text back gives the number |
| Seqs.Filter | frontend/src/pages/Shop.jsx:149-151 | `filter` keeps exactly the elements satisfying the predicate, with their multiplicities, and never lengthens the list |
| Seqs.FilterIsSubsequence | frontend/src/pages/Shop.jsx:149-151 | the kept elements appear in their original order |
| Seqs.FindFirst | frontend/src/pages/admin/CategoryManagement.jsx:255 | `findIndex` returns the first index whose element satisfies the predicate, and none when no element does |
| JsonValues.ForOf | backend/routes/productRoutes.js:107 | `for...of` visits an array's elements or a string's characters; any other parsed value throws |
| Paths.SplitAtSlash | backend/routes/productRoutes.js:102 | splitting `a + "/" + b` on slashes gives the segments of `a` followed by those of `b` |
| Paths.JoinPlain | backend/routes/productRoutes.js:102 | `path.join` of a two-segment absolute directory and a plain name inserts one slash and normalises nothing away |
| Uploads.Sanitise | backend/routes/productRoutes.js:32 | the sanitised name has the original length; every character is in `[a-zA-Z0-9._-]`; allowed characters stay and every other becomes `_` |
| Uploads.SanitiseIdempotent | backend/routes/productRoutes.js:32 | a clean name is left unchanged, so sanitising twice equals sanitising once |
| Uploads.StoredFilename | backend/routes/productRoutes.js:33 | `${Date.now()}_${cleanName}` is one plain path segment: non-empty, no slash, not `.` or `..` |
| Uploads.ImagePathOfStoredFile | backend/routes/productRoutes.js:102 | the recorded image path is exactly `"/uploads/products/" + storedFilename` |
| Serials.NormaliseSpec | backend/routes/productRoutes.js:108 | a normalised serial has no white space at either end and no lower-case letter |
| Serials.NormaliseIdempotent | backend/routes/productRoutes.js:108 | normalising twice equals normalising once |
| Serials.ValidIsNormal | backend/routes/productRoutes.js:109 | a serial matching `^[A-Z0-9]+$` is its own normal form |
| Serials.AcceptedExample | backend/routes/productRoutes.js:108-112 | "wh1001" normalises to "WH1001", which is accepted |
| Serials.RefusedExample | backend/routes/productRoutes.js:109-110 | "wh-1001" is refused: its dash survives normalisation |
| ProductModel.CreateProduct | backend/routes/productRoutes.js:91-98 | `createProduct` appends one product row with a fresh id and touches no other table |
| ProductModel.UpdateProduct | backend/routes/productRoutes.js:142-149 | `updateProduct` overwrites the fields of the rows with the id; every other row, the ids and the other tables are unchanged |
| ProductRoutes.ImageRows | backend/routes/productRoutes.js:101-104 | one image row per uploaded file, in upload order, each with the file's recorded path |
| ProductRoutes.SaveImages | backend/routes/productRoutes.js:101-104 | the image loop appends exactly those rows and changes no other table |
| ProductRoutes.SerialRows | backend/routes/productRoutes.js:107-113 | one serial row per entry, holding the entry's normalised text, in order |
| ProductRoutes.SaveSerials | backend/routes/productRoutes.js:107-113 | the serial loop only appends serial rows and touches no other table |
| ProductRoutes.SaveSerialsAllAccepted | backend/routes/productRoutes.js:107-113 | when every entry is accepted, the loop stores all of them, normalised and in order |
| ProductRoutes.SaveSerialsStopsAt | backend/routes/productRoutes.js:107-111 | when entry `i` is the first refused, the loop stores exactly entries `0..i-1` and answers with that entry's rejection |
| ProductRoutes.Create | backend/routes/productRoutes.js:65-121 | POST never removes a row and adds at most one product |
| ProductRoutes.CreateRejectsUnparseableSerials | backend/routes/productRoutes.js:83-88 | a `serials` field that does not parse is answered 400 "Invalid serials format" with the store unchanged, whether or not the request is multipart |
| ProductRoutes.CreateSucceeds | backend/routes/productRoutes.js:90-115 | on success the store gains one product with the new id, its images in order and its normalised serials in order, and the answer is 201 with the id |
| ProductRoutes.CreateStopsAtRefusedSerial | backend/routes/productRoutes.js:106-119 | if entry `i` is the first refused serial, the answer is that entry's rejection: 400 "Invalid serial: " plus its normalised text when it is a string, 500 "Server error" when it is not (`s.trim()` throws); the product and all images remain, plus exactly the first `i` serials |
| ProductRoutes.CreateWithNonIterableSerials | backend/routes/productRoutes.js:106-118 | a parsed `serials` value that is not iterable gives 500, after the product and its images are written |
| ProductRoutes.Update | backend/routes/productRoutes.js:125-175 | PUT keeps the number and ids of products, changes only the rows with the id, never removes an image or serial, and hands out no id |
| ProductRoutes.UpdateOverwritesFields | backend/routes/productRoutes.js:141-155 | the product with the id gets the new fields, and the new images are appended in order |
| ProductRoutes.UpdateWithoutSerials | backend/routes/productRoutes.js:157-169 | without a `serials` field no serial is added and the answer is 200 with the id |
| ProductRoutes.UpdateWithMalformedSerials | backend/routes/productRoutes.js:157-172 | malformed serials JSON gives 500 after the field update and the image rows are written |
| ProductRoutes.UpdateAppendsSerials | backend/routes/productRoutes.js:158-169 | accepted serials are appended, normalised and in order, and the answer is 200 |
| ProductRoutes.UpdateStopsAtRefusedSerial | backend/routes/productRoutes.js:160-164 | if entry `i` is the first refused serial, exactly the first `i` are appended and the answer is that entry's rejection |
| ProductRoutes.CreateWithoutFiles | backend/routes/productRoutes.js:90-104 | a POST that is not multipart leaves `req.files` unset: the product row is written, then the image loop throws and the answer is 500 with no image or serial row |
| ProductRoutes.UpdateWithoutFiles | backend/routes/productRoutes.js:141-155 | a PUT that is not multipart applies the field update, then the image loop throws and the answer is 500 with no image or serial row added |
| ProductRoutes.TooManyFilesWriteNothing | backend/routes/productRoutes.js:68 | more than ten files are refused by the upload layer before anything is written |
| ProductRoutes.ImageRowsUnderUploadDir | backend/routes/productRoutes.js:152-155 | every image row's path is `"/uploads/products/"` followed by the stored name of its file |
| Catalog.CategoryLabel | frontend/src/pages/admin/CategoryManagement.jsx:255-256 | the name of the first category with the id, or the fallback when there is no such category or its name is empty |
| Catalog.SubcategoryLabel | frontend/src/pages/admin/ProductManagement.jsx:324-325 | the name of the first subcategory with the id, or "-" when there is none or its name is empty |
| ProductTable.ParseRowKeyOfRowKey | frontend/src/pages/admin/ProductManagement.jsx:157 | a row key `${id}-${i}` can be read back into the id and the index |
| ProductTable.RowKeyInjective | frontend/src/pages/admin/ProductManagement.jsx:157 | two row keys are equal only when built from the same id and index |
| ProductTable.DisplaySerials | frontend/src/pages/admin/ProductManagement.jsx:152-153 | a product is listed with its serials when it has a non-empty array of them, otherwise with a single `null` |
| ProductTable.ProductRows | frontend/src/pages/admin/ProductManagement.jsx:154-158 | a product gives max(1, number of serials) rows, carrying the product, its serials in order and the keys `${id}-0`, `${id}-1`, … |
| ProductTable.Rows | frontend/src/pages/admin/ProductManagement.jsx:151-159 | the table has Σ max(1, number of serials) rows, and each row belongs to a listed product |
| ProductTable.RowsAppend | frontend/src/pages/admin/ProductManagement.jsx:151 | the rows follow product order: the rows of `a ++ b` are the rows of `a` then those of `b` |
| ProductTable.ProductWithoutSerials | frontend/src/pages/admin/ProductManagement.jsx:152-158 | a product with no serials gives exactly one row, with a `null` serial and key `${id}-0` |
| ProductTable.RowKeysNameTheirProduct | frontend/src/pages/admin/ProductManagement.jsx:151-159 | every row key reads back to the id of the row's product |
| ProductTable.RowKeysDistinct | frontend/src/pages/admin/ProductManagement.jsx:157 | when product ids are distinct, row keys are pairwise distinct |
| ProductTable.SerialCell | frontend/src/pages/admin/ProductManagement.jsx:328 | the serial cell shows the row's serial when it has a non-empty one, and "N/A" otherwise; so it reads "N/A" exactly when the serial is missing, empty or "N/A" itself |
| ProductForm.ChangeQuantity | frontend/src/pages/admin/ProductManagement.jsx:57-63 | a quantity whose `Number(v)`, or 0 when that is NaN or 0, is an integer q in [0, 2^32) sets the serials to exactly q empty strings and changes only quantity and serials; anything else is the RangeError `Array(q)` throws |
| ProductForm.ChangeField | frontend/src/pages/admin/ProductManagement.jsx:64-65 | a text field or select stores the typed value in that field only; quantity, serials and images are unchanged; the subcategory select changes nothing until a category is chosen (line 213) |
| ProductForm.ChangeImages | frontend/src/pages/admin/ProductManagement.jsx:55-56 | choosing files replaces the images and nothing else |
| ProductForm.Spread | frontend/src/pages/admin/ProductManagement.jsx:71 | `[...serials]` keeps length and elements but reads holes as `undefined` |
| ProductForm.SerialChange | frontend/src/pages/admin/ProductManagement.jsx:69-75 | slot `idx` becomes `val.trim().toUpperCase()`; other slots keep their values, with holes read as `undefined`; the length is unchanged when `idx` is in range, otherwise it becomes `idx + 1` with holes in between; no other field changes |
| ProductForm.GuardsAgreeWithoutHoles | frontend/src/pages/admin/ProductManagement.jsx:81-84 | on an array without holes, the written guard and the corrected guard agree |
| ProductForm.SerialsJson | frontend/src/pages/admin/ProductManagement.jsx:99 | `JSON.stringify(serials)` is an array of the same length with each string kept and every hole or `undefined` written as `null` |
| ProductForm.Save | frontend/src/pages/admin/ProductManagement.jsx:77-121 | with the corrected guard: a call is made iff exactly `quantity` non-empty serials are present; a refusal sets the count message and makes no call; the call is an update of `editProductId` iff it is truthy, otherwise a create; the call carries the form's fields and `JSON.stringify(form.serials)`; success resets the form and clears `editProductId`; failure keeps the form and shows the message |
| ProductForm.SentSerialsAreComplete | frontend/src/pages/admin/ProductManagement.jsx:81-99 | every request Save sends carries `JSON.stringify(form.serials)`: exactly `quantity` entries, which are the typed serials in order, each a non-empty string |
| ProductForm.NewQuantityBlocksSave | frontend/src/pages/admin/ProductManagement.jsx:57-88 | right after the quantity is set to a positive count, Save is refused |
| ProductForm.SerialChangeKeepsComplete | frontend/src/pages/admin/ProductManagement.jsx:69-84 | typing a serial that normalises to something non-empty into a slot of a complete form keeps it complete |
| ProductForm.SerialChangeStoresNormalised | frontend/src/pages/admin/ProductManagement.jsx:72 | the value a serial change stores is already in normal form |
| ProductForm.Edit | frontend/src/pages/admin/ProductManagement.jsx:123-135 | Edit sets `editProductId` to the product's id; name, description and price are copied; each category selection is the id when it is a non-zero number and "" otherwise; quantity becomes its decimal text; the serials become the product's array, or none; images are cleared |
| ProductForm.Truthy | frontend/src/pages/admin/ProductManagement.jsx:130-131 | `p.category_id` or `""`: keeps a non-zero id and turns a missing or zero id into "" |
| ProductForm.Cancel | frontend/src/pages/admin/ProductManagement.jsx:265-277 | Cancel restores the empty form and clears `editProductId`, keeping the error |
| ProductForm.CancelAfterEdit | frontend/src/pages/admin/ProductManagement.jsx:265-277 | cancelling straight after Edit gives back the initial page, apart from the error message |
| ProductForm.EditThenSave | frontend/src/pages/admin/ProductManagement.jsx:101-135 | a product whose serials already match its quantity can be saved straight after Edit, and the save updates that product |
| ProductForm.SubcategoryOptionsOfCategory | frontend/src/pages/admin/ProductManagement.jsx:216-217 | after a category is chosen, the options are exactly that category's subcategories, in their original order |
| ProductForm.SubcategoryOptionsAfterEdit | frontend/src/pages/admin/ProductManagement.jsx:216-217 | after Edit no subcategory option is offered: the selected category is either a number, which never equals a string, or "", which is no subcategory's id text |
| ProductForm.HoleSlipsThroughGuard | frontend/src/pages/admin/ProductManagement.jsx:81-84 | editing a product with quantity 2 and no serials, then pasting one serial into the second box, passes the written guard but not the corrected one; the request then carries `[null, "WH1001"]` |
| ProductForm.HoleEndsInServerError | backend/routes/productRoutes.js:141-172 | that request makes PUT answer 500 with no serial stored, after the product's fields are overwritten and its images appended in order |
| EWarranty.Step | frontend/src/pages/EWarranty.jsx:26-61 | a control that is hidden or disabled does nothing; an API call is made exactly when Validate or Register is enabled and pressed |
| EWarranty.InitialInvariant | frontend/src/pages/EWarranty.jsx:6-15 | the wizard starts at step 1 in a state that satisfies the invariant |
| EWarranty.StepKeepsInvariant | frontend/src/pages/EWarranty.jsx:20-196 | every handler keeps the invariant: step is 1, 2 or 3; the serial is normalised; no answer is held at step 1; step 3 holds an answer and no error; the success message is shown exactly at step 3 |
| EWarranty.RunKeepsInvariant | frontend/src/pages/EWarranty.jsx:5-202 | any sequence of actions keeps the invariant |
| EWarranty.SerialInputNormalises | frontend/src/pages/EWarranty.jsx:20-23 | a typed serial (line 86) or a non-empty query-string prefill is stored normalised; an absent prefill changes nothing |
| EWarranty.ValidateOutcome | frontend/src/pages/EWarranty.jsx:26-39 | Validate sends the stored serial; success stores the answer, clears the error and moves to step 2; failure stays at step 1 with the error message |
| EWarranty.ValidateNeedsSerial | frontend/src/pages/EWarranty.jsx:94 | Validate does nothing while the serial is empty or outside step 1 |
| EWarranty.RegisterOutcome | frontend/src/pages/EWarranty.jsx:42-61 | Register sends the serial, `info.product_id` and the owner's details; success moves to step 3 with the success message; failure stays at step 2 with the error message |
| EWarranty.RegisterNeedsDetails | frontend/src/pages/EWarranty.jsx:107-140 | Register does nothing unless the step-2 form is shown (step 2 with an answer) and both name and email are non-empty |
| EWarranty.GoBackKeepsForm | frontend/src/pages/EWarranty.jsx:150-156 | Go Back returns to the initial step, serial, answer and error but keeps the owner's details |
| EWarranty.RegisterAnotherResets | frontend/src/pages/EWarranty.jsx:188-196 | Register Another restores every part of the initial state |
| EWarrantyManagement.SetStatus | frontend/src/pages/admin/EWarrantyManagement.jsx:40-42 | the records with the id get the new status; every other record is unchanged; length and order are kept |
| EWarrantyManagement.UpdateStatus | frontend/src/pages/admin/EWarrantyManagement.jsx:36-47 | the list changes only after the server accepts; on failure the list is unchanged and the error reads "Failed to update status: " plus the message |
| EWarrantyManagement.UpdateStatusTouchesOnlyId | frontend/src/pages/admin/EWarrantyManagement.jsx:40-42 | a successful update changes no field but `status`, and the status only of records with the id, which all get the new status |
| EWarrantyManagement.SetStatusIdempotent | frontend/src/pages/admin/EWarrantyManagement.jsx:41 | setting the same status twice equals setting it once |
| EWarrantyManagement.Delete | frontend/src/pages/admin/EWarrantyManagement.jsx:49-60 | nothing changes without confirmation; a failed delete keeps the list and the search term and shows "Failed to delete request: " plus the message |
| EWarrantyManagement.DeleteRemovesExactlyId | frontend/src/pages/admin/EWarrantyManagement.jsx:55 | a confirmed delete keeps exactly the records with other ids, in order |
| EWarrantyManagement.DeleteAfterSetStatus | frontend/src/pages/admin/EWarrantyManagement.jsx:41-55 | deleting a record makes an earlier status change to it irrelevant |
| EWarrantyManagement.VisibleIsMatchingSubsequence | frontend/src/pages/admin/EWarrantyManagement.jsx:63-65 | the search keeps, in order, exactly the records whose upper-cased serial contains the upper-cased term |
| EWarrantyManagement.EmptySearchShowsAll | frontend/src/pages/admin/EWarrantyManagement.jsx:63-65 | an empty search term keeps every record |
| EWarrantyManagement.SearchIgnoresTermCase | frontend/src/pages/admin/EWarrantyManagement.jsx:64 | the case of the search term does not change the result |
| EWarrantyManagement.RowActions | frontend/src/pages/admin/EWarrantyManagement.jsx:175-196 | every row offers Delete; Accept and Reject are offered exactly for pending records |
| EWarrantyManagement.PressStatus | frontend/src/pages/admin/EWarrantyManagement.jsx:175-190 | a record that is not pending cannot have its status changed from its row |
| EWarrantyManagement.StatusChangesOnlyFromPending | frontend/src/pages/admin/EWarrantyManagement.jsx:175-190 | accepting or rejecting a pending record gives it "accepted" or "rejected" |
| CategoryManagement.Reset | frontend/src/pages/admin/CategoryManagement.jsx:45-51 | `resetForm` clears the name, parent, both edit ids and the error |
| CategoryManagement.SaveCategory | frontend/src/pages/admin/CategoryManagement.jsx:53-67 | a blank name gives "Name required" and no call; otherwise the untrimmed name is sent as an update when `editCatId` is truthy, else as a create; success resets the form and failure shows the message |
| CategoryManagement.SaveSubcategory | frontend/src/pages/admin/CategoryManagement.jsx:69-85 | a blank name or missing parent gives "Name and category required" and no call; otherwise name and parent are sent as an update when `editSubId` is truthy, else as a create; success resets the form |
| CategoryManagement.WhiteSpaceNameRefused | frontend/src/pages/admin/CategoryManagement.jsx:57-74 | a name of only white space is refused by both forms with no call |
| CategoryManagement.VisibleNameSentUntrimmed | frontend/src/pages/admin/CategoryManagement.jsx:57-59 | a name with any visible character is sent exactly as typed |
| CategoryManagement.EditCategory | frontend/src/pages/admin/CategoryManagement.jsx:171-174 | the category Edit button sets `editCatId` and the name and leaves the rest |
| CategoryManagement.EditSubcategory | frontend/src/pages/admin/CategoryManagement.jsx:260-264 | the subcategory Edit button sets `editSubId`, the name and the parent |
| CategoryManagement.EditCategoryThenSave | frontend/src/pages/admin/CategoryManagement.jsx:58-60 | saving a category straight after Edit updates it and clears the form |
| CategoryManagement.EditSubcategoryThenSave | frontend/src/pages/admin/CategoryManagement.jsx:75-78 | saving a subcategory straight after Edit updates it under the same parent and clears the form |
| CategoryManagement.Remove | frontend/src/pages/admin/CategoryManagement.jsx:87-112 | nothing happens without confirmation; a confirmed remove sends the matching delete and shows the message on failure |
| CategoryManagement.OrphanShowsNA | frontend/src/pages/admin/CategoryManagement.jsx:255-256 | a subcategory whose category is not listed shows "N/A" |
| Shop.FilteredIsMatchingSubsequence | frontend/src/pages/Shop.jsx:149-151 | the search keeps, in order, exactly the products whose lower-cased name contains the lower-cased term at some position |
| Shop.EmptySearchShowsAll | frontend/src/pages/Shop.jsx:150 | an empty search term keeps every product |
| Shop.SearchIgnoresTermCase | frontend/src/pages/Shop.jsx:150 | typing the term upper- or lower-case does not change the result |
| Shop.FilteredAppend | frontend/src/pages/Shop.jsx:149-151 | searching a concatenated list equals concatenating the searches |
| Shop.CardImage | frontend/src/pages/Shop.jsx:202-205 | the card shows the first image when there is one, otherwise the fixed placeholder URL |
| Shop.CardImageIsOwnOrPlaceholder | frontend/src/pages/Shop.jsx:202-213 | a card that loads shows one of the product's own images (the first) or the placeholder, never anything else |
| Shop.ShownImage | frontend/src/pages/Shop.jsx:209-213 | an image that fails to load is replaced by the "Image Not Found" placeholder |

## Left out

- The GET `/`, GET `/:id` and DELETE `/:id` product routes pass straight through to `productModel`, which is not part of this model.
- The SQL behind `productModel` is not part of this model. Its calls are appends and updates on an abstract store.
- Database failures are left out: every model call is assumed to succeed. A thrown query would be answered 500, for example a duplicate serial against a unique index.
- Multer's disk storage, `fs.mkdirSync` and static file serving are left out (filesystem I/O). `Date.now()` is a parameter of each upload.
- The multer error for more than ten files is modelled only as `UploadRejected`. The HTTP response Express's error handler builds from it is not modelled.
- Multipart fields are modelled as single strings. A field sent twice, which multer turns into an array, is not modelled.
- `authMiddleware`, tokens and the admin route guard are left out (authentication plumbing).
- `JSON.parse` and `JSON.stringify` are not modelled as text functions. A request carries the raw `serials` text together with the value it parses to, or none when parsing throws.
- `Number(text)` is not computed. The quantity field carries the value it yields (`ProductForm.JsNumber`). That includes the NaN, non-integer and out-of-range cases the form treats specially.
- Text.Upper and Text.Lower map only ASCII letters, because JavaScript's full Unicode case mapping is not modelled. Serials and the search terms are ASCII in practice.
- Uploads.Sanitise: works per Unicode character. JavaScript works per UTF-16 code unit, so a character outside the Basic Multilingual Plane becomes `__` there and `_` here.
- ProductRoutes.Update: the route parameter is modelled as a canonical decimal id and the response carries that number. The handler passes `req.params.id` on and echoes it as whatever text it is, for example "007" or "abc".
- Fields of a JSON (non-multipart) body are modelled as strings, like multipart fields. A number or array sent as a JSON value is not modelled.
- React state scheduling, the `loading`/`formLoading` flags and controls disabled while a request is in flight are left out: each handler is one atomic transition.
- The list refetches (`loadData`, `refetchRequests`, the shop's `fetchProducts`) and their loading and error screens are left out. The lists are inputs to each operation.
- Product removal on the admin product page (`handleRemove`) is left out: it is a confirmed delete call followed by a refetch, with no local state change besides the error text.
- Price formatting with `Number(...).toFixed(2)`, `toLocaleString` dates and the `user_phone || "N/A"` cell are left out (floating point, locale, display only).
- The commented-out legacy blocks in `CategoryManagement.jsx` and `Shop.jsx` are left out because they are dead code.
- `validateSerial`'s answer is modelled as a product id and name, or `null`. How the server decides that a serial is unknown or already registered is not part of this model.

## Findings

| source | as written | input that shows it | evidently intended | confidence | as-written member | corrected member |
|---|---|---|---|---|---|---|
| frontend/src/pages/admin/ProductManagement.jsx:81-84 | the guard refuses on `serials.some((s) => !s)`, and `some` skips array holes; `handleSerialChange` leaves holes when it assigns past the end | Edit a product with quantity 2 and no serials, then paste "wh1001" into the second serial box. The serials are `[hole, "WH1001"]` and the guard passes. `[null,"WH1001"]` is sent, and the server's `s.trim()` throws on `null`: the answer is 500 after the field update and images are written | refuse unless all `quantity` slots hold non-empty strings | high, not executed | ProductForm.HoleSlipsThroughGuard | ProductForm.Save |

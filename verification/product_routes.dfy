/** The POST and PUT handlers of the product routes: parse the `serials`
    field, write the product, then one image row per uploaded file, then one
    serial row per serial, stopping at the first serial that is not a string
    of `[A-Z0-9]` after normalisation. Nothing is rolled back when a later
    step fails. */
module ProductRoutes {
  import opened Base
  import opened JsonValues
  import opened ProductModel
  import Serials
  import Uploads

  /** The most files `upload.array("images", 10)` accepts. */
  const MaxImages: nat := 10

  /** An uploaded file: its original name and the clock reading taken when
      multer named it. */
  datatype Upload = Upload(originalName: string, savedAt: nat)

  /** The path recorded for an uploaded file. */
  function UploadPath(u: Upload): string
  {
    Uploads.ImagePath(Uploads.StoredFilename(u.savedAt, u.originalName))
  }

  /** The `serials` form field: absent, or its raw text together with what
      `JSON.parse` makes of it (`None` when it throws). */
  datatype SerialsField = Absent | Present(raw: string, parsed: Option<Json>)

  /** JavaScript truthiness of `req.body.serials`: present and non-empty. */
  predicate IsTruthy(f: SerialsField)
  {
    f.Present? && f.raw != ""
  }

  /** A request as the handlers see it. `files` is `None` when the request is
      not multipart: the upload layer then leaves `req.files` unset. */
  datatype ProductRequest = ProductRequest(fields: ProductFields, files: Option<seq<Upload>>, serials: SerialsField)

  /** The upload layer let the request through with its list of files. */
  predicate FilesAccepted(req: ProductRequest)
  {
    req.files.Some? && |req.files.value| <= MaxImages
  }

  datatype Body = IdBody(id: nat) | MessageBody(message: string)

  /** An HTTP response, or the multer error raised before the handler runs. */
  datatype Response = Response(status: nat, body: Body) | UploadRejected

  datatype Outcome = Outcome(store: Store, response: Response)

  const ServerError: Response := Response(500, MessageBody("Server error"))

  const InvalidSerialsFormat: Response := Response(400, MessageBody("Invalid serials format"))

  /** The image rows the handlers add for `files`, in upload order. */
  function ImageRows(productId: nat, files: seq<Upload>): (r: seq<ImageRow>)
    ensures |r| == |files|
    ensures forall k :: 0 <= k < |files| ==> r[k] == ImageRow(productId, UploadPath(files[k]))
    decreases |files|
  {
    if |files| == 0 then [] else [ImageRow(productId, UploadPath(files[0]))] + ImageRows(productId, files[1..])
  }

  /** The loop `for (const file of req.files) await addProductImage(...)`. */
  function SaveImages(st: Store, productId: nat, files: seq<Upload>): (r: Store)
    ensures r.images == st.images + ImageRows(productId, files)
    ensures r.products == st.products && r.serials == st.serials && r.nextId == st.nextId
    decreases |files|
  {
    if |files| == 0 then st
    else
      var row := ImageRow(productId, UploadPath(files[0]));
      assert st.images + ImageRows(productId, files) == (st.images + [row]) + ImageRows(productId, files[1..]);
      SaveImages(AddProductImage(st, productId, UploadPath(files[0])), productId, files[1..])
  }

  /** An entry of the parsed `serials` value that the loop stores: a string
      whose normalised form matches `^[A-Z0-9]+$`. */
  predicate IsAccepted(item: Json)
  {
    item.JString? && Serials.IsValid(Serials.Normalise(item.s))
  }

  /** The response for an entry the loop refuses: 400 naming the normalised
      serial, or 500 when the entry is not a string and `s.trim()` throws. */
  function Rejection(item: Json): Response
  {
    if item.JString? then Response(400, MessageBody("Invalid serial: " + Serials.Normalise(item.s)))
    else ServerError
  }

  /** The text of a string entry (other entries never reach a row). */
  function TextOf(item: Json): string
  {
    if item.JString? then item.s else ""
  }

  /** The serial rows stored for accepted entries, normalised and in order. */
  function SerialRows(productId: nat, items: seq<Json>): (r: seq<SerialRow>)
    ensures |r| == |items|
    ensures forall k :: 0 <= k < |items| ==> r[k] == SerialRow(productId, Serials.Normalise(TextOf(items[k])))
    decreases |items|
  {
    if |items| == 0 then []
    else [SerialRow(productId, Serials.Normalise(TextOf(items[0])))] + SerialRows(productId, items[1..])
  }

  datatype SerialsOutcome = Saved(store: Store) | Stopped(store: Store, response: Response)

  /** The loop over the parsed serials: normalise, test, store, or stop. */
  function SaveSerials(st: Store, productId: nat, items: seq<Json>): (r: SerialsOutcome)
    ensures r.store.products == st.products && r.store.images == st.images && r.store.nextId == st.nextId
    ensures st.serials <= r.store.serials
    decreases |items|
  {
    if |items| == 0 then Saved(st)
    else match items[0]
      case JString(s) =>
        var serial := Serials.Normalise(s);
        if !Serials.IsValid(serial) then Stopped(st, Rejection(items[0]))
        else SaveSerials(AddSerialNumber(st, productId, serial), productId, items[1..])
      case _ => Stopped(st, ServerError)
  }

  /** When every entry is accepted, the loop stores all of them, in order. */
  lemma SaveSerialsAllAccepted(st: Store, productId: nat, items: seq<Json>)
    requires forall k :: 0 <= k < |items| ==> IsAccepted(items[k])
    ensures SaveSerials(st, productId, items) == Saved(st.(serials := st.serials + SerialRows(productId, items)))
  {
    AllAcceptedOf(items);
    SaveAllAccepted(st, productId, items);
  }

  /** Every entry is accepted, stated entry by entry from the front. */
  predicate AllAccepted(items: seq<Json>)
    decreases |items|
  {
    |items| == 0 || (IsAccepted(items[0]) && AllAccepted(items[1..]))
  }

  lemma {:induction false} AllAcceptedOf(items: seq<Json>)
    requires forall k :: 0 <= k < |items| ==> IsAccepted(items[k])
    ensures AllAccepted(items)
    decreases |items|
  {
    if |items| > 0 {
      var tail := items[1..];
      forall k | 0 <= k < |tail| ensures IsAccepted(tail[k]) {
        assert tail[k] == items[k + 1];
      }
      AllAcceptedOf(tail);
    }
  }

  lemma {:induction false} SaveAllAccepted(st: Store, productId: nat, items: seq<Json>)
    requires AllAccepted(items)
    ensures SaveSerials(st, productId, items) == Saved(st.(serials := st.serials + SerialRows(productId, items)))
    decreases |items|
  {
    if |items| > 0 {
      var tail := items[1..];
      var row := SerialRow(productId, Serials.Normalise(items[0].s));
      var next := AddSerialNumber(st, productId, Serials.Normalise(items[0].s));
      var rest := SerialRows(productId, tail);
      SaveSerialsStep(st, productId, items);
      SaveAllAccepted(next, productId, tail);
      assert next.serials + rest == st.serials + SerialRows(productId, items) by {
        SerialRowsStep(productId, items);
        assert next.serials + rest == st.serials + ([row] + rest);
      }
    }
  }

  /** One turn of the serial loop on an accepted entry. */
  lemma SaveSerialsStep(st: Store, productId: nat, items: seq<Json>)
    requires |items| > 0 && IsAccepted(items[0])
    ensures SaveSerials(st, productId, items)
         == SaveSerials(AddSerialNumber(st, productId, Serials.Normalise(items[0].s)), productId, items[1..])
  {
  }

  /** The first serial row comes from the first entry. */
  lemma SerialRowsStep(productId: nat, items: seq<Json>)
    requires |items| > 0
    ensures SerialRows(productId, items)
         == [SerialRow(productId, Serials.Normalise(TextOf(items[0])))] + SerialRows(productId, items[1..])
  {
  }

  /** When entry `i` is the first one refused, exactly the entries before it
      are stored and the response is the refusal of entry `i`. */
  lemma {:induction false} SaveSerialsStopsAt(st: Store, productId: nat, items: seq<Json>, i: nat)
    requires i < |items| && !IsAccepted(items[i])
    requires forall k :: 0 <= k < i ==> IsAccepted(items[k])
    ensures SaveSerials(st, productId, items)
         == Stopped(st.(serials := st.serials + SerialRows(productId, items[..i])), Rejection(items[i]))
    decreases i
  {
    if i == 0 {
      assert st.(serials := st.serials + SerialRows(productId, items[..0])) == st;
    } else {
      var next := AddSerialNumber(st, productId, Serials.Normalise(items[0].s));
      assert items[1..][i - 1] == items[i];
      SaveSerialsStopsAt(next, productId, items[1..], i - 1);
      SerialRowsOfPrefix(st.serials, productId, items, i);
    }
  }

  lemma SerialRowsOfPrefix(before: seq<SerialRow>, productId: nat, items: seq<Json>, i: nat)
    requires 0 < i <= |items|
    ensures before + SerialRows(productId, items[..i])
         == (before + [SerialRow(productId, Serials.Normalise(TextOf(items[0])))]) + SerialRows(productId, items[1..][..i - 1])
  {
    var prefix := items[..i];
    assert prefix[0] == items[0];
    assert items[1..][..i - 1] == prefix[1..];
  }

  /** What `JSON.parse(req.body.serials || "[]")` yields. */
  function ParsedSerials(f: SerialsField): Option<Json>
  {
    if IsTruthy(f) then f.parsed else Some(JArray([]))
  }

  /** POST /api/products. The new product's id is the one `createProduct` returns. */
  function Create(st: Store, req: ProductRequest): (o: Outcome)
    ensures st.products <= o.store.products && st.images <= o.store.images && st.serials <= o.store.serials
    ensures |o.store.products| <= |st.products| + 1
  {
    if req.files.Some? && |req.files.value| > MaxImages then Outcome(st, UploadRejected)
    else match ParsedSerials(req.serials)
      case None => Outcome(st, InvalidSerialsFormat)
      case Some(v) =>
        var created := CreateProduct(st, req.fields);
        match req.files
        case None => Outcome(created.store, ServerError)
        case Some(files) =>
          var withImages := SaveImages(created.store, created.id, files);
          match ForOf(v)
          case None => Outcome(withImages, ServerError)
          case Some(items) =>
            match SaveSerials(withImages, created.id, items)
            case Saved(s) => Outcome(s, Response(201, IdBody(created.id)))
            case Stopped(s, response) => Outcome(s, response)
  }

  /** An unparseable `serials` field is answered with 400 before anything is
      written. */
  lemma CreateRejectsUnparseableSerials(st: Store, req: ProductRequest)
    requires !(req.files.Some? && |req.files.value| > MaxImages)
    requires IsTruthy(req.serials) && req.serials.parsed.None?
    ensures Create(st, req) == Outcome(st, InvalidSerialsFormat)
  {
  }

  /** A successful create adds one product with the next id, one image row per
      file and one serial row per serial, all in order, and answers 201. */
  lemma CreateSucceeds(st: Store, req: ProductRequest, items: seq<Json>)
    requires FilesAccepted(req)
    requires ParsedSerials(req.serials).Some? && ForOf(ParsedSerials(req.serials).value) == Some(items)
    requires forall k :: 0 <= k < |items| ==> IsAccepted(items[k])
    ensures Create(st, req).response == Response(201, IdBody(st.nextId))
    ensures Create(st, req).store == Store(
      st.products + [ProductRow(st.nextId, req.fields)],
      st.images + ImageRows(st.nextId, req.files.value),
      st.serials + SerialRows(st.nextId, items),
      st.nextId + 1)
  {
    var created := CreateProduct(st, req.fields);
    SaveSerialsAllAccepted(SaveImages(created.store, created.id, req.files.value), created.id, items);
  }

  /** A create whose first refused serial is entry `i` leaves the product and
      all its images in place, plus exactly the first `i` serials. */
  lemma CreateStopsAtRefusedSerial(st: Store, req: ProductRequest, items: seq<Json>, i: nat)
    requires FilesAccepted(req)
    requires ParsedSerials(req.serials).Some? && ForOf(ParsedSerials(req.serials).value) == Some(items)
    requires i < |items| && !IsAccepted(items[i])
    requires forall k :: 0 <= k < i ==> IsAccepted(items[k])
    ensures Create(st, req).response == Rejection(items[i])
    ensures Create(st, req).store == Store(
      st.products + [ProductRow(st.nextId, req.fields)],
      st.images + ImageRows(st.nextId, req.files.value),
      st.serials + SerialRows(st.nextId, items[..i]),
      st.nextId + 1)
  {
    var created := CreateProduct(st, req.fields);
    SaveSerialsStopsAt(SaveImages(created.store, created.id, req.files.value), created.id, items, i);
  }

  /** A `serials` value that parses but is not iterable (a number, null, an
      object) fails with 500 after the product and its images are written. */
  lemma CreateWithNonIterableSerials(st: Store, req: ProductRequest)
    requires FilesAccepted(req)
    requires ParsedSerials(req.serials).Some? && ForOf(ParsedSerials(req.serials).value).None?
    ensures Create(st, req) == Outcome(Store(
      st.products + [ProductRow(st.nextId, req.fields)],
      st.images + ImageRows(st.nextId, req.files.value),
      st.serials,
      st.nextId + 1), ServerError)
  {
  }

  /** PUT /api/products/:id. */
  function Update(st: Store, id: nat, req: ProductRequest): (o: Outcome)
    ensures |o.store.products| == |st.products|
    ensures forall k :: 0 <= k < |st.products| ==> o.store.products[k].id == st.products[k].id
    ensures forall k :: 0 <= k < |st.products| && st.products[k].id != id ==> o.store.products[k] == st.products[k]
    ensures st.images <= o.store.images && st.serials <= o.store.serials
    ensures o.store.nextId == st.nextId
  {
    if req.files.Some? && |req.files.value| > MaxImages then Outcome(st, UploadRejected)
    else match req.files
      case None => Outcome(UpdateProduct(st, id, req.fields), ServerError)
      case Some(files) =>
        var withImages := SaveImages(UpdateProduct(st, id, req.fields), id, files);
        if !IsTruthy(req.serials) then Outcome(withImages, Response(200, IdBody(id)))
        else match req.serials.parsed
          case None => Outcome(withImages, ServerError)
          case Some(v) =>
            match ForOf(v)
            case None => Outcome(withImages, ServerError)
            case Some(items) =>
              match SaveSerials(withImages, id, items)
              case Saved(s) => Outcome(s, Response(200, IdBody(id)))
              case Stopped(s, response) => Outcome(s, response)
  }

  /** The scalar update, shared by every path through PUT that runs the handler. */
  lemma UpdateOverwritesFields(st: Store, id: nat, req: ProductRequest)
    requires FilesAccepted(req)
    ensures forall k :: 0 <= k < |st.products| && st.products[k].id == id ==>
      Update(st, id, req).store.products[k].fields == req.fields
    ensures Update(st, id, req).store.images == st.images + ImageRows(id, req.files.value)
  {
  }

  /** Without a (non-empty) `serials` field no serial row is added. */
  lemma UpdateWithoutSerials(st: Store, id: nat, req: ProductRequest)
    requires FilesAccepted(req) && !IsTruthy(req.serials)
    ensures Update(st, id, req).store.serials == st.serials
    ensures Update(st, id, req).response == Response(200, IdBody(id))
  {
  }

  /** Malformed `serials` JSON ends in 500, after the scalar update and the
      image rows have been written. */
  lemma UpdateWithMalformedSerials(st: Store, id: nat, req: ProductRequest)
    requires FilesAccepted(req) && IsTruthy(req.serials) && req.serials.parsed.None?
    ensures Update(st, id, req) == Outcome(SaveImages(UpdateProduct(st, id, req.fields), id, req.files.value), ServerError)
    ensures Update(st, id, req).store.serials == st.serials
  {
  }

  /** An update whose serials are all accepted appends all of them and answers 200. */
  lemma UpdateAppendsSerials(st: Store, id: nat, req: ProductRequest, items: seq<Json>)
    requires FilesAccepted(req) && IsTruthy(req.serials)
    requires req.serials.parsed.Some? && ForOf(req.serials.parsed.value) == Some(items)
    requires forall k :: 0 <= k < |items| ==> IsAccepted(items[k])
    ensures Update(st, id, req).store.serials == st.serials + SerialRows(id, items)
    ensures Update(st, id, req).response == Response(200, IdBody(id))
  {
    SaveSerialsAllAccepted(SaveImages(UpdateProduct(st, id, req.fields), id, req.files.value), id, items);
  }

  /** An update whose first refused serial is entry `i` keeps the first `i`. */
  lemma UpdateStopsAtRefusedSerial(st: Store, id: nat, req: ProductRequest, items: seq<Json>, i: nat)
    requires FilesAccepted(req) && IsTruthy(req.serials)
    requires req.serials.parsed.Some? && ForOf(req.serials.parsed.value) == Some(items)
    requires i < |items| && !IsAccepted(items[i])
    requires forall k :: 0 <= k < i ==> IsAccepted(items[k])
    ensures Update(st, id, req).store.serials == st.serials + SerialRows(id, items[..i])
    ensures Update(st, id, req).response == Rejection(items[i])
  {
    SaveSerialsStopsAt(SaveImages(UpdateProduct(st, id, req.fields), id, req.files.value), id, items, i);
  }

  /** More than ten files are refused by the upload layer and nothing is written. */
  lemma TooManyFilesWriteNothing(st: Store, id: nat, req: ProductRequest)
    requires req.files.Some? && |req.files.value| > MaxImages
    ensures Create(st, req) == Outcome(st, UploadRejected)
    ensures Update(st, id, req) == Outcome(st, UploadRejected)
  {
  }

  /** A POST that is not multipart writes the product, then fails with 500
      when the image loop meets the unset `req.files`. */
  lemma CreateWithoutFiles(st: Store, req: ProductRequest)
    requires req.files.None? && ParsedSerials(req.serials).Some?
    ensures Create(st, req) == Outcome(Store(
      st.products + [ProductRow(st.nextId, req.fields)], st.images, st.serials, st.nextId + 1), ServerError)
  {
  }

  /** A PUT that is not multipart applies the scalar update, then fails with
      500 at the image loop: no image or serial row is added. */
  lemma UpdateWithoutFiles(st: Store, id: nat, req: ProductRequest)
    requires req.files.None?
    ensures Update(st, id, req).response == ServerError
    ensures forall k :: 0 <= k < |st.products| && st.products[k].id == id ==>
      Update(st, id, req).store.products[k].fields == req.fields
    ensures Update(st, id, req).store.images == st.images && Update(st, id, req).store.serials == st.serials
  {
  }

  /** Every image row the handlers write lies directly under the upload
      directory, named by the upload time and the sanitised original name. */
  lemma ImageRowsUnderUploadDir(productId: nat, files: seq<Upload>)
    ensures forall k :: 0 <= k < |files| ==>
      ImageRows(productId, files)[k].path
        == "/uploads/products/" + Uploads.StoredFilename(files[k].savedAt, files[k].originalName)
  {
    forall k | 0 <= k < |files|
      ensures ImageRows(productId, files)[k].path
        == "/uploads/products/" + Uploads.StoredFilename(files[k].savedAt, files[k].originalName)
    {
      Uploads.ImagePathOfStoredFile(files[k].savedAt, files[k].originalName);
    }
  }
}

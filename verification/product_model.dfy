/** The persistence calls the product routes make, over an abstract store
    value: the products, product_images and product_serials tables as
    sequences of rows in insertion order, plus the next id the database will
    hand out. Each call is one row insert or one update. */
module ProductModel {

  /** The scalar fields of a product as they arrive in the form body. */
  datatype ProductFields = ProductFields(
    name: string,
    description: string,
    price: string,
    quantity: string,
    categoryId: string,
    subcategoryId: string)

  datatype ProductRow = ProductRow(id: nat, fields: ProductFields)

  datatype ImageRow = ImageRow(productId: nat, path: string)

  datatype SerialRow = SerialRow(productId: nat, serial: string)

  datatype Store = Store(
    products: seq<ProductRow>,
    images: seq<ImageRow>,
    serials: seq<SerialRow>,
    nextId: nat)

  /** Every product id is below the next id to be handed out. */
  predicate IdsBelowNext(st: Store)
  {
    forall k :: 0 <= k < |st.products| ==> st.products[k].id < st.nextId
  }

  datatype Inserted = Inserted(store: Store, id: nat)

  /** `createProduct(fields)`: inserts one product row and returns its new id. */
  function CreateProduct(st: Store, fields: ProductFields): (r: Inserted)
    ensures r.store.products == st.products + [ProductRow(r.id, fields)]
    ensures r.store.images == st.images && r.store.serials == st.serials
    ensures IdsBelowNext(st) ==> IdsBelowNext(r.store)
    ensures IdsBelowNext(st) ==> forall k :: 0 <= k < |st.products| ==> st.products[k].id != r.id
  {
    Inserted(Store(st.products + [ProductRow(st.nextId, fields)], st.images, st.serials, st.nextId + 1), st.nextId)
  }

  /** `addProductImage(productId, path)`: inserts one image row. */
  function AddProductImage(st: Store, productId: nat, path: string): Store
  {
    st.(images := st.images + [ImageRow(productId, path)])
  }

  /** `addSerialNumber(productId, serial)`: inserts one serial row. */
  function AddSerialNumber(st: Store, productId: nat, serial: string): Store
  {
    st.(serials := st.serials + [SerialRow(productId, serial)])
  }

  /** `updateProduct(id, fields)`: overwrites the scalar fields of the row with
      that id (no row changes when there is none). */
  function UpdateProduct(st: Store, id: nat, fields: ProductFields): (r: Store)
    ensures |r.products| == |st.products|
    ensures forall k :: 0 <= k < |st.products| ==> r.products[k].id == st.products[k].id
    ensures forall k :: 0 <= k < |st.products| && st.products[k].id != id ==> r.products[k] == st.products[k]
    ensures forall k :: 0 <= k < |st.products| && st.products[k].id == id ==> r.products[k].fields == fields
    ensures r.images == st.images && r.serials == st.serials && r.nextId == st.nextId
  {
    var products := seq(|st.products|, k requires 0 <= k < |st.products| =>
      if st.products[k].id == id then ProductRow(id, fields) else st.products[k]);
    st.(products := products)
  }
}

/** The admin product table: `products.flatMap(...)` turns every product
    into one row per serial (or a single row with no serial) keyed by
    `${p.id}-${i}`, and the category, subcategory and serial cells. */
module ProductTable {
  import opened Base
  import opened Text
  import Seqs
  import Catalog

  /** A product as the admin list returns it. `serials` is `None` when the
      field is not an array. */
  datatype AdminProduct = AdminProduct(
    id: nat,
    name: string,
    description: string,
    price: string,
    quantity: nat,
    categoryId: Option<nat>,
    subcategoryId: Option<nat>,
    serials: Option<seq<string>>)

  /** `{ ...p, displaySerial: s, rowKey }`. */
  datatype Row = Row(product: AdminProduct, displaySerial: Option<string>, rowKey: string)

  /** `${p.id}-${i}`. */
  function RowKey(id: nat, i: nat): string
  {
    Decimal(id) + "-" + Decimal(i)
  }

  /** Reads a row key back into the product id and the serial index. */
  function ParseRowKey(key: string): Option<(nat, nat)>
  {
    match Seqs.FindFirst(key, (c: char) => c == '-')
    case None => None
    case Some(d) =>
      var left := key[..d];
      var right := key[d + 1..];
      if |left| > 0 && |right| > 0 && AllDigits(left) && AllDigits(right)
      then Some((ParseDecimal(left), ParseDecimal(right)))
      else None
  }

  /** A row key determines the product id and the index it was built from. */
  lemma ParseRowKeyOfRowKey(id: nat, i: nat)
    ensures ParseRowKey(RowKey(id, i)) == Some((id, i))
  {
    var key := RowKey(id, i);
    var a := Decimal(id);
    assert key[|a|] == '-';
    var d := Seqs.FindFirst(key, (c: char) => c == '-');
    assert d == Some(|a|);
    assert key[..|a|] == a;
    assert key[|a| + 1..] == Decimal(i);
    ParseDecimalOfDecimal(id);
    ParseDecimalOfDecimal(i);
  }

  /** Two row keys are equal only when built from the same id and index. */
  lemma RowKeyInjective(id1: nat, i1: nat, id2: nat, i2: nat)
    ensures RowKey(id1, i1) == RowKey(id2, i2) ==> id1 == id2 && i1 == i2
  {
    ParseRowKeyOfRowKey(id1, i1);
    ParseRowKeyOfRowKey(id2, i2);
  }

  /** The serials a product is listed with: `p.serials` when it is a
      non-empty array, otherwise `[null]`. */
  function DisplaySerials(p: AdminProduct): (r: seq<Option<string>>)
    ensures p.serials.Some? && |p.serials.value| > 0 ==>
      |r| == |p.serials.value| && forall i :: 0 <= i < |r| ==> r[i] == Some(p.serials.value[i])
    ensures !(p.serials.Some? && |p.serials.value| > 0) ==> r == [None]
  {
    if p.serials.Some? && |p.serials.value| > 0
    then seq(|p.serials.value|, i requires 0 <= i < |p.serials.value| => Some(p.serials.value[i]))
    else [None]
  }

  /** The number of rows a product takes: max(1, number of serials). */
  function RowsOf(p: AdminProduct): nat
  {
    if p.serials.Some? && |p.serials.value| > 1 then |p.serials.value| else 1
  }

  /** `seqs.map((s, i) => ({ ...p, displaySerial: s, rowKey: `${p.id}-${i}` }))`. */
  function ProductRows(p: AdminProduct): (r: seq<Row>)
    ensures |r| == RowsOf(p)
    ensures forall i :: 0 <= i < |r| ==> r[i].product == p && r[i].rowKey == RowKey(p.id, i)
    ensures forall i :: 0 <= i < |r| ==> r[i].displaySerial == DisplaySerials(p)[i]
  {
    var ds := DisplaySerials(p);
    seq(|ds|, i requires 0 <= i < |ds| => Row(p, ds[i], RowKey(p.id, i)))
  }

  /** Σ max(1, |serials|) over the products. */
  function RowCount(ps: seq<AdminProduct>): nat
    decreases |ps|
  {
    if |ps| == 0 then 0 else RowsOf(ps[0]) + RowCount(ps[1..])
  }

  /** `products.flatMap(...)`. */
  function Rows(ps: seq<AdminProduct>): (r: seq<Row>)
    ensures |r| == RowCount(ps)
    ensures forall k :: 0 <= k < |r| ==> r[k].product in ps
    decreases |ps|
  {
    if |ps| == 0 then [] else ProductRows(ps[0]) + Rows(ps[1..])
  }

  /** The table lists the products in order: the rows of a concatenation are
      the rows of the first part followed by those of the second. */
  lemma {:induction false} RowsAppend(a: seq<AdminProduct>, b: seq<AdminProduct>)
    ensures Rows(a + b) == Rows(a) + Rows(b)
    decreases |a|
  {
    if |a| == 0 {
      assert a + b == b;
    } else {
      assert (a + b)[1..] == a[1..] + b;
      RowsAppend(a[1..], b);
    }
  }

  /** A product without serials is listed once, with no serial. */
  lemma ProductWithoutSerials(p: AdminProduct)
    requires p.serials.None? || p.serials.value == []
    ensures ProductRows(p) == [Row(p, None, RowKey(p.id, 0))]
  {
  }

  /** Every row's key names the product the row belongs to. */
  lemma {:induction false} RowKeysNameTheirProduct(ps: seq<AdminProduct>)
    ensures forall k :: 0 <= k < |Rows(ps)| ==>
      ParseRowKey(Rows(ps)[k].rowKey).Some? && ParseRowKey(Rows(ps)[k].rowKey).value.0 == Rows(ps)[k].product.id
    decreases |ps|
  {
    if |ps| > 0 {
      RowKeysNameTheirProduct(ps[1..]);
      var head := ProductRows(ps[0]);
      forall k | 0 <= k < |head|
        ensures ParseRowKey(head[k].rowKey) == Some((ps[0].id, k))
      {
        ParseRowKeyOfRowKey(ps[0].id, k);
      }
    }
  }

  ghost predicate DistinctIds(ps: seq<AdminProduct>)
  {
    forall a, b :: 0 <= a < b < |ps| ==> ps[a].id != ps[b].id
  }

  ghost predicate DistinctKeys(rows: seq<Row>)
  {
    forall a, b :: 0 <= a < b < |rows| ==> rows[a].rowKey != rows[b].rowKey
  }

  /** Row keys are pairwise distinct when product ids are. */
  lemma {:induction false} RowKeysDistinct(ps: seq<AdminProduct>)
    requires DistinctIds(ps)
    ensures DistinctKeys(Rows(ps))
    decreases |ps|
  {
    if |ps| > 0 {
      var head := ProductRows(ps[0]);
      var tail := Rows(ps[1..]);
      assert DistinctIds(ps[1..]) by {
        forall a, b | 0 <= a < b < |ps[1..]| ensures ps[1..][a].id != ps[1..][b].id {
          assert ps[1..][a] == ps[a + 1] && ps[1..][b] == ps[b + 1];
        }
      }
      RowKeysDistinct(ps[1..]);
      RowKeysNameTheirProduct(ps[1..]);
      var rows := head + tail;
      forall a, b | 0 <= a < b < |rows| ensures rows[a].rowKey != rows[b].rowKey {
        if b < |head| {
          RowKeyInjective(ps[0].id, a, ps[0].id, b);
        } else if a >= |head| {
          assert rows[a] == tail[a - |head|] && rows[b] == tail[b - |head|];
        } else {
          ParseRowKeyOfRowKey(ps[0].id, a);
          var t := tail[b - |head|];
          assert rows[b] == t;
          var j :| 0 <= j < |ps[1..]| && ps[1..][j] == t.product;
          assert ps[j + 1].id != ps[0].id;
        }
      }
    }
  }

  /** The category cell: the category's name, or "N/A". */
  function CategoryCell(categories: seq<Catalog.Category>, row: Row): string
  {
    Catalog.CategoryLabel(categories, row.product.categoryId, "N/A")
  }

  /** The subcategory cell: the subcategory's name, or "-". */
  function SubcategoryCell(subcategories: seq<Catalog.Subcategory>, row: Row): string
  {
    Catalog.SubcategoryLabel(subcategories, row.product.subcategoryId, "-")
  }

  /** The serial cell: `r.displaySerial || "N/A"`. */
  function SerialCell(row: Row): (r: string)
    ensures r == "N/A" <==> row.displaySerial.None? || row.displaySerial.value in {"", "N/A"}
    ensures row.displaySerial.Some? && row.displaySerial.value != "" ==> r == row.displaySerial.value
  {
    if row.displaySerial.Some? && row.displaySerial.value != "" then row.displaySerial.value else "N/A"
  }
}

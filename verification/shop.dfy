/** The public shop page: the name search over the product list and the
    image each product card shows. */
module Shop {
  import opened Base
  import opened Text
  import Seqs

  datatype ShopProduct = ShopProduct(id: nat, name: string, price: string, images: Option<seq<string>>)

  /** `p.name.toLowerCase().includes(key)`, `key` being the lower-cased term. */
  predicate MatchesKey(p: ShopProduct, key: string)
  {
    Contains(Lower(p.name), key)
  }

  function FilteredFor(products: seq<ShopProduct>, key: string): seq<ShopProduct>
  {
    Seqs.Filter(products, (p: ShopProduct) => MatchesKey(p, key))
  }

  /** `products.filter(p => p.name.toLowerCase().includes(searchTerm.toLowerCase()))`. */
  function Filtered(products: seq<ShopProduct>, term: string): seq<ShopProduct>
  {
    FilteredFor(products, Lower(term))
  }

  /** The search keeps, in their order, exactly the products whose
      lower-cased name contains the lower-cased term, wherever it occurs. */
  lemma FilteredIsMatchingSubsequence(products: seq<ShopProduct>, term: string)
    ensures Seqs.IsSubsequence(Filtered(products, term), products)
    ensures forall p :: p in Filtered(products, term) <==>
      p in products && exists i: nat :: OccursAt(Lower(p.name), Lower(term), i)
  {
    Seqs.FilterIsSubsequence(products, (p: ShopProduct) => MatchesKey(p, Lower(term)));
    forall p: ShopProduct
      ensures MatchesKey(p, Lower(term)) <==> exists i: nat :: OccursAt(Lower(p.name), Lower(term), i)
    {
      ContainsIffOccurs(Lower(p.name), Lower(term));
    }
  }

  /** An empty search shows every product. */
  lemma EmptySearchShowsAll(products: seq<ShopProduct>)
    ensures Filtered(products, "") == products
  {
    assert Lower("") == "";
    forall k | 0 <= k < |products| ensures MatchesKey(products[k], "") {
      ContainsEmpty(Lower(products[k].name));
    }
    Seqs.FilterKeepsAll(products, (p: ShopProduct) => MatchesKey(p, ""));
  }

  /** Typing the term in another case changes nothing. */
  lemma SearchIgnoresTermCase(products: seq<ShopProduct>, term: string)
    ensures Filtered(products, Upper(term)) == Filtered(products, term)
    ensures Filtered(products, Lower(term)) == Filtered(products, term)
  {
    LowerOfUpper(term);
    LowerIdempotent(term);
  }

  /** Searching a concatenated list searches each part. */
  lemma FilteredAppend(a: seq<ShopProduct>, b: seq<ShopProduct>, term: string)
    ensures Filtered(a + b, term) == Filtered(a, term) + Filtered(b, term)
  {
    Seqs.FilterAppend(a, b, (p: ShopProduct) => MatchesKey(p, Lower(term)));
  }

  const Placeholder := "https://placehold.co/600x400/E0E0E0/888888?text=No+Image"

  const BrokenImage := "https://placehold.co/600x400/E0E0E0/888888?text=Image+Not+Found"

  /** The card image: the first image, or the placeholder when there is none. */
  function CardImage(p: ShopProduct): (r: string)
    ensures p.images.Some? && |p.images.value| > 0 ==> r == p.images.value[0]
    ensures p.images.None? || p.images.value == [] ==> r == Placeholder
  {
    if p.images.Some? && |p.images.value| > 0 then p.images.value[0] else Placeholder
  }

  /** The card shows one of the product's own images or the placeholder,
      and an image that loads is the first one. */
  lemma CardImageIsOwnOrPlaceholder(p: ShopProduct)
    ensures CardImage(p) != Placeholder ==> p.images.Some? && CardImage(p) in p.images.value
    ensures p.images.Some? && |p.images.value| > 0 ==> ShownImage(p, false) == p.images.value[0]
    ensures p.images.None? ==> ShownImage(p, false) == Placeholder
  {
  }

  /** What the card finally shows: the `onError` handler swaps in a second
      placeholder once, when the chosen image fails to load. */
  function ShownImage(p: ShopProduct, loadFailed: bool): (r: string)
    ensures loadFailed ==> r == BrokenImage
    ensures !loadFailed ==> r == CardImage(p)
  {
    if loadFailed then BrokenImage else CardImage(p)
  }
}

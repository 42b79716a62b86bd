/** Product records, the failure-to-empty fetch rule, the item renderer
    (`createItem`) with its reader, and category collection
    (`collectCategories`). */
module Catalog {
  import opened Wrappers
  import opened Text
  import opened Decimal
  import opened OrderedSet

  /** One record of the product catalogue. The numeric fields are JavaScript
      numbers; only their integer values are modelled. */
  datatype Product = Product(
    name: string,
    price: int,
    discount: int,
    description: string,
    rating: int,
    brand: string,
    category: string)

  /** What the catalogue request produced: the decoded product array, or a
      failure of the request or of the decoding. */
  datatype FetchOutcome = Fetched(products: seq<Product>) | Failed

  /** `fetchProducts`: a failed request reads as "no products". */
  function FetchProducts(outcome: FetchOutcome): (products: seq<Product>)
    ensures outcome.Failed? ==> products == []
    ensures outcome.Fetched? ==> products == outcome.products
  {
    match outcome
    case Fetched(ps) => ps
    case Failed => []
  }

  /** A collection item element, as seen through its seven marked descendants
      (`data-element="name"`, ... `"category"`). Each slot holds the text of the
      first such descendant, or `None` when the element has none. `rest` stands
      for everything else in the element, which population never touches. */
  datatype ItemElement = ItemElement(
    name: Option<string>,
    price: Option<string>,
    discount: Option<string>,
    description: Option<string>,
    rating: Option<string>,
    brand: Option<string>,
    category: Option<string>,
    rest: string)

  /** Both elements have the same marked descendants. */
  predicate SameSlots(a: ItemElement, b: ItemElement) {
    && a.name.Some? == b.name.Some?
    && a.price.Some? == b.price.Some?
    && a.discount.Some? == b.discount.Some?
    && a.description.Some? == b.description.Some?
    && a.rating.Some? == b.rating.Some?
    && a.brand.Some? == b.brand.Some?
    && a.category.Some? == b.category.Some?
  }

  /** The element has all seven marked descendants. */
  predicate Complete(e: ItemElement) {
    && e.name.Some? && e.price.Some? && e.discount.Some? && e.description.Some?
    && e.rating.Some? && e.brand.Some? && e.category.Some?
  }

  const PricePrefix := "$"
  const DiscountSuffix := "% off"
  const RatingPrefix := "Rating: "
  const BrandPrefix := "Brand: "
  const CategoryPrefix := "Category: "

  /** Assigning `textContent` to a descendant that may not exist. */
  function SetText(slot: Option<string>, text: string): (r: Option<string>)
    ensures r.Some? == slot.Some?
  {
    if slot.Some? then Some(text) else None
  }

  /** `createItem`: a clone of the template with every present slot
      overwritten by the product's formatted field; absent slots stay absent. */
  function CreateItem(product: Product, template: ItemElement): (item: ItemElement)
    ensures SameSlots(item, template)
    ensures item.rest == template.rest
    ensures template.name.Some? ==> item.name == Some(product.name)
    ensures template.price.Some? ==> item.price == Some(PricePrefix + IntToString(product.price))
    ensures template.discount.Some? ==> item.discount == Some(IntToString(product.discount) + DiscountSuffix)
    ensures template.description.Some? ==> item.description == Some(product.description)
    ensures template.rating.Some? ==> item.rating == Some(RatingPrefix + IntToString(product.rating))
    ensures template.brand.Some? ==> item.brand == Some(BrandPrefix + product.brand)
    ensures template.category.Some? ==> item.category == Some(CategoryPrefix + product.category)
  {
    ItemElement(
      SetText(template.name, product.name),
      SetText(template.price, PricePrefix + IntToString(product.price)),
      SetText(template.discount, IntToString(product.discount) + DiscountSuffix),
      SetText(template.description, product.description),
      SetText(template.rating, RatingPrefix + IntToString(product.rating)),
      SetText(template.brand, BrandPrefix + product.brand),
      SetText(template.category, CategoryPrefix + product.category),
      template.rest)
  }

  /** Reads a product back from a rendered item: the partner of `CreateItem`.
      `None` when a slot is missing or a text lacks its decoration. */
  function ReadItem(item: ItemElement): (r: Option<Product>)
    ensures r.Some? ==> Complete(item)
  {
    if !Complete(item) then None
    else
      var priceText :- StripPrefix(PricePrefix, item.price.value);
      var price :- ParseInt(priceText);
      var discountText :- StripSuffix(DiscountSuffix, item.discount.value);
      var discount :- ParseInt(discountText);
      var ratingText :- StripPrefix(RatingPrefix, item.rating.value);
      var rating :- ParseInt(ratingText);
      var brand :- StripPrefix(BrandPrefix, item.brand.value);
      var category :- StripPrefix(CategoryPrefix, item.category.value);
      Some(Product(item.name.value, price, discount, item.description.value, rating, brand, category))
  }

  /** Rendering loses nothing: an item rendered from a template with all seven
      slots reads back as its product, and one rendered from a template that
      lacks a slot reads back as nothing. */
  lemma ReadItemCreateItem(product: Product, template: ItemElement)
    ensures ReadItem(CreateItem(product, template)) == (if Complete(template) then Some(product) else None)
  {
    if Complete(template) {
      var item := CreateItem(product, template);
      StripPrefixOfConcat(PricePrefix, IntToString(product.price));
      ParseIntToString(product.price);
      StripSuffixOfConcat(DiscountSuffix, IntToString(product.discount));
      ParseIntToString(product.discount);
      StripPrefixOfConcat(RatingPrefix, IntToString(product.rating));
      ParseIntToString(product.rating);
      StripPrefixOfConcat(BrandPrefix, product.brand);
      StripPrefixOfConcat(CategoryPrefix, product.category);
    }
  }

  /** Two products rendered into the same complete template give different
      items unless the products are equal. */
  lemma CreateItemInjective(p: Product, q: Product, template: ItemElement)
    requires Complete(template)
    requires CreateItem(p, template) == CreateItem(q, template)
    ensures p == q
  {
    ReadItemCreateItem(p, template);
    ReadItemCreateItem(q, template);
  }

  /** The item depends only on which slots the template has and on its
      untouched remainder, never on the texts the template's slots held. */
  lemma CreateItemDependsOnSlotsOnly(p: Product, t1: ItemElement, t2: ItemElement)
    requires SameSlots(t1, t2) && t1.rest == t2.rest
    ensures CreateItem(p, t1) == CreateItem(p, t2)
  {
  }

  /** In particular, rendering over an already rendered item is the same as
      rendering over the template. */
  lemma CreateItemOverwrites(p: Product, q: Product, template: ItemElement)
    ensures CreateItem(p, CreateItem(q, template)) == CreateItem(p, template)
  {
    CreateItemDependsOnSlotsOnly(p, CreateItem(q, template), template);
  }

  /** The category of each product, in product order. */
  function CategoryColumn(products: seq<Product>): (column: seq<string>)
    ensures |column| == |products|
    ensures forall i :: 0 <= i < |products| ==> column[i] == products[i].category
  {
    seq(|products|, i requires 0 <= i < |products| => products[i].category)
  }

  /** `collectCategories`: every product category once. */
  function CollectCategories(products: seq<Product>): (categories: seq<string>)
    ensures NoDuplicates(categories)
    ensures forall c :: c in categories <==> exists p :: p in products && p.category == c
  {
    var column := CategoryColumn(products);
    assert forall c :: c in column <==> exists p :: p in products && p.category == c by {
      forall c
        ensures c in column <==> exists p :: p in products && p.category == c
      {
        if c in column {
          var i :| 0 <= i < |column| && column[i] == c;
          assert products[i] in products;
        }
        if exists p :: p in products && p.category == c {
          var p :| p in products && p.category == c;
          var i :| 0 <= i < |products| && products[i] == p;
          assert column[i] == c;
        }
      }
    }
    Distinct(column)
  }

  /** `collectCategories` lists the categories in the order in which they first
      occur among the products (the insertion order of JavaScript's `Set`),
      and no other duplicate-free list of the same categories has that order. */
  lemma CollectCategoriesOrder(products: seq<Product>, s: seq<string>)
    ensures InFirstOccurrenceOrder(CategoryColumn(products), CollectCategories(products))
    ensures s == CollectCategories(products) <==>
              (forall c :: c in s <==> c in CategoryColumn(products))
              && InFirstOccurrenceOrder(CategoryColumn(products), s)
  {
    DistinctInFirstOccurrenceOrder(CategoryColumn(products));
    DistinctCharacterization(CategoryColumn(products), s);
  }
}

/** The `'cmsfilter'` initialisation callback, over an abstract page: the
    list's items, the filter area of the form, and how often the filter
    library was asked to re-read its filters (`storeFiltersData`). */
module Populate {
  import opened Wrappers
  import opened Catalog
  import opened Filters

  /** A child of the filter template's parent: the template element itself,
      or another filter element. */
  datatype Child = TemplateChild | FilterChild(filter: FilterElement)

  /** What the form's `[data-element="filter"]` lookup finds: nothing, an
      element without a parent, or an element inside a wrapper whose children
      are `children` (the element itself appearing as `TemplateChild`). */
  datatype FilterArea =
    | NoTemplate
    | Parentless(template: FilterElement)
    | Wrapped(template: FilterElement, children: seq<Child>)

  /** `items` are the list instance's item elements; `syncs` counts the calls
      to `storeFiltersData`. */
  datatype Page = Page(items: seq<ItemElement>, filters: FilterArea, syncs: nat)

  /** `filterTemplateElement.remove()`, seen from the parent's children. */
  function RemoveTemplate(children: seq<Child>): (r: seq<Child>)
    ensures TemplateChild !in r
    ensures forall c :: c in r <==> c in children && c != TemplateChild
    ensures |r| <= |children|
    decreases |children|
  {
    if children == [] then []
    else (if children[0] == TemplateChild then [] else [children[0]]) + RemoveTemplate(children[1..])
  }

  /** Removing the template from children that do not hold it changes
      nothing. */
  lemma {:induction false} RemoveTemplateAbsent(children: seq<Child>)
    requires TemplateChild !in children
    ensures RemoveTemplate(children) == children
    decreases |children|
  {
    if children != [] {
      RemoveTemplateAbsent(children[1..]);
      assert children == [children[0]] + children[1..];
    }
  }

  /** The template is cut out of its place and every other child keeps its
      order. */
  lemma {:induction false} RemoveTemplateAt(before: seq<Child>, after: seq<Child>)
    requires TemplateChild !in before && TemplateChild !in after
    ensures RemoveTemplate(before + [TemplateChild] + after) == before + after
    decreases |before|
  {
    var all := before + [TemplateChild] + after;
    if before == [] {
      assert all[1..] == after;
      RemoveTemplateAbsent(after);
    } else {
      assert all[1..] == before[1..] + [TemplateChild] + after;
      RemoveTemplateAt(before[1..], after);
      assert before + after == [before[0]] + (before[1..] + after);
    }
  }

  /** `filtersWrapper.append(newFilter)` for each rendered filter, in order. */
  function AsChildren(filters: seq<FilterElement>): (children: seq<Child>)
    ensures |children| == |filters|
    ensures forall i :: 0 <= i < |filters| ==> children[i] == FilterChild(filters[i])
  {
    seq(|filters|, i requires 0 <= i < |filters| => FilterChild(filters[i]))
  }

  /** The callback. The list must have a first item: the source reads
      `firstItem.element` without a check and throws on an empty list. */
  function OnFiltersReady(page: Page, outcome: FetchOutcome): (r: Page)
    requires |page.items| > 0
    ensures |r.items| == |FetchProducts(outcome)|
    ensures forall i :: 0 <= i < |r.items| ==>
              r.items[i] == CreateItem(FetchProducts(outcome)[i], page.items[0])
    ensures !page.filters.Wrapped? ==> r.filters == page.filters && r.syncs == page.syncs
    ensures page.filters.Wrapped? ==>
              && r.syncs == page.syncs + 1
              && r.filters.Wrapped?
              && r.filters.template == page.filters.template
              && TemplateChild !in r.filters.children
              && r.filters.children ==
                   RemoveTemplate(page.filters.children)
                   + AsChildren(CreateFilters(CollectCategories(FetchProducts(outcome)), page.filters.template))
  {
    var itemTemplate := page.items[0];
    var products := FetchProducts(outcome);
    var listed := page.(items := seq(|products|, i requires 0 <= i < |products| => CreateItem(products[i], itemTemplate)));
    match page.filters
    case NoTemplate => listed
    case Parentless(_) => listed
    case Wrapped(template, children) =>
      var categories := CollectCategories(products);
      var appended := AsChildren(CreateFilters(categories, template));
      listed.(filters := Wrapped(template, RemoveTemplate(children) + appended), syncs := page.syncs + 1)
  }

  /** A failed fetch empties the list; a successful one lists one item per
      product, in product order, and each item reads back as its product when
      the item template has all seven slots. */
  lemma OnFiltersReadyItems(page: Page, outcome: FetchOutcome)
    requires |page.items| > 0
    ensures outcome.Failed? ==> OnFiltersReady(page, outcome).items == []
    ensures Complete(page.items[0]) && outcome.Fetched? ==>
              forall i :: 0 <= i < |outcome.products| ==>
                ReadItem(OnFiltersReady(page, outcome).items[i]) == Some(outcome.products[i])
  {
    if Complete(page.items[0]) && outcome.Fetched? {
      forall i | 0 <= i < |outcome.products|
        ensures ReadItem(OnFiltersReady(page, outcome).items[i]) == Some(outcome.products[i])
      {
        ReadItemCreateItem(outcome.products[i], page.items[0]);
      }
    }
  }

  /** Children kept from before, followed by the filters rendered from a
      fillable template: the filters read back as their categories. */
  lemma AppendedFiltersReadBack(kept: seq<Child>, categories: seq<string>, template: FilterElement)
    requires Fillable(template)
    ensures var children := kept + AsChildren(CreateFilters(categories, template));
            && |children| == |kept| + |categories|
            && children[..|kept|] == kept
            && forall i :: 0 <= i < |categories| ==>
                 && children[|kept| + i].FilterChild?
                 && ReadFilter(children[|kept| + i].filter) == Some(categories[i])
  {
    var filters := CreateFilters(categories, template);
    var appended := AsChildren(filters);
    var children := kept + appended;
    assert children[..|kept|] == kept;
    ReadFilters(categories, template);
    forall i | 0 <= i < |categories|
      ensures children[|kept| + i].FilterChild?
      ensures ReadFilter(children[|kept| + i].filter) == Some(categories[i])
    {
      assert children[|kept| + i] == appended[i] == FilterChild(filters[i]);
    }
  }

  /** With a template inside a wrapper and a fillable template, the wrapper
      keeps its other children and then holds one filter per distinct product
      category, in first-seen order, each reading back as its category. */
  lemma OnFiltersReadyFilters(page: Page, outcome: FetchOutcome)
    requires |page.items| > 0
    requires page.filters.Wrapped? && Fillable(page.filters.template)
    ensures var children := OnFiltersReady(page, outcome).filters.children;
            var kept := RemoveTemplate(page.filters.children);
            var categories := CollectCategories(FetchProducts(outcome));
            && |children| == |kept| + |categories|
            && children[..|kept|] == kept
            && forall i :: 0 <= i < |categories| ==>
                 && children[|kept| + i].FilterChild?
                 && ReadFilter(children[|kept| + i].filter) == Some(categories[i])
  {
    var categories := CollectCategories(FetchProducts(outcome));
    AppendedFiltersReadBack(RemoveTemplate(page.filters.children), categories, page.filters.template);
  }

  /** With a template that lacks its label or radio button, the template is
      still removed and the library still synced, but no filter is appended. */
  lemma OnFiltersReadyUnfillable(page: Page, outcome: FetchOutcome)
    requires |page.items| > 0
    requires page.filters.Wrapped? && !Fillable(page.filters.template)
    ensures OnFiltersReady(page, outcome).filters.children == RemoveTemplate(page.filters.children)
    ensures OnFiltersReady(page, outcome).syncs == page.syncs + 1
  {
    assert AsChildren([]) == [];
  }

  /** Three products in two categories give three items and two filters,
      "Footwear" then "Apparel". */
  lemma OnFiltersReadyExample(itemTemplate: ItemElement, filterTemplate: FilterElement)
    requires Fillable(filterTemplate)
    ensures var products := [
              Product("Shoe", 10, 5, "", 4, "", "Footwear"),
              Product("Boot", 20, 0, "", 5, "", "Footwear"),
              Product("Shirt", 15, 10, "", 3, "", "Apparel")];
            var page := Page([itemTemplate], Wrapped(filterTemplate, [TemplateChild]), 0);
            var r := OnFiltersReady(page, Fetched(products));
            && |r.items| == 3
            && |r.filters.children| == 2
            && r.filters.children[0].FilterChild?
            && ReadFilter(r.filters.children[0].filter) == Some("Footwear")
            && r.filters.children[1].FilterChild?
            && ReadFilter(r.filters.children[1].filter) == Some("Apparel")
            && r.syncs == 1
  {
    var products := [
      Product("Shoe", 10, 5, "", 4, "", "Footwear"),
      Product("Boot", 20, 0, "", 5, "", "Footwear"),
      Product("Shirt", 15, 10, "", 3, "", "Apparel")];
    var column := CategoryColumn(products);
    assert column == ["Footwear", "Footwear", "Apparel"];
    assert column[..2] == ["Footwear", "Footwear"];
    assert column[..2][..1] == ["Footwear"];
    assert CollectCategories(products) == ["Footwear", "Apparel"];
    assert RemoveTemplate([TemplateChild]) == [];
  }
}

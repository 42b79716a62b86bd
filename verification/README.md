# Catalog populator: a Dafny model

`index.ts` is a browser script for a Webflow page filtered by Finsweet's CMS
Filter library. When the library fires its `'cmsfilter'` hook, the script
does four things. It fetches a product catalogue. It replaces the
placeholder collection items with one item per product, each cloned from the
first placeholder. It removes the filter template from the form. It appends
one radio filter per distinct product category and asks the library to
re-read its filters.

This project models the data-to-view part of that script as pure functions
over immutable values. The browser's DOM is abstracted to records of the
slots the script reads and writes.

- `Catalog`: product records and the fetch rule that turns a failure into no
  products (`FetchProducts`). It also holds the item renderer `CreateItem`,
  which fills seven optional text slots, and its reader `ReadItem`. Finally
  it holds `CollectCategories`.
- `Filters`: the filter renderer `CreateFilter`, which fails without a
  `<span>` or an `<input>`, and its reader `ReadFilter`. It also holds the
  append loop `CreateFilters`.
- `Populate`: the callback `OnFiltersReady`. It maps a page and a fetch
  outcome to a new page. A page holds the list items, the filter area and a
  count of `storeFiltersData` calls. The filter area is either no template,
  a template without a parent, or a template inside a wrapper.
- `OrderedSet`: `[...new Set(xs)]` as sequence deduplication in insertion
  order. Its lemmas show that the result is the one duplicate-free list of
  the input's values in first-occurrence order.
- `Decimal`: how `${n}` prints an integer, with a reader that inverts it.
- `Text`, `Wrappers`: prefix/suffix stripping and `Option`.

A cloned DOM node is a value here. So "the template is never changed by
`createItem` or `createFilter`" holds by construction: every item in the
callback's result is built from the same `page.items[0]`, which was captured
before the list was cleared.

The code collects categories through a JavaScript `Set`, which iterates in
insertion order, and the model proves first-occurrence order
(`CollectCategoriesOrder`).

## Model

| member | source | states |
|---|---|---|
| `Catalog.CreateItem` | index.ts:80-103 | The item keeps exactly the template's slots and the rest of the template. Name and description get the field verbatim. Price gets "$" before the number, discount gets "% off" after it. Rating, brand and category get "Rating: ", "Brand: " and "Category: " before the value. A slot the template lacks stays absent, with no error. |
| `Catalog.ReadItemCreateItem` | index.ts:94-100 | Rendering loses nothing. An item rendered into a template with all seven slots reads back as exactly its product. One rendered into a template missing a slot reads back as nothing. |
| `Catalog.CreateItemInjective` | index.ts:94-100 | Two different products never render to the same item through a complete template. |
| `Catalog.FetchProducts` | index.ts:62-71 | A failed request or decode gives no products; a successful one gives the decoded sequence. |
| `Catalog.CreateItemDependsOnSlotsOnly` | index.ts:82-102 | Two templates with the same slots and the same remainder give the same item for every product: the texts the template's slots held never show through. |
| `Catalog.CreateItemOverwrites` | index.ts:82-102 | Rendering over an already rendered item equals rendering over the template. |
| `Catalog.CollectCategories` | index.ts:111-119 | The result has no duplicates. A string is in it exactly when some product has it as its category. |
| `Catalog.CollectCategoriesOrder` | index.ts:112-118 | Categories appear in the order of their first occurrence among the products, as a JavaScript `Set` iterates. Every list of the same categories in that order is the result itself. |
| `OrderedSet.SetAdd` | index.ts:115 | `categories.add(category)` keeps the set duplicate-free, adds exactly the new value, and keeps everything already inserted in its place. |
| `OrderedSet.Distinct` | index.ts:112-118 | `[...new Set(xs)]` holds no duplicates and exactly the values of `xs`. |
| `OrderedSet.DistinctInFirstOccurrenceOrder` | index.ts:114-118 | Repeated `Set.add` keeps each value at the place it first occurs. |
| `OrderedSet.DistinctCharacterization` | index.ts:114-118 | A sequence equals the deduplication of `xs` if and only if it holds exactly the values of `xs` in first-occurrence order. |
| `OrderedSet.DistinctOfDistinctFree` | index.ts:112-118 | A duplicate-free sequence passes through a `Set` unchanged, so collecting twice is the same as collecting once. |
| `Decimal.IntToString` | index.ts:95-98 | An integer prints with a leading "-" exactly when it is negative, followed by at least one digit, with no leading zero unless the integer is 0. |
| `Decimal.ParseIntToString` | index.ts:95-98 | The printed integer in a price, discount or rating text reads back as the same integer. |
| `Decimal.IntToStringInjective` | index.ts:95-98 | Different integers print differently. |
| `Filters.CreateFilter` | index.ts:128-143 | There is no result exactly when the template lacks the `<span>` or the `<input>`. Otherwise the label text and the radio value are both the category, and the rest of the clone is the template's. |
| `Filters.ReadFilterCreateFilter` | index.ts:139-140 | A rendered filter reads back as the category it was rendered for. |
| `Filters.CreateFilters` | index.ts:46-51 | There is one filter per category, in category order, when the template is fillable. There are none when it is not, because every category is skipped. |
| `Filters.ReadFilters` | index.ts:46-51 | With a fillable template, the i-th rendered filter reads back as the i-th category. |
| `Populate.RemoveTemplate` | index.ts:40 | After removal the template is not among the wrapper's children. Every other child stays. |
| `Populate.RemoveTemplateAt` | index.ts:40 | Removal cuts the template out of its place and keeps the other children in order. |
| `Populate.AsChildren` | index.ts:50 | Appending the rendered filters gives one wrapper child per filter, in the same order. |
| `Populate.OnFiltersReady` | index.ts:8-55 | The list holds exactly one item per fetched product, in product order, each rendered from the first original item. With no filter template, or a template without a parent, the filter area and the sync count are unchanged. Otherwise the template is removed and the wrapper gains the rendered filters of the collected categories. `storeFiltersData` is then called once. |
| `Populate.OnFiltersReadyItems` | index.ts:20-29 | A failed fetch leaves the list empty. With a complete item template each listed item reads back as its product. |
| `Populate.AppendedFiltersReadBack` | index.ts:46-51 | Appending filters keeps the earlier children. The appended filters read back, in order, as their categories. |
| `Populate.OnFiltersReadyFilters` | index.ts:39-51 | With a fillable template in a wrapper, the wrapper keeps its other children. It then holds one filter per distinct category, in first-seen order, each reading back as its category. |
| `Populate.OnFiltersReadyUnfillable` | index.ts:39-54 | With a template lacking its label or radio, the template is still removed and the library still synced, but no filter is appended. |
| `Populate.OnFiltersReadyExample` | index.ts:20-54 | Three products in the categories Footwear, Footwear, Apparel give three items and exactly two filters, "Footwear" then "Apparel". |

## Left out

- The request and JSON decoding in `fetchProducts` (index.ts:64-65) are network I/O. They appear only as a `FetchOutcome`: a product sequence or a failure. The decoded body is taken to be the product array its type annotation names.
- DOM primitives (`cloneNode`, `querySelector`, `textContent`, `value`, `append`, `remove`, `parentElement`) are abstracted to optional slots and child sequences. Only the first match of each selector is modelled.
- Nested slots are not modelled: the seven item slots are taken to be disjoint, and so are a filter's `<span>` and `<input>`. In the DOM, setting `textContent` replaces an element's descendants. If the `<input>` sat inside the `<span>`, `label.textContent = category` (index.ts:139) would remove it from the clone, and the page would show no radio button although `CreateFilter` gives `radioValue == Some(category)`. A slot nested inside another item slot would be wiped the same way by index.ts:94-100.
- The CMS Filter library's `clearItems`, `addItems` and `storeFiltersData` are third-party code. Only their effect is modelled: the item list is replaced, and a call counter is incremented.
- The `window.fsAttributes` registration (index.ts:5-7) is global plug-in plumbing. Only the first filters instance is used, so the callback takes one page.
- `async`/`await` scheduling is left out, because the flow is one sequential run.
- Catalog.CreateItem: price, discount and rating are modelled as integers. JavaScript's formatting of fractional or special numbers (`4.69`, `NaN`, `1e21`) is not modelled.
- An empty initial list makes `firstItem.element` throw (index.ts:16-17). This is a precondition of `OnFiltersReady`, not modelled behaviour.

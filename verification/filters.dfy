/** The category filter renderer (`createFilter`) and the loop that renders
    one filter per category, dropping the ones that cannot be rendered. */
module Filters {
  import opened Wrappers

  /** A filter element (a `<label>` holding a radio button), as seen through
      `labelText`, the text of its first `<span>`, and `radioValue`, the value
      of its first `<input>`; each is `None` when the element has no such
      descendant. `rest` stands for everything else in the element. */
  datatype FilterElement = FilterElement(labelText: Option<string>, radioValue: Option<string>, rest: string)

  /** The template has both descendants `createFilter` needs. */
  predicate Fillable(template: FilterElement) {
    template.labelText.Some? && template.radioValue.Some?
  }

  /** `createFilter`: a clone of the template whose label text and control
      value are both the category, or nothing when the template lacks the
      label or the control. */
  function CreateFilter(category: string, template: FilterElement): (r: Option<FilterElement>)
    ensures r.Some? <==> Fillable(template)
    ensures r.Some? ==> r.value.labelText == Some(category) && r.value.radioValue == Some(category)
    ensures r.Some? ==> r.value.rest == template.rest
  {
    if template.labelText.None? || template.radioValue.None? then None
    else Some(template.(labelText := Some(category), radioValue := Some(category)))
  }

  /** The category a filter selects, provided its label shows that category:
      the partner of `CreateFilter`. */
  function ReadFilter(f: FilterElement): (r: Option<string>)
    ensures r.Some? ==> f.labelText == f.radioValue == Some(r.value)
  {
    if f.labelText.Some? && f.radioValue == f.labelText then f.radioValue else None
  }

  /** A rendered filter reads back as its category. */
  lemma ReadFilterCreateFilter(category: string, template: FilterElement)
    requires Fillable(template)
    ensures ReadFilter(CreateFilter(category, template).value) == Some(category)
  {
  }

  /** The `for ... of categories` loop: one filter per category, in category
      order, skipping those `createFilter` gives up on. */
  function CreateFilters(categories: seq<string>, template: FilterElement): (filters: seq<FilterElement>)
    ensures Fillable(template) ==> |filters| == |categories|
    ensures !Fillable(template) ==> filters == []
    ensures |filters| == |categories| ==>
              forall i :: 0 <= i < |filters| ==> CreateFilter(categories[i], template) == Some(filters[i])
    decreases |categories|
  {
    if categories == [] then []
    else
      var first := match CreateFilter(categories[0], template)
        case Some(f) => [f]
        case None => [];
      first + CreateFilters(categories[1..], template)
  }

  /** With a fillable template the rendered filters read back, in order, as the
      categories they were rendered for. */
  lemma ReadFilters(categories: seq<string>, template: FilterElement)
    requires Fillable(template)
    ensures forall i :: 0 <= i < |categories| ==>
              ReadFilter(CreateFilters(categories, template)[i]) == Some(categories[i])
  {
  }
}

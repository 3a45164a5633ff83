/** The `App` component of app/src/App.jsx: its state cells, the fetch
    outcome, the category and search filters, the `filterBtns` table and
    the choice of what to render. */
module Foody {
  import opened JsString
  import opened JsArray

  datatype Option<T> = None | Some(value: T)

  /** A menu entry as the endpoint returns it. The JSON field `type` is
      called `kind` here because `type` is a Dafny keyword. */
  datatype FoodItem = FoodItem(name: string, kind: string)

  /** One entry of the `filterBtns` table: a label and the tag it filters by. */
  datatype FilterBtn = FilterBtn(name: string, kind: string)

  const FilterBtns: seq<FilterBtn> := [
    FilterBtn("all", "all"),
    FilterBtn("breakfast", "breakfast"),
    FilterBtn("lunch", "lunch"),
    FilterBtn("dinner", "dinner")
  ]

  /** The tag that shows the whole collection. */
  const AllTag: string := "all"

  /** The message shown when the fetch fails. */
  const FetchErrorMessage: string := "Unable to fetch data"

  /** The table holds four buttons, each labelled with its own tag, the
      first being "all", and no two sharing a tag. */
  lemma FilterBtnsTable()
    ensures |FilterBtns| == 4 && FilterBtns[0].kind == AllTag
    ensures forall i :: 0 <= i < |FilterBtns| ==> FilterBtns[i].name == FilterBtns[i].kind
    ensures forall i, j :: 0 <= i < j < |FilterBtns| ==> FilterBtns[i].kind != FilterBtns[j].kind
  {
  }

  /** `tag` is the tag of one of the buttons of `filterBtns`. */
  predicate IsButtonTag(tag: string) {
    exists i :: 0 <= i < |FilterBtns| && FilterBtns[i].kind == tag
  }

  /** The callback of the category filter:
      `food.type.toLowerCase().includes(type.toLowerCase())`. */
  function ByType(tag: string): (p: FoodItem -> bool)
    ensures forall food :: p(food) <==> Contains(ToLowerCase(food.kind), ToLowerCase(tag))
  {
    (food: FoodItem) => Includes(ToLowerCase(food.kind), ToLowerCase(tag))
  }

  /** The callback of the search filter:
      `food.name.toLowerCase().includes(searchValue.toLowerCase())`. */
  function ByName(query: string): (p: FoodItem -> bool)
    ensures forall food :: p(food) <==> Contains(ToLowerCase(food.name), ToLowerCase(query))
  {
    (food: FoodItem) => Includes(ToLowerCase(food.name), ToLowerCase(query))
  }

  /** `data?.filter(p)`: no data gives no result. */
  function FilterLoaded(data: Option<seq<FoodItem>>, p: FoodItem -> bool): (r: Option<seq<FoodItem>>)
    ensures r.Some? <==> data.Some?
    ensures r.Some? ==> IsSubsequence(r.value, data.value)
  {
    match data
    case None => None
    case Some(items) =>
      FilterIsSubsequence(items, p);
      Some(Filter(items, p))
  }

  /** The value `filterFood(tag)` stores in `filteredData`. */
  function CategoryView(data: Option<seq<FoodItem>>, tag: string): (r: Option<seq<FoodItem>>)
    ensures tag == AllTag ==> r == data
    ensures r.Some? <==> data.Some?
    ensures r.Some? ==> IsSubsequence(r.value, data.value)
  {
    if tag == AllTag then
      if data.Some? then SubsequenceReflexive(data.value); data
      else data
    else FilterLoaded(data, ByType(tag))
  }

  /** The value `searchFood` finally stores in `filteredData`. */
  function SearchView(data: Option<seq<FoodItem>>, query: string): (r: Option<seq<FoodItem>>)
    ensures r.Some? <==> data.Some?
    ensures r.Some? ==> IsSubsequence(r.value, data.value)
  {
    FilterLoaded(data, ByName(query))
  }

  /** A button as rendered: its title and its `isSelected` flag. */
  datatype RenderedBtn = RenderedBtn(title: string, isSelected: bool)

  /** `filterBtns.map(value => <Button isSelected={selectedBtn == value.type}>)`. */
  function Buttons(selectedBtn: string): (r: seq<RenderedBtn>)
    ensures |r| == |FilterBtns|
    ensures forall i :: 0 <= i < |r| ==>
      r[i].title == FilterBtns[i].name && (r[i].isSelected <==> selectedBtn == FilterBtns[i].kind)
  {
    seq(|FilterBtns|, i requires 0 <= i < |FilterBtns| =>
      RenderedBtn(FilterBtns[i].name, selectedBtn == FilterBtns[i].kind))
  }

  /** Exactly one button is marked selected. */
  predicate ExactlyOneSelected(buttons: seq<RenderedBtn>) {
    exists i :: 0 <= i < |buttons| && buttons[i].isSelected &&
      forall j :: 0 <= j < |buttons| && buttons[j].isSelected ==> j == i
  }

  /** Whenever the selected tag is one of the table's, the rendered buttons
      have exactly one selected: the button carrying that tag. */
  lemma ButtonTagSelectsExactlyOne(tag: string)
    ensures IsButtonTag(tag) ==> ExactlyOneSelected(Buttons(tag))
  {
    if !IsButtonTag(tag) { return; }
    var i :| 0 <= i < |FilterBtns| && FilterBtns[i].kind == tag;
    FilterBtnsTable();
    assert Buttons(tag)[i].isSelected;
  }

  /** What the component renders. */
  datatype View =
    | ErrorView(message: string)
    | LoadingView
    | MenuView(results: Option<seq<FoodItem>>, buttons: seq<RenderedBtn>)

  /** JavaScript truthiness of the `error` cell: null and "" are falsy. */
  predicate Truthy(error: Option<string>) {
    error.Some? && error.value != ""
  }

  /** `if (error) return …; if (loading) return …; return <menu>`. */
  function Screen(error: Option<string>, loading: bool, filteredData: Option<seq<FoodItem>>,
                  selectedBtn: string): (v: View)
    ensures v.ErrorView? <==> Truthy(error)
    ensures v.ErrorView? ==> v.message == error.value
    ensures v.LoadingView? <==> !Truthy(error) && loading
    ensures v.MenuView? ==> v.results == filteredData && v.buttons == Buttons(selectedBtn)
  {
    if Truthy(error) then ErrorView(error.value)
    else if loading then LoadingView
    else MenuView(filteredData, Buttons(selectedBtn))
  }

  /** The component's state cells and its event handlers. */
  class App {
    var data: Option<seq<FoodItem>>
    var filteredData: Option<seq<FoodItem>>
    var selectedBtn: string
    var loading: bool
    var error: Option<string>

    /** What is displayed is always drawn, in order, from the full collection. */
    ghost predicate Valid()
      reads this
    {
      filteredData.Some? ==> data.Some? && IsSubsequence(filteredData.value, data.value)
    }

    /** The selected tag is one of the buttons' tags, so exactly one button
        is marked selected. Every state the buttons and the fetch can reach
        has it. */
    ghost predicate OneSelected()
      reads this
    {
      IsButtonTag(selectedBtn)
    }

    /** The initial values given to `useState`. */
    constructor ()
      ensures Valid() && OneSelected()
      ensures data == None && filteredData == None && selectedBtn == AllTag
      ensures !loading && error == None
    {
      data := None;
      filteredData := None;
      selectedBtn := AllTag;
      loading := false;
      error := None;
      assert FilterBtns[0].kind == AllTag;
    }

    /** The component's output for the current state. */
    function Render(): (v: View)
      reads this
      ensures v == Screen(error, loading, filteredData, selectedBtn)
      ensures Valid() && v.MenuView? && v.results.Some? ==> IsSubsequence(v.results.value, data.value)
      ensures OneSelected() && v.MenuView? ==> ExactlyOneSelected(v.buttons)
    {
      ButtonTagSelectsExactlyOne(selectedBtn);
      Screen(error, loading, filteredData, selectedBtn)
    }

    /** The effect starts the fetch: `setLoading(true)`. */
    method StartFetch()
      requires Valid()
      modifies this
      ensures Valid() && OneSelected() == old(OneSelected())
      ensures loading
      ensures data == old(data) && filteredData == old(filteredData)
      ensures selectedBtn == old(selectedBtn) && error == old(error)
    {
      loading := true;
    }

    /** The fetch resolved with the parsed JSON array `json`. */
    method FetchSucceeded(json: seq<FoodItem>)
      requires Valid()
      modifies this
      ensures Valid() && OneSelected() == old(OneSelected())
      ensures data == Some(json) && filteredData == Some(json) && !loading
      ensures selectedBtn == old(selectedBtn) && error == old(error)
    {
      data := Some(json);
      filteredData := Some(json);
      loading := false;
      SubsequenceReflexive(json);
    }

    /** The fetch or the JSON parse threw: only `error` changes, so
        `loading` keeps whatever value it had. */
    method FetchFailed()
      requires Valid()
      modifies this
      ensures Valid() && OneSelected() == old(OneSelected())
      ensures error == Some(FetchErrorMessage)
      ensures Render() == ErrorView(FetchErrorMessage)
      ensures data == old(data) && filteredData == old(filteredData)
      ensures selectedBtn == old(selectedBtn) && loading == old(loading)
    {
      error := Some(FetchErrorMessage);
    }

    /** `filterFood(type)`. */
    method FilterFood(tag: string)
      requires Valid()
      modifies this
      ensures Valid() && (OneSelected() <==> IsButtonTag(tag))
      ensures filteredData == CategoryView(old(data), tag)
      ensures tag == AllTag ==> filteredData == data
      ensures selectedBtn == tag
      ensures data == old(data) && loading == old(loading) && error == old(error)
    {
      if tag == AllTag {
        filteredData := data;
        selectedBtn := AllTag;
        if data.Some? { SubsequenceReflexive(data.value); }
        return;
      }
      var filter := FilterLoaded(data, ByType(tag));
      filteredData := filter;
      selectedBtn := tag;
    }

    /** A click on button `i` of `filterBtns`: `filterFood(value.type)`. */
    method ClickFilterBtn(i: nat)
      requires Valid()
      requires i < |FilterBtns|
      modifies this
      ensures Valid() && OneSelected()
      ensures selectedBtn == FilterBtns[i].kind
      ensures filteredData == CategoryView(old(data), FilterBtns[i].kind)
      ensures forall j :: 0 <= j < |FilterBtns| ==> (Buttons(selectedBtn)[j].isSelected <==> j == i)
      ensures data == old(data) && loading == old(loading) && error == old(error)
    {
      FilterFood(FilterBtns[i].kind);
      FilterBtnsTable();
    }

    /** `searchFood(e)` with `e.target.value == query`. The write of null
        for an empty query is followed by the write of the filter, and the
        later write is the one that stays. */
    method SearchFood(query: string)
      requires Valid()
      modifies this
      ensures Valid() && OneSelected() == old(OneSelected())
      ensures filteredData == SearchView(old(data), query)
      ensures data == old(data) && selectedBtn == old(selectedBtn)
      ensures loading == old(loading) && error == old(error)
    {
      if query == "" {
        filteredData := None;
      }
      var filter := FilterLoaded(data, ByName(query));
      filteredData := filter;
    }
  }
}

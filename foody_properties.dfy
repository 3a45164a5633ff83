/** What the filters of the `App` component promise, stated on the
    functions that the handlers store into `filteredData`. */
module FoodyProperties {
  import opened JsString
  import opened JsArray
  import opened Foody

  /** For a tag other than "all", with data loaded, the category view is
      `r` exactly when `r` is the order-preserving subsequence of the data
      holding every copy of each item whose lower-cased type contains the
      lower-cased tag, and nothing else; every item it holds matches. */
  lemma CategoryFilterSpec(items: seq<FoodItem>, tag: string, r: seq<FoodItem>)
    requires tag != AllTag
    ensures CategoryView(Some(items), tag) == Some(r) <==> KeepsExactly(r, items, ByType(tag))
    ensures CategoryView(Some(items), tag) == Some(r) ==>
      |r| <= |items| && forall i :: 0 <= i < |r| ==> Contains(ToLowerCase(r[i].kind), ToLowerCase(tag))
  {
    FilterCharacterised(items, ByType(tag), r);
  }

  /** With data loaded, the search view is `r` exactly when `r` is the
      order-preserving subsequence of the data holding every copy of each
      item whose lower-cased name contains the lower-cased query, and
      nothing else; every item it holds matches. */
  lemma SearchFilterSpec(items: seq<FoodItem>, query: string, r: seq<FoodItem>)
    ensures SearchView(Some(items), query) == Some(r) <==> KeepsExactly(r, items, ByName(query))
    ensures SearchView(Some(items), query) == Some(r) ==>
      |r| <= |items| && forall i :: 0 <= i < |r| ==> Contains(ToLowerCase(r[i].name), ToLowerCase(query))
  {
    FilterCharacterised(items, ByName(query), r);
  }

  /** An empty search shows all of the data, element for element, and not
      null: the filter written last accepts every item. */
  lemma EmptySearchShowsAll(data: Option<seq<FoodItem>>)
    ensures SearchView(data, "") == data
  {
    if data.Some? {
      var items := data.value;
      forall i | 0 <= i < |items| ensures ByName("")(items[i]) {
        IncludesEmpty(ToLowerCase(items[i].name));
      }
      FilterAcceptAll(items, ByName(""));
    }
  }

  /** Before a successful fetch there is nothing to filter: every search
      and every category other than "all" leaves the view undefined, and
      "all" restores the (undefined) data. */
  lemma NoDataNoView(tag: string, query: string)
    ensures CategoryView(None, tag) == None
    ensures SearchView(None, query) == None
  {
  }

  /** The filters ignore the case of the tag and of the query. */
  lemma {:induction false} FiltersIgnoreCase(data: Option<seq<FoodItem>>, s: string)
    ensures SearchView(data, ToLowerCase(s)) == SearchView(data, s)
    ensures s != AllTag && ToLowerCase(s) != AllTag ==>
      CategoryView(data, ToLowerCase(s)) == CategoryView(data, s)
  {
    ToLowerCaseIdempotent(s);
    assert ByName(ToLowerCase(s)) == ByName(s);
    assert ByType(ToLowerCase(s)) == ByType(s);
  }

  /** A tag outside `filterBtns` marks no button selected. */
  lemma UnknownTagSelectsNone(tag: string)
    requires forall i :: 0 <= i < |FilterBtns| ==> FilterBtns[i].kind != tag
    ensures forall j :: 0 <= j < |Buttons(tag)| ==> !Buttons(tag)[j].isSelected
  {
  }

  /** After a failed fetch the error message is shown even while `loading`
      is still true: the error is checked first. */
  lemma FailureShownWhileLoading(filteredData: Option<seq<FoodItem>>, selectedBtn: string)
    ensures Screen(Some(FetchErrorMessage), true, filteredData, selectedBtn) == ErrorView(FetchErrorMessage)
    ensures !Screen(Some(FetchErrorMessage), true, filteredData, selectedBtn).MenuView?
  {
  }

  const Pancake: FoodItem := FoodItem("Pancake", "Breakfast")
  const Burger: FoodItem := FoodItem("Burger", "Lunch")

  lemma PancakeIsBreakfast()
    ensures ByType("breakfast")(Pancake)
  {
    assert ToLowerCase("Breakfast") == "breakfast" by {
      assert LowerChar('B') == 'b';
    }
    assert ToLowerCase("breakfast") == "breakfast";
    assert Includes("breakfast", "breakfast");
  }

  lemma BurgerIsNotBreakfast()
    ensures !ByType("breakfast")(Burger)
  {
    assert |ToLowerCase("Lunch")| < |ToLowerCase("breakfast")|;
  }

  /** The "breakfast" button on a two-item menu keeps only the pancake. */
  lemma BreakfastExample()
    ensures CategoryView(Some([Pancake, Burger]), "breakfast") == Some([Pancake])
  {
    PancakeIsBreakfast();
    BurgerIsNotBreakfast();
    var s, p := [Pancake, Burger], ByType("breakfast");
    assert s[0] == Pancake && s[1..] == [Burger];
    assert Filter([Burger], p) == [];
    assert Filter(s, p) == [Pancake];
    assert "breakfast" != AllTag;
  }

  lemma PancakeDoesNotMatchBur()
    ensures !ByName("bur")(Pancake)
  {
    assert ToLowerCase("Pancake") == "pancake" by {
      assert LowerChar('P') == 'p';
    }
    assert ToLowerCase("bur") == "bur";
    assert "pancake"[..3] != "bur";
    assert "ancake"[..3] != "bur";
    assert "ncake"[..3] != "bur";
    assert "cake"[..3] != "bur";
    assert "ake"[..3] != "bur";
    assert !Includes("pancake", "bur");
  }

  lemma BurgerMatchesBur()
    ensures ByName("bur")(Burger)
  {
    assert ToLowerCase("Burger") == "burger" by {
      assert LowerChar('B') == 'b';
    }
    assert ToLowerCase("bur") == "bur";
    assert Includes("burger", "bur");
  }

  /** Searching "bur" on the same menu keeps only the burger. */
  lemma SearchExample()
    ensures SearchView(Some([Pancake, Burger]), "bur") == Some([Burger])
  {
    PancakeDoesNotMatchBur();
    BurgerMatchesBur();
    var s, p := [Pancake, Burger], ByName("bur");
    assert s[0] == Pancake && s[1..] == [Burger];
    assert Filter([Burger], p) == [Burger];
    assert Filter(s, p) == [Burger];
  }
}

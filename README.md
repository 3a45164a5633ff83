# FoodyZone menu filter — a Dafny model

FoodyZone is a single-page food-menu browser. Its `App` component fetches a
list of food items once, shows them, and lets the user narrow the list with
one of four meal-type buttons (`all`, `breakfast`, `lunch`, `dinner`) or a
free-text search box. This project models the component's state cells
(`data`, `filteredData`, `selectedBtn`, `loading`, `error`), the two outcomes
of the fetch, the two filter handlers, the `filterBtns` table, and the choice
between the error view, the loading view and the menu. It proves what each
filter keeps and in what order, how an empty search and missing data behave,
that exactly one button is selected in every state the buttons and the fetch
can reach (`App.OneSelected`, kept or established by every handler), and that
the error view wins over the loading view.

Files:

- `js_string.dfy` (module `JsString`): `toLowerCase` on ASCII letters and
  `includes`, with `includes` proved equal to "the needle occurs at some
  offset".
- `js_array.dfy` (module `JsArray`): `Array.prototype.filter`, and its full
  characterisation: the result is the only subsequence of the input that
  holds every copy of each accepted value and no rejected one.
- `foody.dfy` (module `Foody`): the item record, `filterBtns`, the view
  choice, and class `App`, whose fields are the React state cells and whose
  methods are the event handlers. `App.Valid()` is the invariant every
  handler keeps: whatever is displayed is a subsequence of the full data.
- `foody_properties.dfy` (module `FoodyProperties`): lemmas about the values
  the handlers store, and the two end-to-end examples (Pancake/Burger).

Modelling choices:

- The JSON field `type` is called `kind`, because `type` is a Dafny keyword.
- JavaScript's `null` and `undefined` are both `Option.None`.
- A React handler's `set*` calls are assignments to the fields in program
  order, so a later write in the same handler is the one that stays.
- `if (error)` uses JavaScript truthiness: `Foody.Truthy` treats `null` and
  the empty string as false.
- On an empty search, the code first writes `null` to `filteredData`
  (app/src/App.jsx:70) but does not return, and line 77 then writes
  `data?.filter(...)`. Every name includes `""`, so the final value is all of
  `data`, not `null`. Read alone, line 70 suggests `null`; line 77
  overwrites it.
- The fetch is not modelled. Its results come in as events: `StartFetch`
  (line 16), `FetchSucceeded(json)` (lines 23-25) and `FetchFailed()`
  (line 27). A failure does not reset `loading`. The error view is still
  chosen, because `error` is tested first (line 80).

## Model

| member | source | states |
|---|---|---|
| `JsString.LowerChar` | app/src/App.jsx:41 | `A`-`Z` go to the matching letter of `a`-`z`; every other character is left alone; the result is never an upper-case ASCII letter |
| `JsString.ToLowerCase` | app/src/App.jsx:41 | lower-casing keeps the length and lowers each character, `A`-`Z` to `a`-`z`, leaving the others alone |
| `JsString.ToLowerCaseIdempotent` | app/src/App.jsx:41 | lower-casing an already lower-cased string changes nothing |
| `JsString.Includes` | app/src/App.jsx:41 | `hay.includes(needle)` is true exactly when `needle` occurs in `hay` at some offset |
| `JsString.IncludesEmpty` | app/src/App.jsx:74 | every string includes the empty string |
| `JsArray.Filter` | app/src/App.jsx:40-42 | `filter` never lengthens the array and keeps only accepted elements |
| `JsArray.FilterIsSubsequence` | app/src/App.jsx:40-42 | the filtered array keeps the input's order, as a subsequence of it |
| `JsArray.FilterMultiset` | app/src/App.jsx:40-42 | the filtered array has every copy of each accepted value and no copy of a rejected one |
| `JsArray.FilterMembership` | app/src/App.jsx:40-42 | a value is in the filtered array iff it is in the input and accepted |
| `JsArray.FilterAcceptAll` | app/src/App.jsx:73-75 | a callback that accepts every element gives back the input unchanged |
| `JsArray.FilterUnique` | app/src/App.jsx:40-42 | any subsequence of the input with exactly the accepted copies equals the filtered array |
| `JsArray.FilterCharacterised` | app/src/App.jsx:40-42 | `s.filter(p)` is `r` exactly when `r` is the order-preserving subsequence of `s` with every copy of each accepted value and no rejected one |
| `Foody.FilterBtnsTable` | app/src/App.jsx:47-64 | `filterBtns` has four buttons, each named by its own tag, the first `"all"`, no two sharing a tag |
| `Foody.ByType` | app/src/App.jsx:40-42 | the category callback accepts an item iff its lower-cased type contains the lower-cased tag |
| `Foody.ByName` | app/src/App.jsx:73-75 | the search callback accepts an item iff its lower-cased name contains the lower-cased query |
| `Foody.FilterLoaded` | app/src/App.jsx:40-42 | `data?.filter(p)` is undefined iff `data` is, and otherwise is a subsequence of `data` |
| `Foody.CategoryView` | app/src/App.jsx:34-43 | what `filterFood` stores: `data` itself for `"all"`; otherwise undefined iff `data` is, and else a subsequence of `data` |
| `Foody.SearchView` | app/src/App.jsx:69-77 | what `searchFood` finally stores: undefined iff `data` is, and else a subsequence of `data` |
| `Foody.Buttons` | app/src/App.jsx:97-101 | one rendered button per `filterBtns` entry, with its name, marked selected iff `selectedBtn == value.type` |
| `Foody.ButtonTagSelectsExactlyOne` | app/src/App.jsx:47-101 | when `selectedBtn` is the tag of a `filterBtns` entry, exactly one rendered button is selected |
| `Foody.Screen` | app/src/App.jsx:80-83 | the error view iff `error` is truthy (`Truthy`: `null` and `""` are falsy), showing `error`; otherwise the loading view iff `loading`; otherwise the menu with `filteredData` and the buttons |
| `Foody.App.Render` | app/src/App.jsx:80-105 | the view of the current state; a menu shows only items drawn in order from `data`, and, with a button tag selected, exactly one selected button |
| `Foody.App.constructor` | app/src/App.jsx:8-12 | the initial state: no data, no filtered data, `"all"` selected (so exactly one button), not loading, no error |
| `Foody.App.StartFetch` | app/src/App.jsx:16 | the effect sets `loading` and changes nothing else, so the one selected button stays |
| `Foody.App.FetchSucceeded` | app/src/App.jsx:23-25 | `data` and `filteredData` both become the fetched items and `loading` becomes false; nothing else changes |
| `Foody.App.FetchFailed` | app/src/App.jsx:26-27 | `error` becomes "Unable to fetch data", `loading` keeps its value, and the error view is what renders |
| `Foody.App.FilterFood` | app/src/App.jsx:33-45 | `"all"` restores `data`; any other tag stores `data?.filter` by type; `selectedBtn` becomes the tag; `data`, `loading` and `error` are unchanged; exactly one button is selected afterwards iff the tag is one of `filterBtns`; the invariant is kept |
| `Foody.App.ClickFilterBtn` | app/src/App.jsx:97-101 | clicking button `i` filters by its tag, sets `selectedBtn` to that tag, and leaves exactly button `i` selected |
| `Foody.App.SearchFood` | app/src/App.jsx:66-78 | the final `filteredData` is `data?.filter` by name, even for an empty query; `data`, `selectedBtn`, `loading` and `error` are unchanged, so the one selected button stays |
| `FoodyProperties.CategoryFilterSpec` | app/src/App.jsx:40-43 | for a tag other than `"all"` with data loaded, the view is `r` iff `r` is the order-preserving subsequence of `data` holding every copy of each item whose lower-cased type contains the lower-cased tag and no other |
| `FoodyProperties.SearchFilterSpec` | app/src/App.jsx:73-77 | with data loaded, the view is `r` iff `r` is the order-preserving subsequence of `data` holding every copy of each item whose lower-cased name contains the lower-cased query and no other |
| `FoodyProperties.EmptySearchShowsAll` | app/src/App.jsx:69-77 | an empty search leaves `filteredData` equal to `data`, element for element, not null |
| `FoodyProperties.NoDataNoView` | app/src/App.jsx:40-75 | with no data, every search and every category filter leaves `filteredData` undefined |
| `FoodyProperties.FiltersIgnoreCase` | app/src/App.jsx:41-74 | lower-casing the query (or a tag other than `"all"`) beforehand does not change the result |
| `FoodyProperties.UnknownTagSelectsNone` | app/src/App.jsx:99 | a tag that is not in `filterBtns` marks no button selected |
| `FoodyProperties.FailureShownWhileLoading` | app/src/App.jsx:80-81 | with the fetch error set and `loading` still true, the error message is shown and no menu |
| `FoodyProperties.BreakfastExample` | app/src/App.jsx:33-45 | on `[Pancake/Breakfast, Burger/Lunch]` the `"breakfast"` filter keeps only the pancake |
| `FoodyProperties.SearchExample` | app/src/App.jsx:66-78 | on the same menu, searching `"bur"` keeps only the burger |

## Left out

- The `fetch` call, `response.json()`, `async`/`await` and the scheduling of `useEffect` (app/src/App.jsx:14-31). These are network I/O and an asynchronous lifecycle. They are replaced by the events `StartFetch`, `FetchSucceeded` and `FetchFailed`, which callers may send in any order.
- Validation of the JSON shape. Items are records with string `name` and `type`. Their other display fields and the exception thrown on a missing field are not modelled.
- The JSX markup, the `SearchResult` component and the styled-components CSS (app/src/App.jsx:83-167). These are presentation only. The model stops at the `View` value: which view, the list handed to `SearchResult`, and the buttons with their `isSelected` flags.
- `toLowerCase` beyond ASCII. Locale and Unicode case mapping are not modelled.
- React's batching and re-rendering. Only the rule that a later `set*` call in one handler wins is kept.
- The difference between `null` and `undefined`. Both are `None`, and nothing else in the modelled code tells them apart.

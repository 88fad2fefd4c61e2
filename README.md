# Villager list view, modelled in Dafny

This project models `ListComponent`, the list screen of a small Angular demo that shows villagers from an Animal Crossing API. The screen loads the villagers once and sorts them by name. The user can then:

- pick a sort option: personality, species, hobby, birthday or name;
- tick personality, species and hobby checkboxes, which stage a filter selection;
- apply the staged selection as the active filter;
- press the reset button, which clears the selection, the active filter and the sort option.

The screen shows the derived list and its length.

The model has these modules:

- `Options`: the `Option` type.
- `JsStrings`: the JavaScript string operations the comparators use. These are `toUpperCase` (on ASCII letters), the relational `<` on strings, and `parseInt(s, 10)`, with `None` for `NaN`.
- `JsDates`: the day arithmetic behind `new Date(year, month, day)`. This is the MakeDay, DayFromYear and InLeapYear operations of the ECMAScript Language Specification (section 21.4.1), on exact integers. Out-of-range months and days roll over.
- `Villagers`: the villager record, and the values `Object.values` yields that can match a filter.
- `Birthdays`: the birthday key. The `"day/month"` text is split at `/` and parsed, and the numbers become a day number.
- `Sorting`: the comparators of `sortList` and a sorted copy of the list. `Precedes`, `Ordered`, `Insert` and `SortBy` are generic over the comparator.
- `Filtering`: `filterList`, and the removal of a value from the staged selection that `checkboxChecked` does.
- `ListView`: the derivation of the displayed list and its count. The class `ListEngine` keeps the state the component's streams carry:
  - the loaded list, which is `Pending`, `Ready` or `Failed`;
  - the staged selection (`checkSelection`);
  - the active filter (the latest value of the merged filter stream);
  - the sort option (the latest value of the merged sort stream).
- `Walkthrough`: a short session on two villagers, stated with the engine's contracts.

The loaded list is sorted by name once. After that, the display is recomputed from the latest loaded list, sort option and active filter:

1. It is re-sorted when a sort option is set.
2. It is filtered when the active filter is non-empty.

A checkbox change only updates the staged selection. The display changes when the selection is applied.

Where behaviour could be read two ways, the model follows the code:

- **Filter matching.** A villager matches when any string among its `Object.values` is a selected value. Personality, species and hobby can match, but so can the birthday text and the record's other string properties. The numeric `id` and the `name` object never equal a string, so they never match.
- **Comparator results.** The birthday comparator returns a difference of time values, not -1, 0 or 1.
- **Empty filter.** An empty active filter shows everything only because the derivation skips filtering. Filtering with an empty list would keep nothing (`Filtering.EmptyFilterMatchesNothing`).
- **Birthday order.** The birthday sort and the display use the key as written, `new Date(2020, month, day)`. That key reads the month one month late (see "## Findings"). The corrected comparator is modelled next to it but is not used by the display.
- **Invalid birthdays.** A birthday that does not parse gives `NaN`. `Array.prototype.sort` reads a `NaN` comparator result as 0, and the model does the same.

## Model

| member | source | states |
|---|---|---|
| JsStrings.Upper | src/app/list/list.component.ts:112-113 | `toUpperCase` keeps the length, leaves no lower-case ASCII letter, and changes each character only by shifting a lower-case letter to its capital |
| JsStrings.CompareStrings | src/app/list/list.component.ts:115-121 | the -1/1/0 of the two `if`s: negative exactly when `nameA < nameB`, positive exactly when `nameA > nameB`, and zero exactly when the texts are equal |
| JsStrings.ParseDecimal | src/app/list/list.component.ts:102 | `parseInt` of a decimal numeral, followed by anything that does not start with a digit, returns that number |
| JsDates.DayFromYearStep | src/app/list/list.component.ts:102 | the first days of consecutive years are one year's length apart, as `new Date` counts days |
| JsDates.MonthRollover | src/app/list/list.component.ts:102 | `new Date(y, m, d)` with `d` past the end of month `m` is the same day as `d` minus that month's length in month `m + 1`, across year ends too |
| Birthdays.IndexOfSlash | src/app/list/list.component.ts:101 | the position `split('/')` cuts at is the first '/' of the text, and there is none when the text has no '/' |
| Birthdays.SplitText | src/app/list/list.component.ts:101 | splitting a `"day/month"` text gives back the day digits as the first piece and the month digits as the second |
| Birthdays.DayMonthText | src/app/list/list.component.ts:101-102 | splitting and parsing the text of day `d` and month `m` recovers `(d, m)` |
| Birthdays.AsWrittenDayNumber | src/app/list/list.component.ts:101-102 | the as-written key of a text is defined exactly when both pieces parse |
| Birthdays.AsWrittenDayNumberOfText | src/app/list/list.component.ts:101-102 | a birthday text's as-written key is `new Date(2020, month, day)` of its own day and month |
| Birthdays.AsWrittenJanuary31 | src/app/list/list.component.ts:102 | as written, "31/1" lands 61 days into 2020, which is 2 March |
| Birthdays.AsWrittenFebruary1 | src/app/list/list.component.ts:105 | as written, "1/2" lands 60 days into 2020, which is 1 March |
| Birthdays.AsWrittenMisorders | src/app/list/list.component.ts:101-107 | 31 January and 1 February are real dates; the as-written keys put 31 January after 1 February, and the corrected keys put it before |
| Birthdays.DayNumber | src/app/list/list.component.ts:101-105 | the corrected key is defined exactly when both pieces parse |
| Birthdays.CalendarDay | src/app/list/list.component.ts:102 | the corrected key of a 2020 date is the first day of 2020 plus the date's position in the year |
| Birthdays.DayOfYearOrder | src/app/list/list.component.ts:102-107 | positions in the year follow month, then day, and only the same date has the same position |
| Birthdays.CalendarOrder | src/app/list/list.component.ts:99-108 | for real dates of 2020, the corrected key is smaller exactly when the month is earlier, or the month is the same and the day is earlier; keys are equal exactly for the same date |
| Birthdays.CalendarOrderOfTexts | src/app/list/list.component.ts:101-107 | the same order, read off two birthday texts through splitting and parsing |
| Sorting.CompareBirthdays | src/app/list/list.component.ts:100-108 | equal texts compare 0; when both dates are valid, the sign follows the difference of the as-written keys `new Date(2020, month, day)` in both directions; when either is invalid (`NaN`), the result is 0 |
| Sorting.Compare | src/app/list/list.component.ts:97-137 | each key's comparator. For name and the other text keys the result is in -1..1, zero exactly when the upper-cased texts are equal, and negative exactly when the first upper-cased text is less. Equal birthdays compare 0 |
| Sorting.CompareAntisymmetric | src/app/list/list.component.ts:100-136 | swapping the villagers negates the comparator's result, for every key |
| Sorting.CompareTransitive | src/app/list/list.component.ts:100-136 | "not after" is transitive, for the text keys always and for the birthday key when the three dates are valid |
| Sorting.ComparatorTotal | src/app/list/list.component.ts:97-137 | of any two villagers, one is not after the other, for every key |
| Sorting.ComparatorTransitive | src/app/list/list.component.ts:97-137 | the comparator is transitive on a list whose birthdays are all valid (needed only for the birthday key) |
| Sorting.Insert | src/app/list/list.component.ts:98-100 | inserting keeps every element and adds one copy of the new one; it keeps an ordered list ordered under a total comparator |
| Sorting.SortBy | src/app/list/list.component.ts:98-100 | the sorted copy is a permutation of the list, ordered under a total comparator |
| Sorting.InsertTies | src/app/list/list.component.ts:98-100 | insertion puts the new element in front of the elements it ties with, so the ties keep their order |
| Sorting.SortStable | src/app/list/list.component.ts:98-100 | the sort is stable: the elements that tie with any `e` come out in the order they went in, when the ties of `e` tie with one another |
| Sorting.TiesOrdered | src/app/list/list.component.ts:98-100 | the ties of `e` in a list ordered by another comparator stay in that order |
| Sorting.SortPair | src/app/list/list.component.ts:98-100 | two elements in strict comparator order are sorted into it from either starting order |
| Sorting.OrderedHeadPrecedesAll | src/app/list/list.component.ts:98-100 | in an ordered list under a transitive comparator, the head precedes every later element |
| Sorting.SortOrderedIsIdentity | src/app/list/list.component.ts:98-100 | sorting a list that is already in order returns it unchanged |
| Sorting.SortList | src/app/list/list.component.ts:97-139 | `sortList` returns a copy with the same villagers, as many times each, in the chosen key's order |
| Sorting.SortedByText | src/app/list/list.component.ts:110-137 | after a text-key sort, no upper-cased text is less than the one before it |
| Sorting.SortedByBirthday | src/app/list/list.component.ts:99-108 | after a birthday sort of valid dates, the as-written keys do not decrease |
| Sorting.SortKeepsConsistent | src/app/list/list.component.ts:97-139 | a sorted copy has valid birthdays whenever the list had |
| Sorting.BirthdayPrecedes | src/app/list/list.component.ts:100-108 | a villager the birthday comparator puts first has the smaller or equal as-written key |
| Sorting.SortIdempotent | src/app/list/list.component.ts:97-139 | sorting an already sorted copy by the same key changes nothing |
| Sorting.SortListStable | src/app/list/list.component.ts:97-139 | `sortList` is stable: the villagers the key ties with `e` keep their order (for birthdays, when the dates are valid) |
| Sorting.AsWrittenSortMisorders | src/app/list/list.component.ts:99-108 | as written, the birthday sort puts a villager born on 1 February before one born on 31 January, from either starting order |
| Sorting.CalendarCompareBirthdays | src/app/list/list.component.ts:100-108 | the corrected comparator: equal texts compare 0; for valid dates the sign follows the corrected keys in both directions; an invalid date gives 0 |
| Sorting.CalendarSortedByBirthday | src/app/list/list.component.ts:99-108 | sorting with the corrected comparator keeps the villagers and leaves adjacent valid corrected keys non-decreasing |
| Sorting.CalendarSortOrders | src/app/list/list.component.ts:99-108 | with the corrected comparator, 31 January sorts before 1 February, from either starting order |
| Filtering.SelectedAttributeMatches | src/app/list/list.component.ts:143-144 | a villager whose personality, species or hobby is selected matches |
| Filtering.FiltersCombineWithOr | src/app/list/list.component.ts:144 | a villager matches a union of selections exactly when it matches one of them |
| Filtering.FilterList | src/app/list/list.component.ts:141-147 | the result is no longer than the list, and everything in it is from the list and matches |
| Filtering.FilterCount | src/app/list/list.component.ts:141-147 | a matching villager keeps all its copies and a non-matching one keeps none |
| Filtering.FilterMembership | src/app/list/list.component.ts:141-147 | a villager is in the result exactly when it is in the list and matches |
| Filtering.FilterIsSubsequence | src/app/list/list.component.ts:141-147 | filtering keeps the remaining villagers in their order |
| Filtering.FilterKeepsOrder | src/app/list/list.component.ts:80-81 | filtering a list sorted by a key leaves it sorted by that key |
| Filtering.FilterAllMatching | src/app/list/list.component.ts:141-147 | if every villager matches, filtering returns the list itself |
| Filtering.EmptyFilterMatchesNothing | src/app/list/list.component.ts:81 | an empty selection keeps nothing, which is why the derivation skips filtering for it |
| Filtering.Without | src/app/list/list.component.ts:156 | unchecking removes every copy of the value and adds nothing |
| Filtering.WithoutCount | src/app/list/list.component.ts:156 | unchecking keeps every other value as many times as it was staged |
| Filtering.WithoutIsSubsequence | src/app/list/list.component.ts:156 | unchecking keeps the other staged values in their order |
| ListView.DisplayedList | src/app/list/list.component.ts:78-83 | the display is never longer than the loaded list, and with no active filter it holds exactly the loaded villagers |
| ListView.DisplayedMembership | src/app/list/list.component.ts:78-83 | a villager is displayed exactly when it is loaded and, if a filter is active, matches it |
| ListView.DisplayedKeepsArrangedOrder | src/app/list/list.component.ts:80-81 | filtering comes after sorting and does not reorder: the display is a subsequence of the sorted list |
| ListView.DisplayedOrdered | src/app/list/list.component.ts:80-81 | with a sort option set, the display is in that key's order (for birthday, when every date is valid) |
| ListView.DisplayedDefault | src/app/list/list.component.ts:71-81 | with no sort option and no filter, the display is the loaded list itself |
| ListView.DefaultOrderIsByName | src/app/list/list.component.ts:49-55 | with no sort option, the display keeps the name order the list was loaded in, filter or not |
| ListView.TiesInNameOrder | src/app/list/list.component.ts:49-55 | after re-sorting the name-sorted list by a key, the villagers that key ties keep their name order (for example, one hobby's villagers by name) |
| ListView.ListEngine.constructor | src/app/list/list.component.ts:26-43 | the start state: nothing loaded, nothing staged, no active filter, no sort option |
| ListView.ListEngine.Receive | src/app/list/list.component.ts:49-55 | the fetched list is kept sorted by name, with the same villagers |
| ListView.ListEngine.FetchFailed | src/app/list/list.component.ts:49-55 | a failed fetch leaves the list in the error state |
| ListView.ListEngine.Displayed | src/app/list/list.component.ts:78-83 | nothing is shown before the load, an error after a failed load, and otherwise exactly the loaded villagers that match the active filter; with no sort option the list is in name order |
| ListView.ListEngine.Count | src/app/list/list.component.ts:85-89 | a count exists exactly when a list is shown, and it is that list's length |
| ListView.ListEngine.CheckboxChecked | src/app/list/list.component.ts:154-157 | checking appends the value to the staged selection and unchecking removes it; the display does not change |
| ListView.ListEngine.ApplyFilters | src/app/list/list.component.ts:149-152 | the staged selection becomes the active filter |
| ListView.ListEngine.SetSort | src/app/list/list.component.ts:71 | the chosen option becomes the sort option |
| ListView.ListEngine.Reset | src/app/list/list.component.ts:57-76 | the staged selection, the active filter and the sort option are cleared, and the display is the name-sorted loaded list |
| Walkthrough.Session | src/app/list/list.component.ts:78-89 | two villagers: the first comes first by name and by hobby, and only the second is lazy. Loading, sorting by hobby, checking and applying "Lazy" shows a count of 1; the reset shows a count of 2 |

## Findings

| source | as written | input that shows it | evidently intended | confidence | as-written member | corrected member |
|---|---|---|---|---|---|---|
| src/app/list/list.component.ts:102-105 | `new Date(2020, parseInt(month, 10), parseInt(day, 10))` reads the 1-based month of `"day/month"` as a 0-based month index | `"31/1"` becomes 2 March and `"1/2"` becomes 1 March, so a villager born on 31 January sorts after one born on 1 February; every month's dates also shift by one month and overflow into the next | `new Date(2020, month - 1, day)`, calendar order by month, then day | high, not executed | Sorting.AsWrittenSortMisorders | Sorting.CalendarSortOrders |

The as-written key is `Birthdays.AsWrittenKey`, and `Birthdays.AsWrittenDayNumber` applies it to a text. `Birthdays.AsWrittenMisorders` shows the misorder at the level of the keys. `Sorting.Compare`, `Sorting.SortList` and the display model the program as written, so they use this key.

The corrected key is `Birthdays.CalendarKey`, and `Birthdays.DayNumber` applies it to a text. `Birthdays.CalendarOrder` proves that it gives calendar order. `Sorting.CalendarCompareBirthdays`, `Sorting.CalendarSortedByBirthday` and `Sorting.CalendarSortOrders` prove the same of the corrected sort.

## Left out

- `src/app/villager/villager.component.ts` (the detail view driven by the route parameter) and `src/app/app.module.ts` are not part of this model.
- The favourite toggle: `ListComponent` has no favourite flag, so there is nothing to model.
- The Angular and RxJS plumbing is not modelled: subscriptions, `shareReplay`, `ngOnDestroy` and the unsubscribe subject, and the template. The model keeps the latest value of each stream as a field and derives the display from the fields.
- The transient emissions of `combineLatest` between the sort reset and the filter reset of one click are not modelled. `ListView.ListEngine.Reset` states the state after both.
- The fetch (`ApiService.getVillagers`) is a parameter of `ListView.ListEngine.Receive`, and a failure is `ListView.ListEngine.FetchFailed`. The list arrives once, so both require the `Pending` state.
- These widget effects are not modelled: `accordion.close()`, toggling the checkbox widgets back on reset, and the sort control's `disabled` flag.
- `JsStrings.Upper`: ASCII only; full Unicode case mapping (for example 'ß' becoming "SS", or accented letters) is not modelled.
- `JsStrings.CompareStrings`: compares Dafny characters. JavaScript compares UTF-16 code units, which differ only outside the Basic Multilingual Plane.
- `JsStrings.ParseInt`: returns exact integers. Float rounding of very long digit strings is not modelled.
- `Sorting.CompareBirthdays`: the difference of day numbers stands for the difference of `getTime()` values. These are days instead of milliseconds, have the same sign and ignore the local time zone and daylight saving. The `Date` time-value range limit (±10^8 days) is not modelled.
- `Sorting.SortBy`: `Array.prototype.sort` leaves its algorithm to the engine. The model uses an insertion sort and proves what every conforming sort gives: a permutation, in comparator order, stable (`Sorting.SortStable`).
- `Sorting.SortListStable`: for the birthday key it needs every date to be valid. An invalid date ties with every other date, so its ties do not tie with one another.
- `Sorting.SortList`: with invalid birthdays the comparator is not consistent. JavaScript then leaves the order implementation-defined, so nothing is proved about the birthday order in that case.
- `ListView.ListEngine.Valid` states only that the loaded list is in name order; `ListView.ListEngine.Displayed` uses it. The other fields are unconstrained, as in the source.

# Client roster view model, in Dafny

This project models the logic of the client roster table of a small
client-time-tracking tool. The table lists clients, each with a units allocation
that is budgeted either per year (960 units) or per month (20 hours per assigned
month). It does five things:

- It **filters** the list. It keeps the clients whose lower-cased name contains
  the lower-cased search text, in order.
- It **sorts** a copy of the filtered list by the active column. The comparator
  answers 1 or -1 and never 0.
- It **toggles** the sort state when a column header is clicked. A click on the
  active column flips the direction. A click on another column selects it,
  ascending.
- It computes each client's **utilization**: `100 × unitsUsed / capacity`. The
  capacity is `20 × (monthsAssigned || 1)` in monthly mode and 960 in annual
  mode. The bar is clamped to 100% and values over 100 are flagged.
- It **normalises edits** before reporting them upward as change requests.

Files, one module each:

- `types.dfy` (`Types`): the client record, the six statuses and the picker's status order.
- `strings.dfy` (`Strings`): lower-casing, `includes` and string `<`, with their order lemmas.
- `roster_filter.dfy` (`RosterFilter`): the search filter.
- `roster_sort.dfy` (`RosterSort`): the comparator and an in-place sort of a fresh array copy.
- `utilization.dfy` (`Utilization`): capacity, utilization and the bar.
- `row_edits.dfy` (`RowEdits`): the clamps in the row inputs and the change requests they emit.
- `client_table.dfy` (`ClientTable`): the component's state (search text, sort column and direction) as a class.

Modelling choices:

- A parsed number is an `Option`, where `None` is JavaScript's `NaN`. An absent
  `monthsAssigned` is `None`. JavaScript's `x || d` is written out as "absent or
  zero gives `d`".
- `unitsUsed` is a `real`. Arithmetic is exact.
- Sorting is specified by the comparator itself. A sequence is `Sorted` when no
  pair `i < j` is one for which the comparator returns 1. Because ties answer -1
  in both orders, ties carry no order. When no two clients share a key, the
  order is strict and unique, and the descending result is the ascending one
  reversed.
- The component's hook state (`search`, `sortField`, `sortDirection`) becomes the
  fields of the class `ClientTable.Table`.

Three facts about the code shape the model:

- The sort comparator never returns 0. It answers -1 for ties in both orders, so
  the model states the order through that comparator rather than through `≤`
  between neighbours.
- The request a mode switch emits depends only on the picked mode, not on the
  mode the record had before.
- Utilization accepts any non-zero month count, negative ones included. So a
  positive capacity is proved only for records whose month count is absent or
  not negative.

## Model

| member | source | states |
|---|---|---|
| `Types.StatusOfLabel` | src/types/index.ts:13-19 | A literal that reads back as a status is that status's label. |
| `Types.LabelRoundTrip` | src/types/index.ts:13-19 | Every status reads back from its own literal. |
| `Types.LabelInjective` | src/types/index.ts:13-19 | Two statuses have the same literal exactly when they are the same status. |
| `Types.DisplayIndex` | src/types/index.ts:21-28 | Every status has a position in `CLIENT_STATUSES`. |
| `Types.StatusesDistinct` | src/types/index.ts:21-28 | `CLIENT_STATUSES` has 6 entries and no duplicates. |
| `Types.StatusesComplete` | src/types/index.ts:13-28 | Every status of the union occurs in `CLIENT_STATUSES` exactly once, so the list is a permutation of the union. |
| `Types.DisplayOrderDiffersFromDeclaration` | src/types/index.ts:13-28 | The picker's order is New Authorization, Current Authorization, Current Authorization (New LBS), Newly Assigned, Client Hospitalized, Frequent Caregiver Cancellations. This is not the union's declaration order. |
| `Types.StatusOptions` | src/components/ClientTable.tsx:213-217 | The picker's option values are the labels of `CLIENT_STATUSES`, in order. |
| `Types.StatusOptionsDistinct` | src/components/ClientTable.tsx:213-217 | The option values (also the React keys) are pairwise distinct. Each one reads back as the status at its position. |
| `Strings.Lower` | src/components/ClientTable.tsx:32 | Lower-casing keeps the length and leaves no upper-case ASCII letter. Each upper-case letter becomes the letter 32 code points above it, and every other character is kept. |
| `Strings.LowerFixedIff` | src/components/ClientTable.tsx:32 | A string is its own lower-casing exactly when it has no upper-case ASCII letter. |
| `Strings.LowerIdempotent` | src/components/ClientTable.tsx:32 | Lower-casing twice is lower-casing once. |
| `Strings.IncludesIff` | src/components/ClientTable.tsx:32 | `s.includes(t)` holds exactly when `t` occurs in `s` at some index. |
| `Strings.IncludesEmpty` | src/components/ClientTable.tsx:32 | Every string includes the empty string. |
| `Strings.LessIff` | src/components/ClientTable.tsx:37-39 | String `<` is lexicographic: `a` is a proper prefix of `b`, or `a` has the smaller character at the first difference. |
| `Strings.LessIrreflexive` | src/components/ClientTable.tsx:37-39 | No string is `<` itself. |
| `Strings.LessAsymmetric` | src/components/ClientTable.tsx:37-39 | `a < b` and `b < a` never both hold. |
| `Strings.LessTransitive` | src/components/ClientTable.tsx:37-39 | String `<` is transitive. |
| `Strings.LessTotal` | src/components/ClientTable.tsx:37-39 | Two different strings are ordered one way or the other. |
| `RosterFilter.Filter` | src/components/ClientTable.tsx:31-33 | The result is no longer than the input, and every kept client matches the search. |
| `RosterFilter.FilterIsSubsequence` | src/components/ClientTable.tsx:31-33 | The result is a subsequence of the input: clients are only dropped, never reordered. |
| `RosterFilter.FilterMultiplicity` | src/components/ClientTable.tsx:31-33 | A matching client is kept as many times as it occurs. A non-matching client is never kept. |
| `RosterFilter.FilterKeepsExactlyMatching` | src/components/ClientTable.tsx:31-33 | A client is in the result exactly when it is in the input and its lower-cased name includes the lower-cased search. |
| `RosterFilter.FilterAllMatching` | src/components/ClientTable.tsx:31-33 | A list whose clients all match is returned unchanged. |
| `RosterFilter.FilterEmptySearch` | src/components/ClientTable.tsx:31-33 | An empty search returns the whole list, in order. |
| `RosterFilter.FilterIdempotent` | src/components/ClientTable.tsx:31-33 | Filtering the result again with the same search changes nothing. |
| `RosterFilter.FilterSameLoweredSearch` | src/components/ClientTable.tsx:31-33 | Two searches with the same lower-casing keep exactly the same clients, in the same order. |
| `RosterFilter.FilterIgnoresSearchCase` | src/components/ClientTable.tsx:31-33 | The search is case-insensitive: the lower-cased search keeps the same clients as the search as typed. |
| `RosterSort.Key` | src/components/ClientTable.tsx:37-39 | `client[field]` is a number for `unitsUsed` and text for every other field. |
| `RosterSort.KeyLessAsymmetric` | src/components/ClientTable.tsx:37-39 | `<` on the values of one field is asymmetric. |
| `RosterSort.KeyLessTransitive` | src/components/ClientTable.tsx:37-39 | `<` on the values of one field is transitive. |
| `RosterSort.KeyLessTotal` | src/components/ClientTable.tsx:37-39 | Two values of one field are equal or ordered one way or the other. |
| `RosterSort.Compare` | src/components/ClientTable.tsx:35-40 | The comparator returns only 1 or -1. Ascending, it returns 1 exactly when `a[f] > b[f]`. Descending, it returns 1 exactly when `a[f] < b[f]`. |
| `RosterSort.CompareMirrored` | src/components/ClientTable.tsx:36-39 | Descending compares the pair the other way round from ascending. |
| `RosterSort.CompareTies` | src/components/ClientTable.tsx:36-39 | On equal keys both orders of the pair answer -1, so the comparator never returns 0. |
| `RosterSort.InOrderFlip` | src/components/ClientTable.tsx:36-39 | When the comparator puts `a` after `b`, it lets `b` stay before `a`. |
| `RosterSort.InOrderTransitive` | src/components/ClientTable.tsx:36-39 | "The comparator lets `a` stay before `b`" is transitive. |
| `RosterSort.SortedDistinctIsStrict` | src/components/ClientTable.tsx:36-39 | With distinct keys, a sorted list is strictly increasing by the field ascending and strictly decreasing descending. |
| `RosterSort.InsertLast` | src/components/ClientTable.tsx:35 | One insertion pass turns a sorted prefix of length `i` into one of length `i + 1`, keeps the array a permutation, and leaves the elements after index `i` untouched. |
| `RosterSort.SortedClients` | src/components/ClientTable.tsx:35-40 | Sorting a fresh copy gives a permutation of the filtered list in which no pair is out of comparator order. The input is not changed. |
| `RosterSort.ReversePermutes` | src/components/ClientTable.tsx:35-40 | Reversing keeps the same clients. |
| `RosterSort.SortedReverse` | src/components/ClientTable.tsx:36-39 | A list is sorted ascending exactly when its reverse is sorted descending. |
| `RosterSort.SortedHeadsAgree` | src/components/ClientTable.tsx:35-40 | Two sorted permutations of the same clients, with no shared key, start with the same client. |
| `RosterSort.SortedUnique` | src/components/ClientTable.tsx:35-40 | With no shared key, two sorted permutations of the same clients are equal. |
| `RosterSort.ReverseDistinctKeys` | src/components/ClientTable.tsx:35-40 | Reversing keeps keys distinct. |
| `RosterSort.DescendingIsReversedAscending` | src/components/ClientTable.tsx:35-40 | With no shared key, the descending result is the ascending result reversed. |
| `Utilization.Capacity` | src/components/ClientTable.tsx:51-57 | The divisor is never 0. It is positive when the month count is absent or not negative, 960 in annual mode. In monthly mode it is 20 × the month count when that count is present and non-zero, and 20 when it is absent or 0. |
| `Utilization.UtilizationOf` | src/components/ClientTable.tsx:51-57 | Utilization × capacity = 100 × unitsUsed. When the month count is absent or not negative, it is not negative for non-negative units, and it exceeds 100 exactly when the units exceed the capacity. |
| `Utilization.BarWidth` | src/components/ClientTable.tsx:200 | The bar width is at most 100 and at most the utilization. It is one of the two. |
| `Utilization.FlaggedIffBarClamped` | src/components/ClientTable.tsx:199-203 | When the month count is absent or not negative, a client is flagged red exactly when its bar was cut short, which is exactly when it used more than its capacity. |
| `Utilization.UtilizationExamples` | src/components/ClientTable.tsx:51-57 | 30 hours over 2 months is 75%. 480 annual units is 50%. 1000 annual units is over 100% with a full bar. An absent or zero month count counts as one month. |
| `RowEdits.ClampHours` | src/components/ClientTable.tsx:160 | Hours are never negative. A non-negative number is kept. Unparsable or negative input gives 0. |
| `RowEdits.ClampMonths` | src/components/ClientTable.tsx:172 | The month count is in 1..12. Numbers in range are kept, above 12 give 12, and unparsable, 0 or negative input gives 1. |
| `RowEdits.ClampAnnual` | src/components/ClientTable.tsx:187 | Annual units are in 0..960. Numbers in range are kept, above 960 give 960, and unparsable or negative input gives 0. |
| `RowEdits.ClampsIdempotent` | src/components/ClientTable.tsx:158-189 | Clamping an already clamped value changes nothing. |
| `RowEdits.OnModeChange` | src/components/ClientTable.tsx:136-143 | Monthly requests `min(unitsUsed, 240)` with one month: the units are kept exactly when they are at most 240, and above 240 the request is exactly 240. Annual requests the units unchanged, with no month count. |
| `RowEdits.OnMonthlyHoursChange` | src/components/ClientTable.tsx:159-162 | A monthly-hours edit requests the clamped hours and passes the record's month count on unchanged. |
| `RowEdits.OnMonthsChange` | src/components/ClientTable.tsx:171-174 | A month edit requests the clamped month count and passes the record's units on unchanged. |
| `RowEdits.OnAnnualUnitsChange` | src/components/ClientTable.tsx:186-189 | An annual edit requests the clamped units with no month count. |
| `RowEdits.AnnualEditValid` | src/components/ClientTable.tsx:186-189 | Every annual edit requests a valid allocation. |
| `RowEdits.MonthlyHoursEditValid` | src/components/ClientTable.tsx:159-162 | A monthly-hours edit requests a valid allocation whenever the record's month count is valid. |
| `RowEdits.MonthsEditValid` | src/components/ClientTable.tsx:171-174 | A month edit requests a valid allocation whenever the record's units are not negative. |
| `RowEdits.ModeChangeValid` | src/components/ClientTable.tsx:136-143 | From a valid record, a switch to monthly is valid. A switch to annual is valid exactly when the units are at most 960. |
| `RowEdits.OnStatusSelect` | src/components/ClientTable.tsx:208-218 | A status request names the row's client and a status whose label is the picked value. |
| `RowEdits.StatusSelectOptions` | src/components/ClientTable.tsx:208-218 | Each picker option requests the status at its position in `CLIENT_STATUSES`. |
| `RowEdits.EditExamples` | src/components/ClientTable.tsx:136-189 | Typing -5 or 2000 as annual units requests 0 or 960. An annual client at 900 switched to monthly requests 240 units and one month. |
| `ClientTable.Flip` | src/components/ClientTable.tsx:44 | Flipping always changes the direction. |
| `ClientTable.NextSort` | src/components/ClientTable.tsx:42-49 | A click always selects the clicked column. On the active column it flips the direction; on another column it starts ascending. |
| `ClientTable.ToggleTwiceRestores` | src/components/ClientTable.tsx:42-49 | Two clicks on the active column give back the starting state. |
| `ClientTable.NewColumnTwiceDescends` | src/components/ClientTable.tsx:42-49 | Two clicks on another column leave it selected, descending. |
| `ClientTable.NameHeaderTwiceFromStart` | src/components/ClientTable.tsx:25-26 | A fresh table sorts by name ascending. One click on Client Name descends; a second click ascends again. |
| `ClientTable.Table.constructor` | src/components/ClientTable.tsx:24-26 | A fresh table has an empty search and sorts by name, ascending. |
| `ClientTable.Table.SetSearch` | src/components/ClientTable.tsx:68-69 | Typing in the search box replaces the search text and leaves the sort state alone. |
| `ClientTable.Table.HandleSort` | src/components/ClientTable.tsx:42-49 | A header click moves the sort state as `NextSort` says and leaves the search alone. |
| `ClientTable.Table.Rows` | src/components/ClientTable.tsx:31-40 | The rendered rows are a permutation of the filtered clients in the active sort order. Every row is a matching client of the input, and every matching client is shown. |

## Left out

- The JSX markup, CSS classes, icons and React hooks are presentation. The hook state is modelled as the fields of `ClientTable.Table`. Updates take effect at once rather than on the next render.
- The import, export, add-client and delete buttons only forward a click or an id to the owner. They hold no logic.
- Date parsing and `toLocaleDateString` are locale-dependent library calls. Dates stay opaque strings.
- `toFixed(1)` and the IEEE-754 behaviour of the division are not modelled. Utilization is an exact real.
- The grammars of `parseInt` and `parseFloat` are not modelled. Their results are parameters of type `Option`, with `None` for `NaN`.
- `Strings.Lower` lower-cases ASCII letters only. Unicode case mapping is not modelled.
- `Strings.Less` compares characters by code point. JavaScript compares UTF-16 code units, which differs only for characters outside the Basic Multilingual Plane.
- Sorting by `monthsAssigned` is not modelled. An absent value compares false against everything, so that column has no order to prove, and no header offers it. Only the name header is wired; the model lets every other field be chosen too.
- `Array.prototype.sort`'s own algorithm and its tie order are not modelled. An insertion sort stands in for it. When two clients share a key the comparator answers -1 both ways, so it is not a consistent comparator, and ECMAScript then leaves the order of the result implementation-defined. The model assumes the engine still returns a permutation in which no pair is out of comparator order, and states only that.
- `monthsAssigned` is an integer in the model, while the record types it as any number. Every value the table itself writes is an integer (1 or a parsed, clamped integer).
- `RowEdits.OnStatusSelect`: the source casts the picked value to a status without checking it, and the model returns `None` for a value that is no status label. The picker only offers status labels, as `RowEdits.StatusSelectOptions` shows.

# Plane board view: the board projection

This project models the core of the kanban board view of an Obsidian plugin
for Plane projects (`src/ui/boardView.ts`). The view reads the selected
project's cached work items, workflow states and modules. It keeps the items
of the selected module and groups them into one column per state key. It
labels each column from the state table, and it tints a column from the
state's `#rrggbb` colour.

Modules:

- `PlaneTypes` (`types.dfy`): work items, workflow states, modules and the
  project data. Optional fields are `Option`. JavaScript's `??` skips only a
  missing value, so `Some("")` counts as present.
- `Seqs` (`seqs.dfy`): `Select`, which is `Array.prototype.filter` on
  sequences. Lemmas show it keeps exactly the passing elements, with their
  multiplicities and in order.
- `ModuleFilter` (`module_filter.dfy`): how the dropdown value is normalised,
  how an item's module is resolved, and which items the filter keeps.
- `ColumnGrouping` (`columns.dfy`): `buildColumns`. `Columns` is a
  declarative specification: the first-seen distinct state keys, each with
  its items, title and colour. `BuildColumns` is the source's imperative
  loop over the state map and the column map, and it is proved to compute
  `Columns`. The lemmas cover partition, distinct keys, first-seen order,
  order within a column, labels and the fallback column.
- `BoardView` (`board_view.dfy`): the class `PlaneBoardView` with its
  `moduleFilter` field, the filter handler, `filteredItems` and the data part
  of `renderKanban`; `moduleName`.
- `Colors` (`colors.dfy`): `dimColor` as a decoder to three channels, with a
  round trip against `#rrggbb` encoding.
- `BoardScenarios` (`scenarios.dfy`): concrete boards.

Three behaviours of `buildColumns` are easy to miss; the model follows the
code:

- An item whose state id matches no state gets a column of its own, keyed by
  that id and titled "Unspecified". It is not merged into the
  `"unspecified"` column, so several "Unspecified" columns can appear
  (`BoardScenarios.UnknownStateOwnColumn`).
- The key `"unspecified"` is looked up in the state table like any other
  key. A state whose id is `"unspecified"` therefore names that column
  (`ColumnGrouping.FallbackBucket` assumes no such state).
- State ids need not be unique. For a repeated id, the last state in the
  list gives the title and colour (`ColumnGrouping.StateTableLastWins`).

A `Column` keeps its state key as a field. In the source the key is only the
key of the `Map`, and `Array.from(grouped.values())` returns title, colour
and items.

## Model

| member | source | states |
|---|---|---|
| `ColumnGrouping.StateKey` | src/ui/boardView.ts:198 | the state key is `state_id` when present, else `state`, else `"unspecified"` |
| `ColumnGrouping.StateTable` | src/ui/boardView.ts:190-191 | every state id is a key of the state map, and each entry is a state with its key as id |
| `ColumnGrouping.StateTableKeys` | src/ui/boardView.ts:190-191 | every key of the state map is the id of some state |
| `ColumnGrouping.StateTableLastEntry` | src/ui/boardView.ts:190-191 | the entry for a key is the last state in the list with that id |
| `ColumnGrouping.StateTableLastWins` | src/ui/boardView.ts:190-191 | the state map holds exactly the ids of `states`; for each id its entry is the last state in the list with that id |
| `ColumnGrouping.TitleFor` | src/ui/boardView.ts:200 | the title is the matching state's name, or "Unspecified" when the key has no state |
| `ColumnGrouping.ColorFor` | src/ui/boardView.ts:205 | a colour is present only when the key has a state, and it is that state's colour |
| `ColumnGrouping.BuildColumns` | src/ui/boardView.ts:189-211 | the loops that fill the state map and the column map return exactly the declarative columns of the items under the state table |
| `ColumnGrouping.ColumnsStepNew` | src/ui/boardView.ts:199-207 | an item with an unseen key opens one new column at the end, titled and coloured from the state table, holding just that item |
| `ColumnGrouping.ColumnsStepExisting` | src/ui/boardView.ts:201-207 | an item whose key already has a column is appended to that column; its title, colour and every other column are unchanged |
| `ColumnGrouping.ColumnKeysCover` | src/ui/boardView.ts:197-208 | a key has a column if and only if some item resolves to it |
| `ColumnGrouping.ColumnKeysDistinct` | src/ui/boardView.ts:192-210 | no two columns share a state key |
| `ColumnGrouping.ColumnKeysFirstSeenPair` | src/ui/boardView.ts:197-210 | of two columns, the earlier column's key is carried by an item that comes before every item carrying the later column's key |
| `ColumnGrouping.ColumnKeysFirstSeen` | src/ui/boardView.ts:197-210 | columns appear in the order their keys are first seen among the items |
| `ColumnGrouping.ColumnsPartition` | src/ui/boardView.ts:197-210 | the column sizes add up to the number of input items |
| `ColumnGrouping.ColumnContents` | src/ui/boardView.ts:197-208 | a column holds exactly the input items with its key, each as often as in the input, as an order-preserving subsequence |
| `ColumnGrouping.ColumnsExactlyOne` | src/ui/boardView.ts:197-208 | every input item lies in exactly one column, the one keyed by its state key |
| `ColumnGrouping.ColumnLabel` | src/ui/boardView.ts:190-206 | a column's title and colour come from the last state with its key; with no such state the title is "Unspecified" and there is no colour |
| `ColumnGrouping.FallbackBucket` | src/ui/boardView.ts:198-206 | an item with neither state field lies in the `"unspecified"` column, titled "Unspecified" with no colour, when no state has that id |
| `ColumnGrouping.ColumnsNonEmpty` | src/ui/boardView.ts:201-207 | every column holds at least one item, since a column is opened only for an item pushed into it |
| `ColumnGrouping.NoItemsNoColumns` | src/ui/boardView.ts:197-210 | no items give no columns |
| `Seqs.Select` | src/ui/boardView.ts:215 | `filter` keeps at most the input's length, and only input elements that pass the predicate |
| `ModuleFilter.Normalize` | src/ui/boardView.ts:120 | the empty dropdown value means no filter; any other value is stored as is |
| `ModuleFilter.ResolveModule` | src/ui/boardView.ts:216 | an item's module is `module` when present, else `module_id`, else none |
| `ModuleFilter.IsSet` | src/ui/boardView.ts:217 | the filter field is truthy exactly when it is present and not the empty string |
| `ModuleFilter.Keeps` | src/ui/boardView.ts:215-219 | the `filter` callback keeps an item exactly when no filter is set or the item's resolved module equals the filter |
| `ModuleFilter.FilterItems` | src/ui/boardView.ts:215-219 | the result is no longer than the work items and holds only work items that the callback keeps |
| `ModuleFilter.FilterSpec` | src/ui/boardView.ts:213-219 | all items without a filter; with one, exactly the matching items, each as often as in the input; always an order-preserving subsequence |
| `ModuleFilter.FilterUnset` | src/ui/boardView.ts:213-219 | with no filter, or an empty one, every item is kept in order |
| `ModuleFilter.FilterMatches` | src/ui/boardView.ts:213-219 | with a filter set, an item is kept if and only if its resolved module equals the filter, as often as it occurs |
| `ModuleFilter.FilterDropsUnassigned` | src/ui/boardView.ts:216-217 | with a filter set, an item without a module is dropped |
| `ModuleFilter.FilterKeepsOrder` | src/ui/boardView.ts:213-219 | the kept items are an order-preserving subsequence of the work items |
| `ModuleFilter.FilterNoMatch` | src/ui/boardView.ts:213-219 | a filter that matches no item's module keeps nothing |
| `BoardView.PlaneBoardView.constructor` | src/ui/boardView.ts:18 | a new view has no module filter |
| `BoardView.PlaneBoardView.OnModuleFilterChange` | src/ui/boardView.ts:119-122 | the handler stores the normalised value: the field is never the empty string, and it is set exactly when the value is non-empty |
| `BoardView.PlaneBoardView.FilteredItems` | src/ui/boardView.ts:213-219 | the view's items are all work items without a filter, and with one exactly those whose module equals the filter, each as often as in the input; always in input order |
| `BoardView.PlaneBoardView.KanbanColumns` | src/ui/boardView.ts:133-142 | the board is the filtered items grouped under the state table, and it is empty exactly when no item passes the filter |
| `BoardView.BoardShowsFilteredItems` | src/ui/boardView.ts:133-142 | every shown column is non-empty; a work item is on the board if and only if the filter keeps it, and it is never in two columns |
| `BoardView.BoardEmptyForUnmatchedFilter` | src/ui/boardView.ts:133-137 | a filter that matches no item gives an empty board, not an error |
| `BoardView.FindModule` | src/ui/boardView.ts:223-225 | `find` returns the position of the first module with the id, or none when no module has it |
| `BoardView.ModuleName` | src/ui/boardView.ts:222-227 | the name of the first module with the id, or the id unchanged when no module has it |
| `Colors.StripHash` | src/ui/boardView.ts:230 | one leading `#` is removed when present, and otherwise the text is unchanged |
| `Colors.HexValue` | src/ui/boardView.ts:232-234 | a hexadecimal digit of either case decodes to its position in the digit table `0123456789abcdef` / `0123456789ABCDEF` |
| `Colors.Channel` | src/ui/boardView.ts:232-234 | two hexadecimal digits decode to a channel in 0..255 whose high digit is the first and low digit the second |
| `Colors.DimColor` | src/ui/boardView.ts:229-236 | gray fallback exactly when the remainder after one optional `#` is not 6 long; otherwise, for six hex digits of any case, three channels in 0..255 whose high and low digits are the remainder's digit pairs, or the non-hex case |
| `Colors.DimColorRoundTrip` | src/ui/boardView.ts:229-235 | decoding `#rrggbb` or `rrggbb` written from three channels, in lower or upper case, gives those channels back |
| `Colors.StripsOneHash` | src/ui/boardView.ts:230-231 | a leading `#` is optional, and only one is stripped: `##rrggbb` falls back to gray |
| `Colors.DimColorExamples` | src/ui/boardView.ts:229-236 | `#336699` decodes to (51, 102, 153), `#FFFFFF` to (255, 255, 255), mixed-case `#aAbBcC` to (170, 187, 204), and `xyz` gives the gray fallback |
| `BoardScenarios.FirstSeenOrderExample` | src/ui/boardView.ts:197-210 | items in states B, A, B, C give the columns B, A, C, whatever the state table's order |
| `BoardScenarios.ThreeColumnsExample` | src/ui/boardView.ts:189-211 | items in s1, s2 and no state give the columns Todo, Done (with its colour) and Unspecified |
| `BoardScenarios.UnknownStateOwnColumn` | src/ui/boardView.ts:198-206 | an unknown state id gets its own "Unspecified" column beside the `"unspecified"` one |

## Left out

- The Obsidian view plumbing and the widgets: `render`, `renderFilters`, the DOM part of `renderKanban`, and the dropdown and button components (src/ui/boardView.ts:68-187). They are UI over a library that is not part of this model.
- The asynchronous plugin calls: `setState`, `onOpen`, project selection, the sync button, note creation and file opening (src/ui/boardView.ts:46-61, 87-99, 179-184). They are I/O through services that are not part of this model.
- The event subscription, `onClose`, `getViewType`, `getIcon` and `getDisplayText` (src/ui/boardView.ts:26-44, 63-66). These are host callbacks and a foreign `projectLabel` call.
- `BoardView.PlaneBoardView.FilteredItems` and `KanbanColumns` take the project data as a parameter. The source reads it from `plugin.getProjectDataOrEmpty()`, which is not part of this model.
- `Colors.DimColor`: the `alpha` argument and the text of the `rgba(...)` result are not modelled, because alpha is a JavaScript number passed through unchanged. The result is the gray fallback or a channel triple.
- `Colors.DimColor`: for a six-character remainder with a non-hex character, the result is only `Unparsed`. There `parseInt` skips leading white space, reads an optional sign and then a hex prefix, or gives NaN (`parseInt("-f", 16)` is -15). That is not modelled.
- `Colors.DimColor`: the length test counts characters (Unicode scalar values), while JavaScript's `length` counts UTF-16 code units. A remainder of three characters outside the Basic Multilingual Plane has length 6 in the source, which decodes NaN channels, but the model gives the gray fallback. Strings are `seq<char>` here, with no UTF-16 encoding.
- `ColumnGrouping.TitleFor`: a state with a missing `name` would also be titled "Unspecified" through `??`. The state record type is not part of this model, so a state's name is always a string here.
- `BoardView.ModuleName`: a module with a missing `name` would also give back the id through `mod?.name ?? id`. The module record type is not part of this model, so a module's name is always a string here.
- The module label on each card (src/ui/boardView.ts:170-171) is display code. Only the lookup, `moduleName`, is modelled.

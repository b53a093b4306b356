/** The board view (`PlaneBoardView`): the module filter it owns, the
    projection of the project's work items into kanban columns that
    `renderKanban` draws, and the module-name lookup used on the cards. */
module BoardView {
  import opened PlaneTypes
  import Seqs
  import opened ModuleFilter
  import opened ColumnGrouping

  /** The columns shown for the project's items, states and a module
      filter: the filtered items grouped by state. */
  function Board(data: ProjectData, filter: Option<string>): seq<Column>
  {
    Columns(FilterItems(data.workItems, filter), StateTable(data.states))
  }

  class PlaneBoardView {
    /** The selected module, `undefined` for "All modules". */
    var moduleFilter: Option<string>

    constructor ()
      ensures moduleFilter == None
    {
      moduleFilter := None;
    }

    /** The filter dropdown's change handler: `value || undefined`. The
        field never holds the empty string. */
    method OnModuleFilterChange(value: string)
      modifies this
      ensures moduleFilter != Some("")
      ensures moduleFilter == Normalize(value)
      ensures IsSet(moduleFilter) <==> value != ""
    {
      moduleFilter := Normalize(value);
    }

    /** `filteredItems()` over the given project data. */
    function FilteredItems(data: ProjectData): (r: seq<WorkItem>)
      reads this
      ensures !IsSet(moduleFilter) ==> r == data.workItems
      ensures IsSet(moduleFilter) ==>
        forall x :: x in r <==> x in data.workItems && ResolveModule(x) == moduleFilter
      ensures IsSet(moduleFilter) ==>
        forall x :: multiset(r)[x] == (if ResolveModule(x) == moduleFilter then multiset(data.workItems)[x] else 0)
      ensures Seqs.IsSubsequence(r, data.workItems)
    {
      FilterSpec(data.workItems, moduleFilter);
      FilterItems(data.workItems, moduleFilter)
    }

    /** The data part of `renderKanban`: with no filtered items nothing is
      built (the board shows its empty notice); otherwise the filtered
      items are grouped into columns. */
    method KanbanColumns(data: ProjectData) returns (cols: seq<Column>)
      ensures cols == Board(data, moduleFilter)
      ensures FilteredItems(data) == [] <==> cols == []
    {
      var items := FilteredItems(data);
      if |items| == 0 {
        return [];
      }
      cols := BuildColumns(items, data.states);
      assert StateKey(items[0]) in ColumnKeys(items) by {
        ColumnKeysCover(items, StateKey(items[0]));
      }
    }
  }

  /** Every shown column is non-empty, and a work item is on the board, in
      exactly one column, precisely when the filter keeps it. */
  lemma BoardShowsFilteredItems(data: ProjectData, filter: Option<string>, x: WorkItem)
    ensures var cols := Board(data, filter);
      forall c :: 0 <= c < |cols| ==> cols[c].items != []
    ensures var cols := Board(data, filter);
      (exists c :: 0 <= c < |cols| && x in cols[c].items) <==> x in FilterItems(data.workItems, filter)
    ensures var cols := Board(data, filter);
      forall c, d :: 0 <= c < d < |cols| ==> !(x in cols[c].items && x in cols[d].items)
  {
    var items := FilterItems(data.workItems, filter);
    var table := StateTable(data.states);
    var cols := Board(data, filter);
    if x in items {
      var n :| 0 <= n < |items| && items[n] == x;
      ColumnsExactlyOne(items, table, n);
    }
    forall c | 0 <= c < |cols| ensures x in cols[c].items <==> x in items && StateKey(x) == cols[c].key {
      ColumnContents(items, table, c, x);
    }
    ColumnKeysDistinct(items);
    ColumnsNonEmpty(items, table);
  }

  /** A filter that no item's module matches leaves the board empty. */
  lemma BoardEmptyForUnmatchedFilter(data: ProjectData, filter: Option<string>)
    requires IsSet(filter)
    requires forall i :: 0 <= i < |data.workItems| ==> ResolveModule(data.workItems[i]) != filter
    ensures Board(data, filter) == []
  {
    FilterNoMatch(data.workItems, filter);
  }

  /** The position of the first module with id `id`, as `find` looks it up. */
  function FindModule(modules: seq<PlaneModule>, id: string): (r: Option<nat>)
    ensures r.Some? ==>
      && r.value < |modules| && modules[r.value].id == id
      && forall j :: 0 <= j < r.value ==> modules[j].id != id
    ensures r.None? ==> forall j :: 0 <= j < |modules| ==> modules[j].id != id
    decreases |modules|
  {
    if modules == [] then None
    else if modules[0].id == id then Some(0)
    else
      match FindModule(modules[1..], id)
      case None => None
      case Some(j) => Some(j + 1)
  }

  /** No module before position `j` has id `id`. */
  ghost predicate FirstWithId(modules: seq<PlaneModule>, j: int, id: string)
  {
    forall i :: 0 <= i < j && i < |modules| ==> modules[i].id != id
  }

  /** `moduleName(id)`: the name of the first module with that id, or the
      id itself when no module has it. */
  function ModuleName(modules: seq<PlaneModule>, id: string): (name: string)
    ensures forall j :: 0 <= j < |modules| && modules[j].id == id && FirstWithId(modules, j, id) ==>
      name == modules[j].name
    ensures (forall j :: 0 <= j < |modules| ==> modules[j].id != id) ==> name == id
  {
    match FindModule(modules, id)
    case Some(j) => modules[j].name
    case None => id
  }
}

/** The board's module filter: how the dropdown value is normalised and
    which work items the filter keeps (`filteredItems`). */
module ModuleFilter {
  import opened PlaneTypes
  import Seqs

  /** `value || undefined`: the empty choice ("All modules") means no filter. */
  function Normalize(value: string): (f: Option<string>)
    ensures f == None <==> value == ""
    ensures f.Some? ==> f.value == value
  {
    if value == "" then None else Some(value)
  }

  /** `item.module ?? item.module_id ?? null`. */
  function ResolveModule(item: WorkItem): (m: Option<string>)
    ensures item.moduleRef.Some? ==> m == item.moduleRef
    ensures item.moduleRef.None? ==> m == item.legacyModuleId
  {
    match item.moduleRef
    case Some(_) => item.moduleRef
    case None => item.legacyModuleId
  }

  /** The JavaScript truthiness of the filter field: set and not empty. */
  predicate IsSet(filter: Option<string>): (b: bool)
    ensures b <==> filter != None && filter != Some("")
  {
    filter.Some? && filter.value != ""
  }

  /** The callback given to `filter`: reject an item only when a filter is
      set and the item's module differs from it (`modId !== moduleFilter`,
      where a missing module differs from every string). */
  function Keeps(filter: Option<string>): (keep: WorkItem -> bool)
    ensures forall item :: keep(item) <==> !IsSet(filter) || ResolveModule(item) == filter
  {
    item => !(IsSet(filter) && ResolveModule(item) != filter)
  }

  /** `workItems.filter(...)` with the callback above. */
  function FilterItems(items: seq<WorkItem>, filter: Option<string>): (r: seq<WorkItem>)
    ensures |r| <= |items|
    ensures forall x :: x in r ==> x in items && (!IsSet(filter) || ResolveModule(x) == filter)
  {
    Seqs.Select(items, Keeps(filter))
  }

  /** Without a filter (absent or empty) every item is kept, in order. */
  lemma FilterUnset(items: seq<WorkItem>, filter: Option<string>)
    requires !IsSet(filter)
    ensures FilterItems(items, filter) == items
  {
    Seqs.SelectAll(items, Keeps(filter));
  }

  /** With a filter set, an item is kept exactly when its resolved module
      equals the filter, and it is kept as often as it occurs. */
  lemma FilterMatches(items: seq<WorkItem>, filter: Option<string>, x: WorkItem)
    requires IsSet(filter)
    ensures x in FilterItems(items, filter) <==> x in items && ResolveModule(x) == filter
    ensures multiset(FilterItems(items, filter))[x] ==
      if ResolveModule(x) == filter then multiset(items)[x] else 0
  {
    Seqs.SelectMember(items, Keeps(filter), x);
    Seqs.SelectCount(items, Keeps(filter), x);
  }

  /** With a filter set, an item without any module is always dropped. */
  lemma FilterDropsUnassigned(items: seq<WorkItem>, filter: Option<string>, x: WorkItem)
    requires IsSet(filter)
    requires x.moduleRef.None? && x.legacyModuleId.None?
    ensures x !in FilterItems(items, filter)
  {
    FilterMatches(items, filter, x);
  }

  /** The kept items are an order-preserving subsequence of the input. */
  lemma FilterKeepsOrder(items: seq<WorkItem>, filter: Option<string>)
    ensures Seqs.IsSubsequence(FilterItems(items, filter), items)
  {
    Seqs.SelectIsSubsequence(items, Keeps(filter));
  }

  /** A filter that no item's module matches keeps nothing. */
  lemma FilterNoMatch(items: seq<WorkItem>, filter: Option<string>)
    requires IsSet(filter)
    requires forall i :: 0 <= i < |items| ==> ResolveModule(items[i]) != filter
    ensures FilterItems(items, filter) == []
  {
    Seqs.SelectNone(items, Keeps(filter));
  }

  /** Everything `filteredItems` promises, in one place: all items without
      a filter; with one, exactly the matching items, each as often as in
      the input; in input order either way. */
  lemma FilterSpec(items: seq<WorkItem>, filter: Option<string>)
    ensures !IsSet(filter) ==> FilterItems(items, filter) == items
    ensures IsSet(filter) ==>
      forall x :: x in FilterItems(items, filter) <==> x in items && ResolveModule(x) == filter
    ensures IsSet(filter) ==>
      forall x :: multiset(FilterItems(items, filter))[x] ==
        (if ResolveModule(x) == filter then multiset(items)[x] else 0)
    ensures Seqs.IsSubsequence(FilterItems(items, filter), items)
  {
    FilterKeepsOrder(items, filter);
    if IsSet(filter) {
      forall x
        ensures x in FilterItems(items, filter) <==> x in items && ResolveModule(x) == filter
        ensures multiset(FilterItems(items, filter))[x] ==
          (if ResolveModule(x) == filter then multiset(items)[x] else 0)
      {
        FilterMatches(items, filter, x);
      }
    } else {
      FilterUnset(items, filter);
    }
  }
}

/** Grouping of work items into kanban columns (`buildColumns`).

    The specification is declarative: the column keys are the items' state
    keys in the order they are first seen, and the column for key `k` holds
    the items whose state key is `k`, titled and coloured from the state
    table. `BuildColumns` is the source's loop over a map and is proved to
    compute exactly that. */
module ColumnGrouping {
  import opened PlaneTypes
  import Seqs

  /** Title of a column whose key has no state. */
  const UnspecifiedTitle := "Unspecified"
  /** State key of an item that has neither `state_id` nor `state`. */
  const UnspecifiedKey := "unspecified"

  /** A column of the board. `key` is the state key the source's `Map`
      is keyed by; `title`, `color` and `items` are the value stored for it. */
  datatype Column = Column(key: string, title: string, color: Option<string>, items: seq<WorkItem>)

  /** `item.state_id ?? item.state ?? "unspecified"`. */
  function StateKey(item: WorkItem): (k: string)
    ensures item.stateId.Some? ==> k == item.stateId.value
    ensures item.stateId.None? && item.legacyState.Some? ==> k == item.legacyState.value
    ensures item.stateId.None? && item.legacyState.None? ==> k == UnspecifiedKey
  {
    match item.stateId
    case Some(s) => s
    case None =>
      match item.legacyState
      case Some(s) => s
      case None => UnspecifiedKey
  }

  /** The `stateMap` built by `for (const s of states) stateMap.set(s.id, s)`. */
  function StateTable(states: seq<PlaneState>): (table: map<string, PlaneState>)
    ensures forall j :: 0 <= j < |states| ==> states[j].id in table
    ensures forall id :: id in table ==> table[id].id == id
    decreases |states|
  {
    if states == [] then map[]
    else StateTable(states[..|states| - 1])[states[|states| - 1].id := states[|states| - 1]]
  }

  /** `states[j]` is the last state in `states` whose id is `id`. */
  ghost predicate LastWithId(states: seq<PlaneState>, j: int, id: string)
  {
    0 <= j < |states| && states[j].id == id && forall j' :: j < j' < |states| ==> states[j'].id != id
  }

  /** Every key of the state table is the id of some state. */
  lemma {:induction false} StateTableKeys(states: seq<PlaneState>, id: string)
    ensures id in StateTable(states) ==> exists j :: 0 <= j < |states| && states[j].id == id
    decreases |states|
  {
    if states != [] {
      var n := |states| - 1;
      var init := states[..n];
      if states[n].id != id && id in StateTable(states) {
        assert id in StateTable(init);
        StateTableKeys(init, id);
        var j :| 0 <= j < |init| && init[j].id == id;
        assert states[j].id == id;
      }
    }
  }

  /** For a key of the state table, its entry is the last state with that id. */
  lemma {:induction false} StateTableLastEntry(states: seq<PlaneState>, id: string)
    requires id in StateTable(states)
    ensures exists j :: LastWithId(states, j, id) && states[j] == StateTable(states)[id]
    decreases |states|
  {
    var n := |states| - 1;
    var init := states[..n];
    if states[n].id == id {
      assert LastWithId(states, n, id);
    } else {
      assert id in StateTable(init);
      StateTableLastEntry(init, id);
      var j :| LastWithId(init, j, id) && init[j] == StateTable(init)[id];
      assert states[j] == StateTable(states)[id];
      assert LastWithId(states, j, id);
    }
  }

  /** The state table knows exactly the ids of `states`, and for an id that
      occurs several times it holds the LAST state with that id. */
  lemma StateTableLastWins(states: seq<PlaneState>, id: string)
    ensures id in StateTable(states) <==> exists j :: 0 <= j < |states| && states[j].id == id
    ensures id in StateTable(states) ==>
      exists j :: LastWithId(states, j, id) && states[j] == StateTable(states)[id]
  {
    StateTableKeys(states, id);
    if id in StateTable(states) {
      StateTableLastEntry(states, id);
    }
  }

  /** `stateInfo?.name ?? "Unspecified"`. */
  function TitleFor(table: map<string, PlaneState>, key: string): (t: string)
    ensures key in table ==> t == table[key].name
    ensures key !in table ==> t == UnspecifiedTitle
  {
    if key in table then table[key].name else UnspecifiedTitle
  }

  /** `stateInfo?.color`: a colour only comes from a matching state. */
  function ColorFor(table: map<string, PlaneState>, key: string): (c: Option<string>)
    ensures c.Some? ==> key in table && c == table[key].color
    ensures key in table ==> c == table[key].color
  {
    if key in table then table[key].color else None
  }

  /** The distinct state keys of `items`, in the order they are first seen. */
  function ColumnKeys(items: seq<WorkItem>): (ks: seq<string>)
    decreases |items|
  {
    if items == [] then []
    else
      var ks := ColumnKeys(items[..|items| - 1]);
      var k := StateKey(items[|items| - 1]);
      if k in ks then ks else ks + [k]
  }

  /** The filter predicate "has state key `key`". */
  function HasKey(key: string): WorkItem -> bool
  {
    item => StateKey(item) == key
  }

  /** The items whose state key is `key`, in input order. */
  function ItemsWithKey(items: seq<WorkItem>, key: string): seq<WorkItem>
  {
    Seqs.Select(items, HasKey(key))
  }

  function ColumnFor(items: seq<WorkItem>, table: map<string, PlaneState>, key: string): Column
  {
    Column(key, TitleFor(table, key), ColorFor(table, key), ItemsWithKey(items, key))
  }

  /** The columns `buildColumns` returns for `items` and a state table. */
  function Columns(items: seq<WorkItem>, table: map<string, PlaneState>): (cols: seq<Column>)
    ensures |cols| == |ColumnKeys(items)|
  {
    var ks := ColumnKeys(items);
    seq(|ks|, c requires 0 <= c < |ks| => ColumnFor(items, table, ks[c]))
  }

  /** The total number of items held by `cols`. */
  function TotalItems(cols: seq<Column>): nat
    decreases |cols|
  {
    if cols == [] then 0 else TotalItems(cols[..|cols| - 1]) + |cols[|cols| - 1].items|
  }

  // ---------------------------------------------------------------------
  // One more item: what the loop body of buildColumns does to the columns.
  // ---------------------------------------------------------------------

  lemma ItemsWithKeyStep(items: seq<WorkItem>, item: WorkItem, key: string)
    ensures ItemsWithKey(items + [item], key) ==
      if StateKey(item) == key then ItemsWithKey(items, key) + [item] else ItemsWithKey(items, key)
  {
    assert (items + [item])[..|items|] == items;
  }

  lemma ColumnKeysStep(items: seq<WorkItem>, item: WorkItem)
    ensures ColumnKeys(items + [item]) ==
      if StateKey(item) in ColumnKeys(items) then ColumnKeys(items) else ColumnKeys(items) + [StateKey(item)]
  {
    assert (items + [item])[..|items|] == items;
  }

  /** An item whose key already has a column is appended to that column;
      the column's title and colour and every other column stay as they are. */
  lemma {:induction false} ColumnsStepExisting(items: seq<WorkItem>, table: map<string, PlaneState>, item: WorkItem, c: nat)
    requires c < |ColumnKeys(items)| && ColumnKeys(items)[c] == StateKey(item)
    ensures var old_ := Columns(items, table);
      Columns(items + [item], table) == old_[c := old_[c].(items := old_[c].items + [item])]
  {
    ColumnKeysStep(items, item);
    var before, after := Columns(items, table), Columns(items + [item], table);
    var expected := before[c := before[c].(items := before[c].items + [item])];
    forall d | 0 <= d < |after|
      ensures after[d] == expected[d]
    {
      ItemsWithKeyStep(items, item, ColumnKeys(items)[d]);
      ColumnKeysDistinct(items);
    }
  }

  /** An item with a key not seen before opens a new column at the end,
      titled and coloured from the state table, holding just that item. */
  lemma {:induction false} ColumnsStepNew(items: seq<WorkItem>, table: map<string, PlaneState>, item: WorkItem)
    requires StateKey(item) !in ColumnKeys(items)
    ensures var k := StateKey(item);
      Columns(items + [item], table) ==
        Columns(items, table) + [Column(k, TitleFor(table, k), ColorFor(table, k), [item])]
  {
    ColumnKeysStep(items, item);
    var k := StateKey(item);
    var before, after := Columns(items, table), Columns(items + [item], table);
    var expected := before + [Column(k, TitleFor(table, k), ColorFor(table, k), [item])];
    forall d | 0 <= d < |after|
      ensures after[d] == expected[d]
    {
      ItemsWithKeyStep(items, item, ColumnKeys(items + [item])[d]);
      if d == |before| {
        ItemsWithKeyAbsent(items, k);
      }
    }
  }

  // ---------------------------------------------------------------------
  // Properties of the column keys.
  // ---------------------------------------------------------------------

  /** A key has a column exactly when some item resolves to it. */
  lemma {:induction false} ColumnKeysCover(items: seq<WorkItem>, key: string)
    ensures key in ColumnKeys(items) <==> exists n :: 0 <= n < |items| && StateKey(items[n]) == key
    decreases |items|
  {
    if items != [] {
      var init := items[..|items| - 1];
      ColumnKeysCover(init, key);
      if exists n :: 0 <= n < |init| && StateKey(init[n]) == key {
        var n :| 0 <= n < |init| && StateKey(init[n]) == key;
        assert items[n] == init[n];
      }
    }
  }

  /** No two columns share a key. */
  lemma {:induction false} ColumnKeysDistinct(items: seq<WorkItem>)
    ensures forall i, j :: 0 <= i < j < |ColumnKeys(items)| ==> ColumnKeys(items)[i] != ColumnKeys(items)[j]
    decreases |items|
  {
    if items != [] {
      ColumnKeysDistinct(items[..|items| - 1]);
    }
  }

  lemma ItemsWithKeyAbsent(items: seq<WorkItem>, key: string)
    requires key !in ColumnKeys(items)
    ensures ItemsWithKey(items, key) == []
  {
    forall i | 0 <= i < |items| ensures !HasKey(key)(items[i]) {
      ColumnKeysCover(items, key);
    }
    Seqs.SelectNone(items, HasKey(key));
  }

  /** `key` occurs among the state keys of the first `n` items. */
  ghost predicate SeenWithin(items: seq<WorkItem>, n: nat, key: string)
    requires n <= |items|
  {
    exists m :: 0 <= m < n && StateKey(items[m]) == key
  }

  /** Item `n` carries key `a`, and no item up to and including `n`
      carries key `b`: `a` is seen before `b`. */
  ghost predicate SeenAt(items: seq<WorkItem>, n: int, a: string, b: string)
  {
    0 <= n < |items| && StateKey(items[n]) == a && !SeenWithin(items, n + 1, b)
  }

  /** Key `a` is carried by some item before any item carries key `b`. */
  ghost predicate SeenBefore(items: seq<WorkItem>, a: string, b: string)
  {
    exists n :: SeenAt(items, n, a, b)
  }

  /** Of two columns, the earlier one's key is seen before the later one's. */
  lemma {:induction false} ColumnKeysFirstSeenPair(items: seq<WorkItem>, i: nat, j: nat)
    requires i < j < |ColumnKeys(items)|
    ensures SeenBefore(items, ColumnKeys(items)[i], ColumnKeys(items)[j])
    decreases |items|
  {
    var init := items[..|items| - 1];
    var item := items[|items| - 1];
    assert items == init + [item];
    ColumnKeysStep(init, item);
    var ks, ks0 := ColumnKeys(items), ColumnKeys(init);
    var n;
    if j < |ks0| {
      assert ks[i] == ks0[i] && ks[j] == ks0[j];
      ColumnKeysFirstSeenPair(init, i, j);
      n :| SeenAt(init, n, ks0[i], ks0[j]);
    } else {
      // ks[j] is the key of the last item, new to `init`.
      assert ks[j] == StateKey(item) && ks[j] !in ks0 && ks[i] in ks0;
      ColumnKeysCover(init, ks[i]);
      ColumnKeysCover(init, ks[j]);
      n :| 0 <= n < |init| && StateKey(init[n]) == ks[i];
    }
    assert !SeenWithin(items, n + 1, ks[j]) by {
      forall m | 0 <= m < n + 1 ensures StateKey(items[m]) != ks[j] {
        assert items[m] == init[m];
      }
    }
    assert SeenAt(items, n, ks[i], ks[j]);
  }

  /** Column order is first-seen order: for every two columns, the earlier
      column's key is carried by some item before any item carries the
      later column's key. */
  lemma ColumnKeysFirstSeen(items: seq<WorkItem>)
    ensures forall i, j :: 0 <= i < j < |ColumnKeys(items)| ==>
      SeenBefore(items, ColumnKeys(items)[i], ColumnKeys(items)[j])
  {
    forall i, j | 0 <= i < j < |ColumnKeys(items)|
      ensures SeenBefore(items, ColumnKeys(items)[i], ColumnKeys(items)[j])
    {
      ColumnKeysFirstSeenPair(items, i, j);
    }
  }

  // ---------------------------------------------------------------------
  // Properties of the columns.
  // ---------------------------------------------------------------------

  lemma TotalItemsUpdate(cols: seq<Column>, c: nat, col: Column)
    requires c < |cols|
    ensures TotalItems(cols[c := col]) == TotalItems(cols) - |cols[c].items| + |col.items|
    decreases |cols|
  {
    if c < |cols| - 1 {
      assert cols[c := col][..|cols| - 1] == cols[..|cols| - 1][c := col];
      TotalItemsUpdate(cols[..|cols| - 1], c, col);
    } else {
      assert cols[c := col][..|cols| - 1] == cols[..|cols| - 1];
    }
  }

  /** Partition: the column sizes add up to the number of input items. */
  lemma {:induction false} ColumnsPartition(items: seq<WorkItem>, table: map<string, PlaneState>)
    ensures TotalItems(Columns(items, table)) == |items|
    decreases |items|
  {
    if items != [] {
      var init := items[..|items| - 1];
      var item := items[|items| - 1];
      assert items == init + [item];
      ColumnsPartition(init, table);
      var k := StateKey(item);
      if k in ColumnKeys(init) {
        var c :| 0 <= c < |ColumnKeys(init)| && ColumnKeys(init)[c] == k;
        ColumnsStepExisting(init, table, item, c);
        var before := Columns(init, table);
        TotalItemsUpdate(before, c, before[c].(items := before[c].items + [item]));
      } else {
        ColumnsStepNew(init, table, item);
        var after := Columns(items, table);
        assert after[..|after| - 1] == Columns(init, table);
      }
    }
  }

  /** A column holds exactly the input items with its key, each as often as
      in the input, in input order. */
  lemma ColumnContents(items: seq<WorkItem>, table: map<string, PlaneState>, c: nat, x: WorkItem)
    requires c < |Columns(items, table)|
    ensures var col := Columns(items, table)[c];
      && (x in col.items <==> x in items && StateKey(x) == col.key)
      && multiset(col.items)[x] == (if StateKey(x) == col.key then multiset(items)[x] else 0)
      && Seqs.IsSubsequence(col.items, items)
  {
    var key := ColumnKeys(items)[c];
    Seqs.SelectMember(items, HasKey(key), x);
    Seqs.SelectCount(items, HasKey(key), x);
    Seqs.SelectIsSubsequence(items, HasKey(key));
  }

  /** Every input item lies in exactly one column: the one keyed by its
      state key. */
  lemma ColumnsExactlyOne(items: seq<WorkItem>, table: map<string, PlaneState>, n: nat)
    requires n < |items|
    ensures var cols := Columns(items, table);
      exists c :: 0 <= c < |cols| && cols[c].key == StateKey(items[n]) && items[n] in cols[c].items &&
        forall d :: 0 <= d < |cols| && d != c ==> items[n] !in cols[d].items
  {
    var cols := Columns(items, table);
    var ks := ColumnKeys(items);
    var x := items[n];
    ColumnKeysCover(items, StateKey(x));
    ColumnKeysDistinct(items);
    var c :| 0 <= c < |ks| && ks[c] == StateKey(x);
    ColumnContents(items, table, c, x);
    forall d | 0 <= d < |cols| && d != c
      ensures x !in cols[d].items
    {
      ColumnContents(items, table, d, x);
    }
  }

  /** A column's title and colour come from the last state in `states` with
      the column's key, and default to "Unspecified" and no colour. */
  lemma ColumnLabel(items: seq<WorkItem>, states: seq<PlaneState>, c: nat)
    requires c < |Columns(items, StateTable(states))|
    ensures var col := Columns(items, StateTable(states))[c];
      && ((forall j :: 0 <= j < |states| ==> states[j].id != col.key) ==>
            col.title == UnspecifiedTitle && col.color == None)
      && ((exists j :: 0 <= j < |states| && states[j].id == col.key) ==>
            exists j :: LastWithId(states, j, col.key) &&
              col.title == states[j].name && col.color == states[j].color)
  {
    var key := ColumnKeys(items)[c];
    assert Columns(items, StateTable(states))[c] == ColumnFor(items, StateTable(states), key);
    StateTableLastWins(states, key);
  }

  /** An item with neither `state_id` nor `state` lands in the column keyed
      "unspecified", titled "Unspecified" with no colour when no state
      has that id. */
  lemma FallbackBucket(items: seq<WorkItem>, states: seq<PlaneState>, n: nat)
    requires n < |items|
    requires items[n].stateId.None? && items[n].legacyState.None?
    requires forall j :: 0 <= j < |states| ==> states[j].id != UnspecifiedKey
    ensures var cols := Columns(items, StateTable(states));
      exists c :: 0 <= c < |cols| && items[n] in cols[c].items && cols[c].key == UnspecifiedKey &&
        cols[c].title == UnspecifiedTitle && cols[c].color == None
  {
    ColumnsExactlyOne(items, StateTable(states), n);
    StateTableLastWins(states, UnspecifiedKey);
  }

  /** Every column holds at least one item: a column is only opened for
      an item that goes into it. */
  lemma ColumnsNonEmpty(items: seq<WorkItem>, table: map<string, PlaneState>)
    ensures forall c :: 0 <= c < |Columns(items, table)| ==> Columns(items, table)[c].items != []
  {
    forall c | 0 <= c < |Columns(items, table)|
      ensures Columns(items, table)[c].items != []
    {
      var key := ColumnKeys(items)[c];
      ColumnKeysCover(items, key);
      var n :| 0 <= n < |items| && StateKey(items[n]) == key;
      ColumnContents(items, table, c, items[n]);
    }
  }

  /** No items, no columns. */
  lemma NoItemsNoColumns(table: map<string, PlaneState>)
    ensures Columns([], table) == []
  {
  }

  // ---------------------------------------------------------------------
  // The source's loop.
  // ---------------------------------------------------------------------

  /** The loop state of `buildColumns` after the items `done`: the columns
      so far, and `position`, which gives each seen key its column. */
  ghost predicate Tracks(cols: seq<Column>, position: map<string, nat>, done: seq<WorkItem>, table: map<string, PlaneState>)
  {
    && cols == Columns(done, table)
    && (forall k :: k in position <==> k in ColumnKeys(done))
    && (forall k :: k in position ==> position[k] < |cols| && cols[position[k]].key == k)
  }

  /** One iteration of the item loop keeps `Tracks`: open the column when
      the key is new, then push the item onto its key's column. */
  lemma TracksStep(cols: seq<Column>, position: map<string, nat>, done: seq<WorkItem>,
                   table: map<string, PlaneState>, item: WorkItem,
                   cols': seq<Column>, position': map<string, nat>)
    requires Tracks(cols, position, done, table)
    requires var key := StateKey(item);
      position' == if key in position then position else position[key := |cols|]
    requires var key := StateKey(item);
      var grown := if key in position then cols
        else cols + [Column(key, TitleFor(table, key), ColorFor(table, key), [])];
      var c := position'[key];
      c < |grown| && cols' == grown[c := grown[c].(items := grown[c].items + [item])]
    ensures Tracks(cols', position', done + [item], table)
  {
    var key := StateKey(item);
    ColumnKeysStep(done, item);
    if key in position {
      ColumnsStepExisting(done, table, item, position[key]);
    } else {
      ColumnsStepNew(done, table, item);
    }
  }

  /** `buildColumns(items, states)`: fill the state map, then walk the items,
      opening a column the first time a key is seen and appending each item
      to its key's column. `position` plays the part of the `Map`'s keys. */
  method BuildColumns(items: seq<WorkItem>, states: seq<PlaneState>) returns (cols: seq<Column>)
    ensures cols == Columns(items, StateTable(states))
  {
    var stateMap: map<string, PlaneState> := map[];
    for i := 0 to |states|
      invariant stateMap == StateTable(states[..i])
    {
      assert states[..i + 1][..i] == states[..i];
      stateMap := stateMap[states[i].id := states[i]];
    }
    assert states[..|states|] == states;

    var position: map<string, nat> := map[];
    cols := [];
    for i := 0 to |items|
      invariant Tracks(cols, position, items[..i], stateMap)
    {
      var item := items[i];
      ghost var cols0, position0 := cols, position;
      var key := StateKey(item);
      var title := if key in stateMap then stateMap[key].name else UnspecifiedTitle;
      if key !in position {
        var color := if key in stateMap then stateMap[key].color else None;
        position := position[key := |cols|];
        cols := cols + [Column(key, title, color, [])];
      }
      var c := position[key];
      cols := cols[c := cols[c].(items := cols[c].items + [item])];
      TracksStep(cols0, position0, items[..i], stateMap, item, cols, position);
      assert items[..i + 1] == items[..i] + [item];
    }
    assert items[..|items|] == items;
  }
}

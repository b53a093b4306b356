/** Small boards: first-seen column order, the fallback column, and an
    unknown state id that opens a column of its own. */
module BoardScenarios {
  import opened PlaneTypes
  import opened ColumnGrouping

  lemma FirstSeenOrderKeys(i0: WorkItem, i1: WorkItem, i2: WorkItem, i3: WorkItem)
    requires StateKey(i0) == "B" && StateKey(i1) == "A" && StateKey(i2) == "B" && StateKey(i3) == "C"
    ensures ColumnKeys([i0, i1, i2, i3]) == ["B", "A", "C"]
  {
    var p1 := [] + [i0];
    var p2 := p1 + [i1];
    var p3 := p2 + [i2];
    assert p3 + [i3] == [i0, i1, i2, i3];
    ColumnKeysStep([], i0);
    ColumnKeysStep(p1, i1);
    ColumnKeysStep(p2, i2);
    ColumnKeysStep(p3, i3);
  }

  lemma FirstSeenOrderItems(i0: WorkItem, i1: WorkItem, i2: WorkItem, i3: WorkItem, k: string)
    requires StateKey(i0) == "B" && StateKey(i1) == "A" && StateKey(i2) == "B" && StateKey(i3) == "C"
    ensures ItemsWithKey([i0, i1, i2, i3], k) ==
      if k == "B" then [i0, i2] else if k == "A" then [i1] else if k == "C" then [i3] else []
  {
    var p1 := [] + [i0];
    var p2 := p1 + [i1];
    var p3 := p2 + [i2];
    assert p3 + [i3] == [i0, i1, i2, i3];
    ItemsWithKeyStep([], i0, k);
    ItemsWithKeyStep(p1, i1, k);
    ItemsWithKeyStep(p2, i2, k);
    ItemsWithKeyStep(p3, i3, k);
  }

  /** Items in states B, A, B, C give the columns B, A, C, whatever the
      state table holds; the B column holds the first and third items. */
  lemma FirstSeenOrderExample(i0: WorkItem, i1: WorkItem, i2: WorkItem, i3: WorkItem, table: map<string, PlaneState>)
    requires i0.stateId == Some("B") && i1.stateId == Some("A")
    requires i2.stateId == Some("B") && i3.stateId == Some("C")
    ensures var cols := Columns([i0, i1, i2, i3], table);
      && |cols| == 3 && cols[0].key == "B" && cols[1].key == "A" && cols[2].key == "C"
      && cols[0].items == [i0, i2] && cols[1].items == [i1] && cols[2].items == [i3]
  {
    FirstSeenOrderKeys(i0, i1, i2, i3);
    FirstSeenOrderItems(i0, i1, i2, i3, "B");
    FirstSeenOrderItems(i0, i1, i2, i3, "A");
    FirstSeenOrderItems(i0, i1, i2, i3, "C");
  }

  /** Items in s1, in s2 and in no state, with states Todo and Done (green):
      columns Todo, Done (green) and Unspecified, one item each. */
  lemma ThreeColumnsExample(i0: WorkItem, i1: WorkItem, i2: WorkItem)
    requires i0.stateId == Some("s1") && i1.stateId == Some("s2")
    requires i2.stateId == None && i2.legacyState == None
    ensures var states := [PlaneState("s1", "Todo", None), PlaneState("s2", "Done", Some("#00ff00"))];
      var cols := Columns([i0, i1, i2], StateTable(states));
      && |cols| == 3
      && cols[0].title == "Todo" && cols[0].color == None && cols[0].items == [i0]
      && cols[1].title == "Done" && cols[1].color == Some("#00ff00") && cols[1].items == [i1]
      && cols[2].title == UnspecifiedTitle && cols[2].color == None && cols[2].items == [i2]
  {
    var states := [PlaneState("s1", "Todo", None), PlaneState("s2", "Done", Some("#00ff00"))];
    assert states[..1][..0] == [];
    assert StateTable(states[..1]) == map["s1" := states[0]];
    var table := StateTable(states);
    assert table == map["s1" := states[0], "s2" := states[1]];
    var p1 := [] + [i0];
    var p2 := p1 + [i1];
    var p3 := p2 + [i2];
    assert p3 == [i0, i1, i2];
    ColumnKeysStep([], i0);
    ColumnKeysStep(p1, i1);
    ColumnKeysStep(p2, i2);
    assert ColumnKeys(p3) == ["s1", "s2", UnspecifiedKey];
    forall k | k in ["s1", "s2", UnspecifiedKey]
      ensures ItemsWithKey(p3, k) == (if k == "s1" then [i0] else if k == "s2" then [i1] else [i2])
    {
      ItemsWithKeyStep([], i0, k);
      ItemsWithKeyStep(p1, i1, k);
      ItemsWithKeyStep(p2, i2, k);
    }
  }

  /** An unknown state id is not merged into the "unspecified" column: it
      gets a column of its own, also titled "Unspecified". */
  lemma UnknownStateOwnColumn(i0: WorkItem, i1: WorkItem, table: map<string, PlaneState>)
    requires i0.stateId == Some("gone") && "gone" !in table
    requires i1.stateId == None && i1.legacyState == None && UnspecifiedKey !in table
    ensures var cols := Columns([i0, i1], table);
      && |cols| == 2 && cols[0].key == "gone" && cols[1].key == UnspecifiedKey
      && cols[0].title == UnspecifiedTitle && cols[1].title == UnspecifiedTitle
  {
    var p1 := [] + [i0];
    var p2 := p1 + [i1];
    assert p2 == [i0, i1];
    ColumnKeysStep([], i0);
    ColumnKeysStep(p1, i1);
    assert ColumnKeys(p2) == ["gone", UnspecifiedKey];
  }
}

/** A form on which setting ZOrder ends in an exception: a shared panel that holds one control beside
    one page, where the page holds the only other control of the group. */
module MixedPanel {
  import opened FormModel
  import opened Optional
  import opened Placement
  import opened Sequences
  import opened TabOrder
  import opened ZOrder

  function Example(): Document {
    Document(
      1,
      [ControlRef(2)],
      [ Control(2, Panel, Some(Boolean(false)), [ControlRef(3), PageRef(5)]),
        Control(3, LeafKind, None, []),
        Control(4, LeafKind, None, [])],
      [Page(5, [ControlRef(4)])])
  }

  function Unplaced(): Position {
    Position(Implicit, Implicit, Implicit)
  }

  lemma {:induction false} ExampleOwners()
    ensures Owners(Example()) == [FormOwner, ControlOwner(0), ControlOwner(1), ControlOwner(2), PageOwner(0)]
    ensures NodeRefs(Example()) == [ControlRef(2), ControlRef(3), ControlRef(4), PageRef(5)]
    ensures UniqueIds(Example())
  {
    var d, os := Example(), Owners(Example());
    assert os[1 + 0] == ControlOwner(0) && os[1 + 1] == ControlOwner(1) && os[1 + 2] == ControlOwner(2);
    assert os[1 + |d.controls| + 0] == PageOwner(0);
  }

  lemma {:induction false} ExampleRefs()
    ensures RefsIn(Example(), Owners(Example())) == multiset{ControlRef(2), ControlRef(3), PageRef(5), ControlRef(4)}
  {
    hide Owners, NodeRefs, RefsIn;
    ExampleOwners();
    var d := Example();
    RefsInNil(d);
    var os := [];
    RefsInSnoc(d, os, FormOwner);
    os := os + [FormOwner];
    RefsInSnoc(d, os, ControlOwner(0));
    os := os + [ControlOwner(0)];
    RefsInSnoc(d, os, ControlOwner(1));
    os := os + [ControlOwner(1)];
    RefsInSnoc(d, os, ControlOwner(2));
    os := os + [ControlOwner(2)];
    RefsInSnoc(d, os, PageOwner(0));
    os := os + [PageOwner(0)];
    assert os == Owners(d);
  }

  lemma {:induction false} RefsInNil(d: Document)
    ensures RefsIn(d, []) == multiset{}
  {
  }

  lemma {:induction false} ExamplePlaces()
    ensures OwnerOf(Example(), ControlRef(3)) == Some(ControlOwner(0))
    ensures OwnerOf(Example(), PageRef(5)) == Some(ControlOwner(0))
    ensures OwnerOf(Example(), ControlRef(4)) == Some(PageOwner(0))
  {
    hide OwnerOf, RefsIn, Owners;
    ExampleRefs();
    OwnerOfIff(Example(), ControlRef(3), ControlOwner(0));
    OwnerOfIff(Example(), PageRef(5), ControlOwner(0));
    OwnerOfIff(Example(), ControlRef(4), PageOwner(0));
  }

  lemma {:induction false} ExampleResolves()
    ensures Resolve(Example(), ControlRef(3)) == Some(ControlOwner(1))
    ensures Resolve(Example(), ControlRef(4)) == Some(ControlOwner(2))
    ensures Resolve(Example(), PageRef(5)) == Some(PageOwner(0))
  {
    hide Resolve, NodeRefs, Owners;
    ExampleOwners();
    ResolveUnique(Example(), ControlOwner(1));
    ResolveUnique(Example(), ControlOwner(2));
    ResolveUnique(Example(), PageOwner(0));
  }

  lemma {:induction false} ExampleGroup()
    ensures PlacementGroup(Example(), 3) == Some([3, 4])
  {
    hide OwnerOf, Resolve, Collect, CollectPages;
    var d := Example();
    ExamplePlaces();
    ExampleResolves();
    CollectNil(d, ControlOwner(0));
    CollectSnoc(d, ControlOwner(0), [], ControlRef(3));
    CollectSnoc(d, ControlOwner(0), [ControlRef(3)], PageRef(5));
    CollectNil(d, PageOwner(0));
    CollectSnoc(d, PageOwner(0), [], ControlRef(4));
    assert Collect(d, ControlOwner(0), [ControlRef(3), PageRef(5)]) == Some([3]) by {
      assert [] + [ControlRef(3)] == [ControlRef(3)] && [ControlRef(3)] + [PageRef(5)] == [ControlRef(3), PageRef(5)] && [] + [3] == [3];
    }
    assert Collect(d, PageOwner(0), [ControlRef(4)]) == Some([4]) by {
      assert [] + [ControlRef(4)] == [ControlRef(4)] && [] + [4] == [4];
    }
    assert Kids(d, PageRef(5)) == [ControlRef(4)];
    CollectPagesNil(d, 0);
    CollectPagesSnoc(d, 0, [], ControlRef(3));
    CollectPagesSnoc(d, 0, [ControlRef(3)], PageRef(5));
    assert [] + [ControlRef(3)] == [ControlRef(3)] && [ControlRef(3)] + [PageRef(5)] == [ControlRef(3), PageRef(5)];
    assert [] + [ControlRef(4)] == [ControlRef(4)];
    assert [] + [3] == [3] && [3] + [4] == [3, 4];
    assert OwnerOf(d, ControlRef(3)) == Some(ControlOwner(0));
    assert ScopeOf(d, ControlOwner(0)) == SharedPanel(0);
  }

  lemma {:induction false} ExampleReadsBack(ps: seq<Position>)
    requires ps == [Unplaced(), Unplaced(), Unplaced()]
    ensures OrderAt(Example(), ps, [3, 4], 0) == Some(1) && OrderAt(Example(), ps, [3, 4], 1) == Some(2)
    ensures !ExplicitAt(Example(), ps, 3) && !ExplicitAt(Example(), ps, 4)
  {
    hide Resolve;
    ExampleResolves();
  }

  lemma {:induction false} ExampleOrders(ps: seq<Position>)
    requires ps == [Unplaced(), Unplaced(), Unplaced()]
    ensures OrdersOf(Example(), ps, [3, 4]) == Some([1, 2])
    ensures !ExplicitZOrder(Example(), ps, [3, 4])
  {
    hide Resolve, OrdersOf, OrderAt, ExplicitAt;
    var d := Example();
    ExampleReadsBack(ps);
    assert Reads(d, ps, [3, 4], [1, 2]) && Numbering([1, 2]);
  }

  lemma {:induction false} ExampleReads(ps: seq<Position>)
    requires ps == [Unplaced(), Unplaced(), Unplaced()]
    ensures GroupFor(Example(), ps, 3) == Some(TabOrderGroup([3, 4], [1, 2], 0))
  {
    hide PlacementGroup, OrdersOf, Reads, Numbering;
    ExampleGroup();
    ExampleOrders(ps);
    assert IndexOf([3, 4], 3) == Some(0);
  }

  /** Moving control 3 to the second place throws. */
  lemma {:induction false} MixedPanelThrows(ps: seq<Position>)
    requires ps == [Unplaced(), Unplaced(), Unplaced()]
    ensures UniqueIds(Example()) && AfterZOrder(Example(), ps, 3, 2).status == Threw
  {
    hide PlacementGroup, Resolve, OwnerOf, AfterZOrder, GroupFor, ExplicitZOrder, UniqueIds;
    ExampleOwners();
    ExampleReads(ps);
    ExampleOrders(ps);
    ExamplePlaces();
    ZOrderThrowsIff(Example(), ps, 3, 2, TabOrderGroup([3, 4], [1, 2], 0), ControlOwner(0));
    assert PageRef(5) in ChildrenOf(Example(), ControlOwner(0));
  }
}

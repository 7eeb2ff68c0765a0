/** From a list of archive members to the tree: what every path shows once all are inserted. */
module Listing {
  import opened Wrappers
  import opened DirTree

  datatype Item = Item(path: seq<Name>, node: Node)

  function Build(items: seq<Item>): Option<seq<Entry>>
  {
    if items == [] then Some([])
    else
      var before, last := Build(items[..|items| - 1]), items[|items| - 1];
      if before.None? then None else Insert(before.value, last.path, last.node)
  }

  /** Distinct, non-empty paths; directories come empty; no file is an ancestor of another member. */
  ghost predicate GoodListing(items: seq<Item>) {
    && (forall i :: 0 <= i < |items| ==>
          items[i].path != [] && (items[i].node.Dir? ==> items[i].node.entries == []))
    && (forall i, j :: 0 <= i < j < |items| ==> items[i].path != items[j].path)
    && (forall i, j :: 0 <= i < |items| && 0 <= j < |items| && items[i].node.File? ==> !(items[i].path < items[j].path))
  }

  ghost predicate IsFileAt(items: seq<Item>, q: seq<Name>, i: int) {
    0 <= i < |items| && items[i].path == q && items[i].node.File?
  }

  ghost predicate IsOnTheWay(items: seq<Item>, q: seq<Name>, i: int) {
    0 <= i < |items| && q <= items[i].path
  }

  /** A listed file shows its bytes, a listed directory or an ancestor of anything listed shows as a
      directory, and nothing else is there. */
  ghost function Listed(items: seq<Item>, q: seq<Name>): Seen {
    if exists i :: IsFileAt(items, q, i) then var i :| IsFileAt(items, q, i); AFile(items[i].node.data)
    else if exists i :: IsOnTheWay(items, q, i) then ADir
    else Nothing
  }

  lemma ListedFile(items: seq<Item>, q: seq<Name>, i: nat)
    requires GoodListing(items) && IsFileAt(items, q, i)
    ensures Listed(items, q) == AFile(items[i].node.data)
  {
  }

  lemma GoodInit(items: seq<Item>, last: Item)
    requires GoodListing(items + [last])
    ensures GoodListing(items)
    ensures last.path != [] && forall i :: 0 <= i < |items| ==> items[i].path != last.path
    ensures forall i :: 0 <= i < |items| ==> (last.node.File? ==> !(last.path < items[i].path))
    ensures forall i :: 0 <= i < |items| ==> (items[i].node.File? ==> !(items[i].path < last.path))
  {
    var all := items + [last];
    assert forall i :: 0 <= i < |items| ==> all[i] == items[i];
    assert all[|items|] == last;
  }

  /** How one more member changes what a listing shows. */
  lemma ListedAppend(items: seq<Item>, last: Item, q: seq<Name>)
    requires q != [] && GoodListing(items + [last])
    ensures GoodListing(items)
    ensures Listed(items + [last], q) ==
      if q < last.path then ADir
      else if q == last.path && Listed(items, q) == Nothing then SeenOf(last.node)
      else Listed(items, q)
  {
    GoodInit(items, last);
    hide GoodListing;
    var all, n := items + [last], |items|;
    assert forall i :: 0 <= i < n ==> all[i] == items[i];
    assert all[n] == last;
    if q == last.path && last.node.File? {
      assert IsFileAt(all, q, n);
      ListedFile(all, q, n);
      assert forall i :: !IsFileAt(items, q, i) && !IsOnTheWay(items, q, i);
    } else if i :| IsFileAt(items, q, i) {
      assert IsFileAt(all, q, i);
      ListedFile(all, q, i);
      ListedFile(items, q, i);
    } else {
      assert forall i :: IsFileAt(all, q, i) ==> IsFileAt(items, q, i);
      if q <= last.path {
        assert IsOnTheWay(all, q, n);
      }
      if i :| IsOnTheWay(items, q, i) {
        assert IsOnTheWay(all, q, i);
      }
      assert forall i :: IsOnTheWay(all, q, i) && i < n ==> IsOnTheWay(items, q, i);
    }
  }

  lemma {:induction false} BuildSucceeds(items: seq<Item>)
    requires GoodListing(items)
    ensures Build(items).Some?
    decreases |items|, 0
  {
    if items != [] {
      var init, last := items[..|items| - 1], items[|items| - 1];
      assert items == init + [last];
      GoodInit(init, last);
      BuildSucceeds(init);
      InsertFailsIff(Build(init).value, last.path, last.node);
      forall k | 0 < k < |last.path|
        ensures !Look(Build(init).value, last.path[..k]).AFile?
      {
        var q := last.path[..k];
        BuildLook(init, q);
        assert q < last.path;
        assert forall i :: !IsFileAt(init, q, i);
      }
    }
  }

  /** Whatever the order of the members, and whether or not parents are listed, the tree built from a
      good listing shows at every path exactly what is listed there. */
  lemma {:induction false} BuildLook(items: seq<Item>, q: seq<Name>)
    requires GoodListing(items) && q != []
    ensures Build(items).Some? && Look(Build(items).value, q) == Listed(items, q)
    decreases |items|, 1
  {
    BuildSucceeds(items);
    if items == [] {
      LookEmpty(q);
    } else {
      var init, last := items[..|items| - 1], items[|items| - 1];
      assert items == init + [last];
      ListedAppend(init, last, q);
      ListedAppend(init, last, last.path);
      BuildLook(init, q);
      BuildLook(init, last.path);
      InsertLook(Build(init).value, last.path, last.node, q);
    }
  }

  // ---- listings that are not good ----

  /** Names on every path, and directories come empty. */
  predicate Shaped(items: seq<Item>) {
    forall i :: 0 <= i < |items| ==> items[i].path != [] && (items[i].node.Dir? ==> items[i].node.entries == [])
  }

  /** The first item at or below a path. */
  function First(items: seq<Item>, q: seq<Name>): (r: Option<nat>)
    ensures r.Some? ==> r.value < |items| && q <= items[r.value].path
    ensures r.Some? ==> forall i :: 0 <= i < r.value ==> !(q <= items[i].path)
    ensures r.None? ==> forall i :: 0 <= i < |items| ==> !(q <= items[i].path)
  {
    if items == [] then None
    else
      var n := |items| - 1;
      var init := items[..n];
      assert forall i :: 0 <= i < n ==> init[i] == items[i];
      var r := First(init, q);
      if r.Some? then r else if q <= items[n].path then Some(n) else None
  }

  /** What that item makes of the path: itself if it is there, a directory if it is below. */
  function FirstSeen(items: seq<Item>, q: seq<Name>): Seen {
    var r := First(items, q);
    if r.None? then Nothing
    else if items[r.value].path == q then SeenOf(items[r.value].node)
    else ADir
  }

  lemma ShapedInit(items: seq<Item>)
    requires items != [] && Shaped(items)
    ensures var n := |items| - 1;
      Shaped(items[..n]) && items[n].path != [] && (items[n].node.Dir? ==> items[n].node.entries == [])
  {
  }

  lemma FirstSeenStep(items: seq<Item>, q: seq<Name>)
    requires items != []
    ensures var n := |items| - 1;
      FirstSeen(items, q) ==
        if First(items[..n], q).Some? then FirstSeen(items[..n], q)
        else if q == items[n].path then SeenOf(items[n].node)
        else if q < items[n].path then ADir
        else Nothing
    ensures FirstSeen(items, q) == Nothing <==> First(items, q).None?
  {
  }

  /** Whatever is listed, in whatever order, twice or not: the first item at or below a path decides what
      shows there. */
  lemma {:induction false} FirstDecides(items: seq<Item>, q: seq<Name>)
    requires Shaped(items) && Build(items).Some? && q != []
    ensures Look(Build(items).value, q) == FirstSeen(items, q)
    decreases |items|
  {
    if items == [] {
      LookEmpty(q);
    } else {
      var n := |items| - 1;
      var init, last := items[..n], items[n];
      ShapedInit(items);
      hide Look, Insert, Shaped, First, FirstSeen;
      FirstDecides(init, q);
      InsertLook(Build(init).value, last.path, last.node, q);
      InsertFailsIff(Build(init).value, last.path, last.node);
      assert q < last.path ==> q == last.path[..|q|] && 0 < |q| < |last.path|;
      FirstSeenStep(items, q);
      if init == [] { NoItems(q); } else { FirstSeenStep(init, q); }
      if q < last.path && First(init, q).Some? { SeenBelow(init, q); }
    }
  }

  lemma NoItems(q: seq<Name>)
    ensures First([], q) == None && FirstSeen([], q) == Nothing
  {
  }

  lemma SeenBelow(items: seq<Item>, q: seq<Name>)
    requires First(items, q).Some?
    ensures FirstSeen(items, q) == ADir || FirstSeen(items, q).AFile?
  {
  }

  /** Item i lies below a path at which the items before it show a file. */
  ghost predicate Blocked(items: seq<Item>, i: int) {
    0 <= i < |items| && exists k :: 0 < k < |items[i].path| && FirstSeen(items[..i], items[i].path[..k]).AFile?
  }

  /** Inserting a whole listing panics exactly if some item lies below a path at which the first of the
      items before it, at or below that path, was a file. */
  lemma {:induction false} BuildFailsIff(items: seq<Item>)
    requires Shaped(items)
    ensures Build(items).None? <==> exists i :: Blocked(items, i)
    decreases |items|
  {
    hide First, FirstSeen, Look, Insert;
    if items == [] {
      assert forall i :: !Blocked(items, i);
    } else {
      var n := |items| - 1;
      var init, last := items[..n], items[n];
      ShapedInit(items);
      BuildFailsIff(init);
      forall i | 0 <= i < n
        ensures Blocked(init, i) <==> Blocked(items, i)
      {
        assert init[i] == items[i] && init[..i] == items[..i];
      }
      if Build(init).Some? {
        InsertFailsIff(Build(init).value, last.path, last.node);
        forall k | 0 < k < |last.path|
          ensures Look(Build(init).value, last.path[..k]) == FirstSeen(init, last.path[..k])
        {
          FirstDecides(init, last.path[..k]);
        }
        assert Blocked(items, n) <==> Build(items).None?;
      }
    }
  }
}

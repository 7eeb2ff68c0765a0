/** What listing a directory shows: the names of its entries, in the order the archive first mentions them. */
module Readdir {
  import opened Wrappers
  import opened DirTree
  import opened Listing
  import opened Ustar
  import opened ArchiveRoundTrip

  /** `readdir` */
  function Names(entries: seq<Entry>): (r: seq<Name>)
    ensures |r| == |entries| && forall i :: 0 <= i < |r| ==> r[i] == entries[i].name
  {
    seq(|entries|, i requires 0 <= i < |entries| => entries[i].name)
  }

  /** The names listed at a path, [] being the root: none where there is no directory. */
  function NamesAt(entries: seq<Entry>, q: seq<Name>): seq<Name>
    decreases |q|
  {
    if q == [] then Names(entries)
    else
      var at := Find(entries, q[0]);
      if at.None? || entries[at.value].node.File? then []
      else NamesAt(entries[at.value].node.entries, q[1..])
  }

  /** They are the names in the directory that a walk along the path finds. */
  lemma {:induction false} NamesAtWalk(entries: seq<Entry>, q: seq<Name>)
    requires q != []
    ensures var found := Walk(entries, q);
      NamesAt(entries, q) == if found.Some? && found.value.Dir? then Names(found.value.entries) else []
    decreases |q|
  {
    var at := Find(entries, q[0]);
    if at.Some? && entries[at.value].node.Dir? && |q| > 1 {
      NamesAtWalk(entries[at.value].node.entries, q[1..]);
    }
  }

  /** The name an inserted path adds to the listing of q: its next component, if that is a new name there, or
      a file's own. */
  function Added(shown: seq<Name>, path: seq<Name>, isFile: bool, q: seq<Name>): seq<Name> {
    if q < path && (path[|q|] !in shown || (isFile && |path| == |q| + 1)) then [path[|q|]] else []
  }

  lemma NamesOfEmpty(q: seq<Name>)
    ensures NamesAt([], q) == []
  {
  }

  lemma NamesAppend(entries: seq<Entry>, e: Entry)
    ensures Names(entries + [e]) == Names(entries) + [e.name]
  {
  }

  lemma NamesReplaced(entries: seq<Entry>, i: nat, e: Entry)
    requires i < |entries| && e.name == entries[i].name
    ensures Names(entries[i := e]) == Names(entries)
  {
  }

  lemma FindIsListed(entries: seq<Entry>, name: Name)
    ensures Find(entries, name).Some? <==> name in Names(entries)
  {
    if name in Names(entries) {
      var i :| 0 <= i < |entries| && Names(entries)[i] == name;
      assert entries[i].name == name;
    }
  }

  lemma NamesStep(entries: seq<Entry>, q: seq<Name>)
    requires q != []
    ensures var at := Find(entries, q[0]);
      NamesAt(entries, q) ==
        if at.None? || entries[at.value].node.File? then [] else NamesAt(entries[at.value].node.entries, q[1..])
  {
  }

  /** What an insertion changes in the listing of every directory. */
  lemma {:induction false} InsertNames(entries: seq<Entry>, path: seq<Name>, node: Node, q: seq<Name>)
    requires path != [] && (node.Dir? ==> node.entries == []) && Insert(entries, path, node).Some?
    ensures NamesAt(Insert(entries, path, node).value, q) ==
      NamesAt(entries, q) + Added(NamesAt(entries, q), path, node.File?, q)
    decreases |path|
  {
    hide NamesAt, Find;
    var after, at := Insert(entries, path, node).value, Find(entries, path[0]);
    if q == [] {
      InsertAtRoot(entries, path, node);
    } else {
      NamesStep(after, q);
      NamesStep(entries, q);
      assert q < path ==> q[0] == path[0] && |path| > 1;
      assert |path| > 1 && q[0] == path[0] ==> (q < path <==> q[1..] < path[1..]) by {
        if q[0] == path[0] { assert q == [q[0]] + q[1..] && path == [path[0]] + path[1..]; }
      }
      if |path| == 1 {
        FindAppend(entries, Entry(path[0], node), q[0]);
        NamesOfEmpty(q[1..]);
      } else if at.None? {
        FindAppend(entries, Entry(path[0], Dir(Insert([], path[1..], node).value)), q[0]);
        InsertNames([], path[1..], node, q[1..]);
        NamesOfEmpty(q[1..]);
      } else {
        var sub := entries[at.value].node.entries;
        FindReplaced(entries, at.value, Entry(path[0], Dir(Insert(sub, path[1..], node).value)), q[0]);
        if q[0] == path[0] { InsertNames(sub, path[1..], node, q[1..]); }
      }
    }
  }

  lemma InsertAtRoot(entries: seq<Entry>, path: seq<Name>, node: Node)
    requires path != [] && Insert(entries, path, node).Some?
    ensures NamesAt(Insert(entries, path, node).value, []) ==
      NamesAt(entries, []) + Added(NamesAt(entries, []), path, node.File?, [])
  {
    var at := Find(entries, path[0]);
    FindIsListed(entries, path[0]);
    if |path| == 1 {
      NamesAppend(entries, Entry(path[0], node));
    } else if at.None? {
      NamesAppend(entries, Entry(path[0], Dir(Insert([], path[1..], node).value)));
    } else {
      NamesReplaced(entries, at.value, Entry(path[0], Dir(Insert(entries[at.value].node.entries, path[1..], node).value)));
    }
  }

  /** The listing of q that a list of items makes, item by item. */
  function Children(items: seq<Item>, q: seq<Name>): seq<Name> {
    if items == [] then []
    else
      var last, before := items[|items| - 1], Children(items[..|items| - 1], q);
      before + Added(before, last.path, last.node.File?, q)
  }

  lemma {:induction false} BuildNames(items: seq<Item>, q: seq<Name>)
    requires Shaped(items) && Build(items).Some?
    ensures NamesAt(Build(items).value, q) == Children(items, q)
  {
    if items == [] {
      NamesOfEmpty(q);
    } else {
      hide NamesAt, Insert, Added;
      var n := |items| - 1;
      ShapedInit(items);
      BuildNames(items[..n], q);
      InsertNames(Build(items[..n]).value, items[n].path, items[n].node, q);
    }
  }

  /** For any bytes that parse: every directory lists what the members, one after the other, add to it. */
  lemma ParsedNames(data: seq<Byte>, q: seq<Name>)
    requires InsertAll([], Members(data)).Some?
    ensures NamesAt(InsertAll([], Members(data)).value, q) == Children(Members(data), q)
  {
    hide Members, NamesAt, Children;
    MembersShaped(data);
    InsertAllIsBuild(Members(data));
    BuildNames(Members(data), q);
  }

  /** A name is listed exactly if something at or below it is in the archive. */
  lemma {:induction false} ListedIff(items: seq<Item>, q: seq<Name>, name: Name)
    ensures name in Children(items, q) <==> exists i :: 0 <= i < |items| && q + [name] <= items[i].path
  {
    if items != [] {
      var n := |items| - 1;
      var init, last := items[..n], items[n];
      ListedIff(init, q, name);
      assert forall i :: 0 <= i < n ==> init[i] == items[i];
      assert q + [name] <= last.path <==> q < last.path && last.path[|q|] == name;
    }
  }

  predicate Distinct(names: seq<Name>) {
    forall i, j :: 0 <= i < j < |names| ==> names[i] != names[j]
  }

  /** A file's name is new where it is listed. */
  lemma FileIsNew(items: seq<Item>, file: Item, q: seq<Name>)
    requires GoodListing(items + [file]) && file.node.File? && q < file.path && |file.path| == |q| + 1
    ensures file.path[|q|] !in Children(items, q)
  {
    hide Children;
    GoodInit(items, file);
    ListedIff(items, q, file.path[|q|]);
    assert q + [file.path[|q|]] == file.path;
    assert forall i :: 0 <= i < |items| ==> !(file.path <= items[i].path);
  }

  /** In a good listing no name is listed twice. */
  lemma {:induction false} ListedOnce(items: seq<Item>, q: seq<Name>)
    requires GoodListing(items)
    ensures Distinct(Children(items, q))
  {
    hide GoodListing, Distinct;
    if items == [] {
      NoNames();
    } else {
      var n := |items| - 1;
      var init, last := items[..n], items[n];
      assert items == init + [last];
      GoodInit(init, last);
      ListedOnce(init, q);
      if q < last.path && last.node.File? && |last.path| == |q| + 1 { FileIsNew(init, last, q); }
      var before := Children(init, q);
      if Added(before, last.path, last.node.File?, q) == [] {
        assert before + [] == before;
      } else {
        OneMoreName(before, last.path[|q|]);
      }
    }
  }

  lemma NoNames()
    ensures Distinct([])
  {
  }

  lemma OneMoreName(names: seq<Name>, name: Name)
    requires Distinct(names) && name !in names
    ensures Distinct(names + [name])
  {
  }

  /** Write any members with distinct paths, none below a file: each directory lists each of its children once,
      and nothing else. */
  lemma ArchiveLists(ms: seq<Member>, tail: seq<Byte>, q: seq<Name>)
    requires GoodMembers(ms) && GoodListing(Items(ms))
    ensures InsertAll([], Members(Archive(ms, tail))).Some?
    ensures var names := NamesAt(InsertAll([], Members(Archive(ms, tail))).value, q);
      && Distinct(names)
      && forall name :: name in names <==> exists i :: 0 <= i < |ms| && q + [name] <= ms[i].path
  {
    hide Members, NamesAt, Children, GoodMember, Distinct, Archive, GoodListing, InsertAll, Build;
    FillersFit(ms);
    MembersRoundTrip(ms, tail);
    InsertAllIsBuild(Items(ms));
    BuildSucceeds(Items(ms));
    ParsedNames(Archive(ms, tail), q);
    ListedOnce(Items(ms), q);
    forall name
      ensures name in Children(Items(ms), q) <==> exists i :: 0 <= i < |ms| && q + [name] <= ms[i].path
    {
      ListedIff(Items(ms), q, name);
    }
  }
}

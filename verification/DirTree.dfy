/** The directory tree the archive parser builds, and the walk that looks paths up in it. */
module DirTree {
  import opened Wrappers
  import opened Paths

  type Byte = b: int | 0 <= b < 256
  type Name = seq<Byte>

  const SLASH: Byte := 47

  datatype Node = File(data: seq<Byte>) | Dir(entries: seq<Entry>)
  datatype Entry = Entry(name: Name, node: Node)

  /** The position of the first entry of that name. */
  function Find(entries: seq<Entry>, name: Name): (r: Option<nat>)
    ensures r.Some? ==> r.value < |entries| && entries[r.value].name == name
    ensures r.Some? ==> forall i :: 0 <= i < r.value ==> entries[i].name != name
    ensures r.None? ==> forall i :: 0 <= i < |entries| ==> entries[i].name != name
  {
    if entries == [] then None
    else if entries[0].name == name then Some(0)
    else
      var r := Find(entries[1..], name);
      if r.None? then None else assert forall i :: 1 <= i < |entries| ==> entries[i] == entries[1..][i - 1]; Some(r.value + 1)
  }

  /** Put a node at a path, making directories on the way. None is the panic of a file found where
      a directory is needed. */
  function Insert(entries: seq<Entry>, parts: seq<Name>, node: Node): Option<seq<Entry>>
    decreases |parts|
  {
    if parts == [] then Some(entries)
    else
      var at := Find(entries, parts[0]);
      if |parts| == 1 then
        if node.Dir? && at.Some? then Some(entries) else Some(entries + [Entry(parts[0], node)])
      else if at.None? then
        var sub := Insert([], parts[1..], node);
        if sub.None? then None else Some(entries + [Entry(parts[0], Dir(sub.value))])
      else if entries[at.value].node.File? then None
      else
        var sub := Insert(entries[at.value].node.entries, parts[1..], node);
        if sub.None? then None else Some(entries[at.value := Entry(parts[0], Dir(sub.value))])
  }

  /** Follow a path from a directory: at each step the first entry of the name. */
  function Walk(entries: seq<Entry>, parts: seq<Name>): Option<Node>
    requires parts != []
    decreases |parts|
  {
    var at := Find(entries, parts[0]);
    if at.None? then None
    else if |parts| == 1 then Some(entries[at.value].node)
    else if entries[at.value].node.File? then None
    else Walk(entries[at.value].node.entries, parts[1..])
  }

  /** What a caller can tell about a path: nothing there, a file with its bytes, or a directory. */
  datatype Seen = Nothing | AFile(data: seq<Byte>) | ADir

  function SeenOf(node: Node): Seen {
    match node case File(data) => AFile(data) case Dir(_) => ADir
  }

  function Look(entries: seq<Entry>, parts: seq<Name>): Seen
    requires parts != []
  {
    var r := Walk(entries, parts);
    if r.None? then Nothing else SeenOf(r.value)
  }

  lemma {:induction false} FindAppend(entries: seq<Entry>, e: Entry, name: Name)
    ensures Find(entries + [e], name) ==
      if Find(entries, name).Some? then Find(entries, name)
      else if e.name == name then Some(|entries|) else None
  {
    if entries == [] {
      assert (entries + [e])[1..] == [];
    } else {
      assert (entries + [e])[1..] == entries[1..] + [e];
      FindAppend(entries[1..], e, name);
    }
  }

  lemma FindReplaced(entries: seq<Entry>, i: nat, e: Entry, name: Name)
    requires i < |entries| && e.name == entries[i].name
    ensures Find(entries[i := e], name) == Find(entries, name)
  {
    var after := entries[i := e];
    assert forall j :: 0 <= j < |entries| ==> after[j].name == entries[j].name;
    FindByNames(after, entries, name);
  }

  lemma {:induction false} FindByNames(a: seq<Entry>, b: seq<Entry>, name: Name)
    requires |a| == |b| && forall j :: 0 <= j < |a| ==> a[j].name == b[j].name
    ensures Find(a, name) == Find(b, name)
  {
    if a != [] {
      FindByNames(a[1..], b[1..], name);
    }
  }

  lemma LookStep(entries: seq<Entry>, parts: seq<Name>)
    requires parts != []
    ensures var at := Find(entries, parts[0]);
      Look(entries, parts) ==
        if at.None? then Nothing
        else if |parts| == 1 then SeenOf(entries[at.value].node)
        else if entries[at.value].node.File? then Nothing
        else Look(entries[at.value].node.entries, parts[1..])
  {
  }

  lemma {:induction false} LookEmpty(parts: seq<Name>)
    requires parts != []
    ensures Look([], parts) == Nothing
  {
  }

  /** What an insertion changes, for every path: the directories on the way are there, the node is
      there if nothing was there before, and every other path shows what it showed. */
  lemma {:induction false} InsertLook(entries: seq<Entry>, parts: seq<Name>, node: Node, q: seq<Name>)
    requires parts != [] && q != [] && (node.Dir? ==> node.entries == [])
    requires Insert(entries, parts, node).Some?
    ensures Look(Insert(entries, parts, node).value, q) ==
      if q < parts then ADir
      else if q == parts && Look(entries, parts) == Nothing then SeenOf(node)
      else Look(entries, q)
    decreases |parts|
  {
    var after := Insert(entries, parts, node).value;
    var at := Find(entries, parts[0]);
    LookStep(after, q);
    LookStep(entries, q);
    LookStep(entries, parts);
    if |parts| == 1 {
      FindAppend(entries, Entry(parts[0], node), q[0]);
      if |q| > 1 { LookEmpty(q[1..]); }
      assert q == parts <==> |q| == 1 && q[0] == parts[0];
    } else {
      assert q[0] == parts[0] && |q| > 1 ==> (q < parts <==> q[1..] < parts[1..]) && (q == parts <==> q[1..] == parts[1..]) by {
        if q[0] == parts[0] { assert q == [q[0]] + q[1..] && parts == [parts[0]] + parts[1..]; }
      }
      if at.None? {
        FindAppend(entries, Entry(parts[0], Dir(Insert([], parts[1..], node).value)), q[0]);
        if |q| > 1 {
          InsertLook([], parts[1..], node, q[1..]);
          LookEmpty(q[1..]);
        }
        LookEmpty(parts[1..]);
      } else {
        var sub := entries[at.value].node.entries;
        FindReplaced(entries, at.value, Entry(parts[0], Dir(Insert(sub, parts[1..], node).value)), q[0]);
        if |q| > 1 && q[0] == parts[0] {
          InsertLook(sub, parts[1..], node, q[1..]);
        }
      }
    }
  }

  /** An insertion panics exactly if a proper ancestor of the path is a file. */
  lemma {:induction false} InsertFailsIff(entries: seq<Entry>, parts: seq<Name>, node: Node)
    ensures Insert(entries, parts, node).None? <==> exists k :: 0 < k < |parts| && Look(entries, parts[..k]).AFile?
    decreases |parts|
  {
    if |parts| > 1 {
      var at := Find(entries, parts[0]);
      var sub := if at.Some? && entries[at.value].node.Dir? then entries[at.value].node.entries else [];
      InsertFailsIff(sub, parts[1..], node);
      forall k | 0 < k < |parts|
        ensures Look(entries, parts[..k]) ==
          if at.None? then Nothing
          else if k == 1 then SeenOf(entries[at.value].node)
          else if entries[at.value].node.File? then Nothing
          else Look(sub, parts[1..][..k - 1])
      {
        LookStep(entries, parts[..k]);
        assert parts[..k][1..] == parts[1..][..k - 1];
      }
      forall k | 0 < k < |parts[1..]|
        ensures at.None? ==> Look(sub, parts[1..][..k]) == Nothing
        ensures at.Some? && entries[at.value].node.Dir? ==> Look(sub, parts[1..][..k]) == Look(entries, parts[..k + 1])
      {
        if at.None? { LookEmpty(parts[1..][..k]); }
      }
      if at.Some? && entries[at.value].node.File? {
        assert Look(entries, parts[..1]).AFile?;
      }
    }
  }
}

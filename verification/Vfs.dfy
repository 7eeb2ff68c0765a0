/** The mounted file system: a root that is set once and absolute path lookup from it. */
module Vfs {
  import opened Wrappers
  import opened Paths
  import opened DirTree
  import opened Listing
  import opened Ustar
  import opened ArchiveRoundTrip

  /** What `lookup` answers: the empty path is refused, everything else is a walk from the root. */
  function Lookup(root: Option<Node>, path: seq<Byte>): Option<Node> {
    var parts := Components(path, SLASH);
    if root.None? || parts == [] || root.value.File? then None else Walk(root.value.entries, parts)
  }

  /** One step of the walk: a directory's first entry of the name; a file has no entries. */
  function Child(node: Node, name: Name): Option<Node> {
    if node.File? || Find(node.entries, name).None? then None
    else Some(node.entries[Find(node.entries, name).value].node)
  }

  class FileSystem {
    var root: Option<Node>

    constructor ()
      ensures root == None
    {
      root := None;
    }

    method Mount(node: Node)
      modifies this
      ensures root == Some(node)
    {
      root := Some(node);
    }

    method LookupPath(path: seq<Byte>) returns (r: Option<Node>)
      ensures r == Lookup(root, path)
      ensures root == None ==> r == None
    {
      if root.None? { return None; }
      var parts := Components(path, SLASH);
      if parts == [] { return None; }
      r := Child(root.value, parts[0]);
      if r.None? { return; }
      var current := r.value;
      for i := 1 to |parts|
        invariant root.value.Dir?
        invariant Walk(root.value.entries, parts) == Onward(current, parts[i..])
      {
        r := Child(current, parts[i]);
        if r.None? { return; }
        current := r.value;
        assert parts[i..][1..] == parts[i + 1..];
      }
      r := Some(current);
    }
  }

  /** The rest of a walk that has reached a node. */
  function Onward(node: Node, parts: seq<Name>): Option<Node> {
    if parts == [] then Some(node) else if node.File? then None else Walk(node.entries, parts)
  }

  /** What lookup tells about a path written as text, once an archive has been parsed and mounted. */
  lemma MountedArchive(ms: seq<Member>, tail: seq<Byte>, path: seq<Byte>)
    requires GoodMembers(ms) && GoodListing(Items(ms))
    ensures InsertAll([], Members(Archive(ms, tail))).Some?
    ensures var root := Some(Dir(InsertAll([], Members(Archive(ms, tail))).value));
      var q := Components(path, SLASH);
      var found := Lookup(root, path);
      if q == [] then found == None
      else (if found.None? then Nothing else SeenOf(found.value)) == Listed(Items(ms), q)
  {
    var q := Components(path, SLASH);
    ArchiveShows(ms, tail, if q == [] then [[DOT]] else q);
  }
}

/**
 The virtio-fs inode table and name lookup (src/fs.rs:115-148 and 377-406).
 A path is its sequence of components; what the host file system answers is a
 parameter of each call, so it may differ from call to call.
 */
module Inodes {
  import opened Primitives
  import opened Text

  type Name = seq<byte>
  type Path = seq<Name>

  const ROOT_ID: u64 := 1
  const SLASH: byte := 0x2F
  const DOT: byte := 0x2E

  /** What `symlink_metadata` says about a path. */
  datatype Node = Node(symlink: bool, directory: bool)

  datatype Table = Table(next: u64, byId: map<u64, Path>, byPath: map<Path, u64>)

  predicate Plain(name: Name) {
    name != [] && name != [DOT] && name != [DOT, DOT] && SLASH !in name
  }

  predicate StartsWith(path: Path, root: Path) {
    root <= path
  }

  /** The root extended by plain components. */
  predicate Under(root: Path, path: Path) {
    root <= path && forall i :: |root| <= i < |path| ==> Plain(path[i])
  }

  predicate AllUnder(root: Path, paths: seq<Path>) {
    forall i :: 0 <= i < |paths| ==> Under(root, paths[i])
  }

  // ---------------------------------------------------------------- the table

  function Fresh(root: Path): Table {
    Table(ROOT_ID + 1, map[ROOT_ID := root], map[root := ROOT_ID])
  }

  predicate Exhausted(t: Table) {
    t.next == U64_LIMIT - 1
  }

  /** `id_for_path` on values. */
  function Intern(t: Table, path: Path): Table {
    if path in t.byPath || Exhausted(t) then t
    else Table(t.next + 1, t.byId[t.next := path], t.byPath[path := t.next])
  }

  function InternAll(t: Table, paths: seq<Path>): Table {
    if paths == [] then t else Intern(InternAll(t, paths[..|paths| - 1]), paths[|paths| - 1])
  }

  /**
   The two maps are inverse to each other, exactly the ids from the root's up to
   `next` are taken, and every stored path is the root or lies under it.
   */
  ghost predicate Consistent(root: Path, t: Table) {
    && t.next > ROOT_ID
    && (forall id :: id in t.byId <==> ROOT_ID <= id < t.next)
    && (forall id :: id in t.byId ==> t.byId[id] in t.byPath && t.byPath[t.byId[id]] == id)
    && (forall path :: path in t.byPath ==> t.byPath[path] in t.byId && t.byId[t.byPath[path]] == path)
    && t.byId[ROOT_ID] == root
    && (forall id :: id in t.byId ==> Under(root, t.byId[id]))
  }

  /** Nothing that was handed out changes. */
  ghost predicate Extends(t: Table, t': Table) {
    && t.next <= t'.next
    && (forall id :: id in t.byId ==> id in t'.byId && t'.byId[id] == t.byId[id])
    && (forall path :: path in t.byPath ==> path in t'.byPath && t'.byPath[path] == t.byPath[path])
  }

  /** Some sequence of `id_for_path` calls, each for a path under the root, leads from t to t'. */
  ghost predicate Reaches(root: Path, t: Table, t': Table) {
    exists paths :: AllUnder(root, paths) && InternAll(t, paths) == t'
  }

  lemma InternKeeps(root: Path, t: Table, path: Path)
    requires Consistent(root, t) && Under(root, path)
    ensures Consistent(root, Intern(t, path)) && Extends(t, Intern(t, path))
    ensures path in Intern(t, path).byPath <==> path in t.byPath || t.next < 0xFFFF_FFFF_FFFF_FFFF
    ensures path !in t.byPath && t.next < 0xFFFF_FFFF_FFFF_FFFF ==> Intern(t, path).byPath[path] == t.next
  {
  }

  lemma {:induction false} InternAllKeeps(root: Path, t: Table, paths: seq<Path>)
    requires Consistent(root, t) && AllUnder(root, paths)
    ensures Consistent(root, InternAll(t, paths)) && Extends(t, InternAll(t, paths))
    decreases |paths|
  {
    if paths != [] {
      var rest := paths[..|paths| - 1];
      InternAllKeeps(root, t, rest);
      InternKeeps(root, InternAll(t, rest), paths[|paths| - 1]);
    }
  }

  lemma {:induction false} InternAllConcat(t: Table, first: seq<Path>, second: seq<Path>)
    ensures InternAll(t, first + second) == InternAll(InternAll(t, first), second)
    decreases |second|
  {
    if second == [] {
      assert first + second == first;
    } else {
      var rest := second[..|second| - 1];
      InternAllConcat(t, first, rest);
      assert (first + second)[..|first + second| - 1] == first + rest;
    }
  }

  lemma ReachesKeeps(root: Path, t: Table, t': Table)
    requires Consistent(root, t) && Reaches(root, t, t')
    ensures Consistent(root, t') && Extends(t, t')
  {
    var paths :| AllUnder(root, paths) && InternAll(t, paths) == t';
    InternAllKeeps(root, t, paths);
  }

  lemma ReachesSelf(root: Path, t: Table)
    ensures Reaches(root, t, t)
  {
    assert AllUnder(root, []) && InternAll(t, []) == t;
  }

  lemma ReachesAll(root: Path, t: Table, paths: seq<Path>)
    requires AllUnder(root, paths)
    ensures Reaches(root, t, InternAll(t, paths))
  {
  }

  lemma ReachesIntern(root: Path, t: Table, path: Path)
    requires Under(root, path)
    ensures Reaches(root, t, Intern(t, path))
  {
    var paths := [path];
    assert paths[..|paths| - 1] == [];
    assert InternAll(t, []) == t;
    ReachesAll(root, t, paths);
  }

  lemma ReachesTransitive(root: Path, t: Table, t': Table, t'': Table)
    requires Reaches(root, t, t') && Reaches(root, t', t'')
    ensures Reaches(root, t, t'')
  {
    var first :| AllUnder(root, first) && InternAll(t, first) == t';
    var second :| AllUnder(root, second) && InternAll(t', second) == t'';
    InternAllConcat(t, first, second);
    assert AllUnder(root, first + second) && InternAll(t, first + second) == t'';
  }

  /** A new table knows the root, as FUSE's inode 1, and nothing else. */
  lemma FreshConsistent(root: Path)
    ensures Consistent(root, Fresh(root))
    ensures Fresh(root) == Table(2, map[1 := root], map[root := 1])
  {
  }

  /**
   Over any run of table operations from a new table: every state is consistent,
   and an id or a path that any state knows means the same in every later one.
   Two paths never share an id, across the whole run.
   */
  lemma IdsForever(root: Path, run: seq<Table>, i: nat, j: nat)
    requires |run| > 0 && run[0] == Fresh(root)
    requires forall k :: 0 <= k < |run| - 1 ==> Reaches(root, run[k], run[k + 1])
    requires i <= j < |run|
    ensures Consistent(root, run[i]) && Consistent(root, run[j]) && Extends(run[i], run[j])
    ensures forall id, id' :: id in run[i].byId && id' in run[j].byId ==>
      (run[i].byId[id] == run[j].byId[id'] <==> id == id')
  {
    FreshConsistent(root);
    RunReaches(root, run, 0, i);
    ReachesKeeps(root, run[0], run[i]);
    RunReaches(root, run, i, j);
    ReachesKeeps(root, run[i], run[j]);
  }

  lemma {:induction false} RunReaches(root: Path, run: seq<Table>, i: nat, j: nat)
    requires forall k :: 0 <= k < |run| - 1 ==> Reaches(root, run[k], run[k + 1])
    requires i <= j < |run|
    ensures Reaches(root, run[i], run[j])
    decreases j - i
  {
    if i == j {
      ReachesSelf(root, run[i]);
    } else {
      RunReaches(root, run, i, j - 1);
      assert Reaches(root, run[j - 1], run[j - 1 + 1]);
      ReachesTransitive(root, run[i], run[j - 1], run[j]);
    }
  }

  // ---------------------------------------------------------------- the class

  /** A lookup name: NUL-terminated, UTF-8, one plain component. */
  predicate GoodName(payload: seq<byte>) {
    && payload != [] && payload[|payload| - 1] == 0
    && Utf8(payload[..|payload| - 1]) && Plain(payload[..|payload| - 1])
  }

  /** The names `lookup` takes: text, not empty, not "." or "..", without "/", and a NUL behind it. */
  lemma GoodNames(payload: seq<byte>)
    ensures GoodName(payload) <==>
      && payload != [] && payload[|payload| - 1] == 0
      && var name := payload[..|payload| - 1];
      && name !in {[], [0x2E], [0x2E, 0x2E]} && 0x2F !in name
      && exists text :: AllScalars(text) && EncodeText(text) == name
  {
    if payload != [] {
      Utf8Exactly(payload[..|payload| - 1]);
    }
  }

  class FsInodes {
    const root: Path
    var next: u64
    var byId: map<u64, Path>
    var byPath: map<Path, u64>

    ghost predicate Valid()
      reads this
    {
      Consistent(root, Contents())
    }

    ghost function Contents(): Table
      reads this
    {
      Table(next, byId, byPath)
    }

    constructor (root: Path)
      ensures this.root == root && Valid() && Contents() == Fresh(root)
    {
      this.root := root;
      next, byId, byPath := ROOT_ID + 1, map[ROOT_ID := root], map[root := ROOT_ID];
    }

    method IdForPath(path: Path) returns (r: Result<u64>)
      requires Valid() && Under(root, path)
      modifies this
      ensures Valid() && Contents() == Intern(old(Contents()), path)
      ensures r.Ok? <==> path in byPath
      ensures r.Ok? ==> r.value == byPath[path] && r.value in byId && byId[r.value] == path
      ensures r.Err? ==> Exhausted(Contents()) && Contents() == old(Contents())
    {
      InternKeeps(root, Contents(), path);
      if path in byPath {
        return Ok(byPath[path]);
      }
      var id := next;
      if next == U64_LIMIT - 1 {
        return Err(InvalidLayout("virtio-fs inode id overflow"));
      }
      next := next + 1;
      byId := byId[id := path];
      byPath := byPath[path := id];
      return Ok(id);
    }

    /** Other workers use the table whenever this one does not hold its lock. */
    method Others()
      requires Valid()
      modifies this
      ensures Valid() && Reaches(root, old(Contents()), Contents())
    {
      var paths: seq<Path> := *;
      ReachesSelf(root, Contents());
      if AllUnder(root, paths) {
        InternAllKeeps(root, Contents(), paths);
        ReachesAll(root, Contents(), paths);
        var t := InternAll(Table(next, byId, byPath), paths);
        next, byId, byPath := t.next, t.byId, t.byPath;
      }
    }

    /**
     `lookup_reply` up to the reply's layout. It succeeds exactly when the name is
     one plain component of a known parent, the host finds something there that
     is not a symbolic link, and an id is left; a failure changes nothing.
     */
    method Lookup(parent: u64, payload: seq<byte>, host: map<Path, Node>) returns (r: Result<(u64, Node)>)
      requires Valid()
      modifies this
      ensures Valid() && Reaches(root, old(Contents()), Contents())
      ensures r.Ok? <==>
        && GoodName(payload) && parent in old(byId)
        && var path := old(byId)[parent] + [payload[..|payload| - 1]];
        && path in host && !host[path].symlink
        && (path in old(byPath) || old(next) < 0xFFFF_FFFF_FFFF_FFFF)
      ensures r.Ok? ==>
        var name := payload[..|payload| - 1];
        name !in {[], [0x2E], [0x2E, 0x2E]} && 0x2F !in name && payload == name + [0]
      ensures r.Ok? ==>
        var path := old(byId)[parent] + [payload[..|payload| - 1]];
        && Contents() == Intern(old(Contents()), path) && path in byPath
        && r.value == (byPath[path], host[path]) && Under(root, path)
      ensures r.Err? ==> Contents() == old(Contents())
    {
      ReachesSelf(root, Contents());
      assert parent in byId ==> Under(root, byId[parent]);
      hide Utf8, Consistent, Reaches;
      if payload == [] || payload[|payload| - 1] != 0 {
        return Err(Malformed("FUSE_LOOKUP name is not NUL terminated"));
      }
      var name := payload[..|payload| - 1];
      if !Utf8(name) {
        return Err(Malformed("FUSE_LOOKUP name is not UTF-8"));
      }
      if name == [] || name == [DOT] || name == [DOT, DOT] || SLASH in name {
        return Err(Malformed("unsafe FUSE_LOOKUP name"));
      }
      if parent !in byId {
        return Err(Malformed("unknown FUSE parent inode"));
      }
      var path := byId[parent] + [name];
      assert Under(root, byId[parent]) && Plain(name) && Under(root, path);
      if path !in host {
        return Err(Io);
      }
      if host[path].symlink || !StartsWith(path, root) {
        return Err(Malformed("virtio-fs symlink is not supported"));
      }
      ReachesIntern(root, Contents(), path);
      var id := IdForPath(path);
      if id.Err? {
        return Err(id.error);
      }
      return Ok((id.value, host[path]));
    }
  }
}

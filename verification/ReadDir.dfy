/**
 FUSE_READDIR (src/fs.rs:479-540 and 574-597): the directory records, the loop
 that fills one page, and what a guest sees that pages through a directory. The
 order in which the host lists a directory is a parameter.
 */
module ReadDir {
  import opened Primitives
  import opened LittleEndian
  import opened Inodes
  import opened Text

  const RECORD_HEADER := 24
  const KIND_DIRECTORY: u32 := 4
  const KIND_FILE: u32 := 8

  // ----------------------------------------------------------------- records

  datatype Record = Record(ino: u64, offset: u64, name: Name, kind: u32)

  predicate Short(name: Name) {
    |name| < U32_LIMIT
  }

  /** A record's length: header and name, padded to eight bytes. */
  function Padded(name: nat): nat {
    (RECORD_HEADER + name + 7) / 8 * 8
  }

  function Zeros(n: nat): (bytes: seq<byte>)
    ensures |bytes| == n
  {
    seq(n, i => 0)
  }

  /** `dirent` */
  function Dirent(r: Record): (bytes: seq<byte>)
    requires Short(r.name)
    ensures |bytes| == Padded(|r.name|) >= RECORD_HEADER + |r.name|
  {
    Encode(r.ino, 8) + Encode(r.offset, 8) + Encode(|r.name|, 4) + Encode(r.kind, 4) + r.name
    + Zeros(Padded(|r.name|) - RECORD_HEADER - |r.name|)
  }

  ghost predicate AllShort(records: seq<Record>) {
    forall i :: 0 <= i < |records| ==> Short(records[i].name)
  }

  ghost function Page(records: seq<Record>): seq<byte>
    requires AllShort(records)
  {
    if records == [] then [] else Page(records[..|records| - 1]) + Dirent(records[|records| - 1])
  }

  /** How a guest takes a page apart. */
  function Parse(page: seq<byte>): Option<seq<Record>>
    decreases |page|
  {
    if page == [] then Some([])
    else if |page| < RECORD_HEADER then None
    else
      var length := DecodeU32(page[16..20]);
      if |page| < Padded(length) then None
      else
        var first := Record(DecodeU64(page[0..8]), DecodeU64(page[8..16]),
                            page[RECORD_HEADER..RECORD_HEADER + length], DecodeU32(page[20..24]));
        match Parse(page[Padded(length)..])
        case Some(rest) => Some([first] + rest)
        case None => None
  }

  lemma {:induction false} PageCons(records: seq<Record>)
    requires AllShort(records) && records != []
    ensures Page(records) == Dirent(records[0]) + Page(records[1..])
    decreases |records|
  {
    var front, last := records[..|records| - 1], records[|records| - 1];
    if front == [] {
      assert records[1..] == [] && records == [last];
      assert Page(front) == [];
    } else {
      PageCons(front);
      assert records[1..][..|records[1..]| - 1] == front[1..];
      assert Page(records[1..]) == Page(front[1..]) + Dirent(last);
    }
  }

  /** Where `Parse` finds the fields of the first record of a page. */
  lemma DirentFields(r: Record, rest: seq<byte>)
    requires Short(r.name)
    ensures var page := Dirent(r) + rest;
      && page[0..8] == Encode(r.ino, 8) && page[8..16] == Encode(r.offset, 8)
      && page[16..20] == Encode(|r.name|, 4) && page[20..24] == Encode(r.kind, 4)
      && page[RECORD_HEADER..RECORD_HEADER + |r.name|] == r.name
      && page[Padded(|r.name|)..] == rest
  {
  }

  /** A record's bytes: four numbers, the name, and zeros up to a multiple of eight. */
  lemma DirentFormat(r: Record)
    requires Short(r.name)
    ensures var b := Dirent(r);
      && |b| % 8 == 0 && 24 + |r.name| <= |b| < 32 + |r.name|
      && b[0..8] == Encode(r.ino, 8) && b[8..16] == Encode(r.offset, 8)
      && b[16..20] == Encode(|r.name|, 4) && b[20..24] == Encode(r.kind, 4)
      && b[24..24 + |r.name|] == r.name
      && forall i :: 24 + |r.name| <= i < |b| ==> b[i] == 0
  {
    DirentFields(r, []);
    assert Dirent(r) + [] == Dirent(r);
  }

  /** Every page decodes to exactly the records it was made of. */
  lemma {:induction false} ParsePage(records: seq<Record>)
    requires AllShort(records)
    ensures Parse(Page(records)) == Some(records)
    decreases |records|
  {
    if records != [] {
      var r := records[0];
      PageCons(records);
      DirentFields(r, Page(records[1..]));
      Limits();
      DecodeEncode(r.ino, 8);
      DecodeEncode(r.offset, 8);
      DecodeEncode(|r.name|, 4);
      DecodeEncode(r.kind, 4);
      ParsePage(records[1..]);
      assert records == [r] + records[1..];
    }
  }

  // ----------------------------------------------------------------- listing

  /** One item of the host's `read_dir`: an error, or a name and what `symlink_metadata` says. */
  datatype Entry = Broken | Entry(name: Name, node: Option<Node>)

  predicate Shown(e: Entry) {
    e.Entry? && e.node.Some? && !e.node.value.symlink
  }

  /** No reason for the whole page to fail. */
  predicate Fine(e: Entry) {
    e.Entry? && e.node.Some? && (Shown(e) ==> Utf8(e.name) && Short(e.name))
  }

  predicate Clean(listing: seq<Entry>) {
    forall i :: 0 <= i < |listing| ==> Fine(listing[i])
  }

  /** `read_dir` yields plain names, and fewer than a counter can count. */
  predicate Listable(listing: seq<Entry>) {
    |listing| < U64_LIMIT && forall i :: 0 <= i < |listing| ==> listing[i].Entry? ==> Plain(listing[i].name)
  }

  function Size(e: Entry): nat
    requires Shown(e)
  {
    Padded(|e.name|)
  }

  /** The entries one page holds: from the requested offset on, while they fit. */
  ghost function Taken(listing: seq<Entry>, i: nat, offset: nat, maximum: nat, used: nat): seq<nat>
    decreases |listing| - i
  {
    if i >= |listing| then []
    else if i < offset || !Shown(listing[i]) then Taken(listing, i + 1, offset, maximum, used)
    else if used + Size(listing[i]) > maximum then []
    else [i] + Taken(listing, i + 1, offset, maximum, used + Size(listing[i]))
  }

  /** What makes `readdir` fail when it meets an entry; before the offset it only lists. */
  predicate Trouble(e: Entry, skipped: bool) {
    e.Broken? || (!skipped && (e.node.None? || (!e.node.value.symlink && !(Utf8(e.name) && Short(e.name)))))
  }

  /** The loop comes to entry `i`: everything shown from the offset up to it fits the page. */
  ghost predicate Met(listing: seq<Entry>, i: nat, offset: nat, maximum: nat) {
    && i < |listing|
    && forall j :: offset <= j < i && Shown(listing[j]) ==> j in Taken(listing, 0, offset, maximum, 0)
  }

  ghost predicate Hindered(listing: seq<Entry>, offset: nat, maximum: nat) {
    exists i: nat :: Met(listing, i, offset, maximum) && Trouble(listing[i], i < offset)
  }

  ghost predicate Known(byPath: map<Path, u64>, dir: Path, listing: seq<Entry>, i: nat) {
    i < |listing| < U64_LIMIT && Shown(listing[i]) && Fine(listing[i]) && dir + [listing[i].name] in byPath
  }

  ghost predicate AllKnown(byPath: map<Path, u64>, dir: Path, listing: seq<Entry>, taken: seq<nat>) {
    forall k :: 0 <= k < |taken| ==> Known(byPath, dir, listing, taken[k])
  }

  /** An entry's record: its id in the table, the offset behind it, its name and kind. */
  ghost function RecordOf(byPath: map<Path, u64>, dir: Path, listing: seq<Entry>, i: nat): Record
    requires Known(byPath, dir, listing, i)
  {
    var e := listing[i];
    Record(byPath[dir + [e.name]], i + 1, e.name, if e.node.value.directory then KIND_DIRECTORY else KIND_FILE)
  }

  /** Directories are of type 4 and files of type 8, and the offset is where the next page starts. */
  lemma RecordFormat(byPath: map<Path, u64>, dir: Path, listing: seq<Entry>, i: nat)
    requires Known(byPath, dir, listing, i)
    ensures var r, e := RecordOf(byPath, dir, listing, i), listing[i];
      && r.kind == (if e.node.value.directory then 4 else 8) && r.offset == i + 1
      && r.name == e.name && r.ino == byPath[dir + [e.name]]
  {
  }

  ghost function Records(byPath: map<Path, u64>, dir: Path, listing: seq<Entry>, taken: seq<nat>): (rs: seq<Record>)
    requires AllKnown(byPath, dir, listing, taken)
    ensures AllShort(rs)
  {
    seq(|taken|, k requires 0 <= k < |taken| => RecordOf(byPath, dir, listing, taken[k]))
  }

  lemma RecordsKept(t: Table, t': Table, dir: Path, listing: seq<Entry>, taken: seq<nat>)
    requires AllKnown(t.byPath, dir, listing, taken) && Extends(t, t')
    ensures AllKnown(t'.byPath, dir, listing, taken)
    ensures Records(t'.byPath, dir, listing, taken) == Records(t.byPath, dir, listing, taken)
  {
    forall k | 0 <= k < |taken|
      ensures Known(t'.byPath, dir, listing, taken[k])
      ensures RecordOf(t'.byPath, dir, listing, taken[k]) == RecordOf(t.byPath, dir, listing, taken[k])
    {
      assert Known(t.byPath, dir, listing, taken[k]);
      var path := dir + [listing[taken[k]].name];
      assert path in t.byPath;
    }
  }

  lemma PageSnoc(byPath: map<Path, u64>, dir: Path, listing: seq<Entry>, taken: seq<nat>, i: nat)
    requires AllKnown(byPath, dir, listing, taken) && Known(byPath, dir, listing, i)
    ensures AllKnown(byPath, dir, listing, taken + [i])
    ensures Page(Records(byPath, dir, listing, taken + [i])) ==
      Page(Records(byPath, dir, listing, taken)) + Dirent(RecordOf(byPath, dir, listing, i))
  {
    forall k | 0 <= k < |taken + [i]| ensures Known(byPath, dir, listing, (taken + [i])[k]) {
      if k < |taken| {
        assert Known(byPath, dir, listing, taken[k]);
      }
    }
    var rs := Records(byPath, dir, listing, taken + [i]);
    assert rs[..|rs| - 1] == Records(byPath, dir, listing, taken);
  }

  // ------------------------------------------------------------------- a page

  /** What a page says, whatever other workers did to the table meanwhile. */
  ghost predicate Answers(t: Table, dir: Path, listing: seq<Entry>, offset: nat, maximum: nat, page: seq<byte>) {
    var taken := Taken(listing, 0, offset, maximum, 0);
    && AllKnown(t.byPath, dir, listing, taken)
    && page == Page(Records(t.byPath, dir, listing, taken))
    && |page| <= maximum
  }

  /** Nothing among the first `i` stands in the way, and `taken` has everything shown among them. */
  ghost predicate Passed(listing: seq<Entry>, i: nat, offset: nat, taken: seq<nat>) {
    && i <= |listing|
    && (forall j :: 0 <= j < i ==> !Trouble(listing[j], j < offset))
    && (forall j :: offset <= j < i && Shown(listing[j]) ==> j in taken)
    && (forall k :: 0 <= k < |taken| ==> taken[k] < i)
  }

  lemma PassedMore(listing: seq<Entry>, i: nat, offset: nat, taken: seq<nat>)
    requires Passed(listing, i, offset, taken) && i < |listing| && !Trouble(listing[i], i < offset)
    ensures i < offset || !Shown(listing[i]) ==> Passed(listing, i + 1, offset, taken)
    ensures Passed(listing, i + 1, offset, taken + [i])
  {
    hide Trouble, Shown;
    forall j | offset <= j < i + 1 && Shown(listing[j]) ensures j in taken + [i] {
      assert j < i ==> j in taken;
      assert (taken + [i])[|taken|] == i;
    }
  }

  /** The loop has turned the first `i` entries into `page`. */
  ghost predicate Filling(t: Table, dir: Path, listing: seq<Entry>, i: nat, offset: nat, maximum: nat,
                          page: seq<byte>, taken: seq<nat>)
  {
    && AllKnown(t.byPath, dir, listing, taken)
    && page == Page(Records(t.byPath, dir, listing, taken))
    && |page| <= maximum
    && Taken(listing, 0, offset, maximum, 0) == taken + Taken(listing, i, offset, maximum, |page|)
    && Passed(listing, i, offset, taken)
  }

  lemma FillingStart(t: Table, dir: Path, listing: seq<Entry>, offset: nat, maximum: nat)
    ensures Filling(t, dir, listing, 0, offset, maximum, [], [])
  {
    assert Page(Records(t.byPath, dir, listing, [])) == [];
    assert [] + Taken(listing, 0, offset, maximum, 0) == Taken(listing, 0, offset, maximum, 0);
  }

  lemma FillingKept(t: Table, t': Table, dir: Path, listing: seq<Entry>, i: nat, offset: nat, maximum: nat,
                    page: seq<byte>, taken: seq<nat>)
    requires Filling(t, dir, listing, i, offset, maximum, page, taken) && Extends(t, t')
    ensures Filling(t', dir, listing, i, offset, maximum, page, taken)
  {
    RecordsKept(t, t', dir, listing, taken);
  }

  /** The loop meets the entry it is at, so trouble there counts. */
  lemma FillingTrouble(t: Table, dir: Path, listing: seq<Entry>, i: nat, offset: nat, maximum: nat,
                       page: seq<byte>, taken: seq<nat>)
    requires Filling(t, dir, listing, i, offset, maximum, page, taken) && i < |listing|
    ensures Trouble(listing[i], i < offset) ==> Hindered(listing, offset, maximum)
  {
    hide Taken, Trouble, Shown;
    assert Met(listing, i, offset, maximum);
  }

  lemma FillingSkip(t: Table, dir: Path, listing: seq<Entry>, i: nat, offset: nat, maximum: nat,
                    page: seq<byte>, taken: seq<nat>)
    requires Filling(t, dir, listing, i, offset, maximum, page, taken)
    requires i < |listing| && (i < offset || !Shown(listing[i])) && !Trouble(listing[i], i < offset)
    ensures Filling(t, dir, listing, i + 1, offset, maximum, page, taken)
  {
    PassedMore(listing, i, offset, taken);
    hide Passed;
  }

  /** The loop stops: at the end, or at a shown entry that does not fit. */
  ghost predicate Stops(listing: seq<Entry>, i: nat, offset: nat, maximum: nat, used: nat) {
    i < |listing| ==>
      && offset <= i && Shown(listing[i]) && !Trouble(listing[i], false)
      && used + Size(listing[i]) > maximum
  }

  lemma FillingDone(t: Table, dir: Path, listing: seq<Entry>, i: nat, offset: nat, maximum: nat,
                    page: seq<byte>, taken: seq<nat>)
    requires Filling(t, dir, listing, i, offset, maximum, page, taken) && Stops(listing, i, offset, maximum, |page|)
    ensures Answers(t, dir, listing, offset, maximum, page) && !Hindered(listing, offset, maximum)
  {
    assert Taken(listing, i, offset, maximum, |page|) == [];
    assert taken + [] == taken;
    NoneMet(listing, i, offset, maximum, |page|);
  }

  lemma NoneMet(listing: seq<Entry>, i: nat, offset: nat, maximum: nat, used: nat)
    requires Passed(listing, i, offset, Taken(listing, 0, offset, maximum, 0))
    requires Stops(listing, i, offset, maximum, used)
    ensures !Hindered(listing, offset, maximum)
  {
    hide Taken, Trouble, Shown;
    forall j: nat | Met(listing, j, offset, maximum) ensures !Trouble(listing[j], j < offset) {
      assert j <= i;
    }
  }

  lemma KnownFine(byPath: map<Path, u64>, dir: Path, listing: seq<Entry>, i: nat)
    requires Known(byPath, dir, listing, i)
    ensures !Trouble(listing[i], false)
  {
  }

  lemma FillingMore(t: Table, dir: Path, listing: seq<Entry>, i: nat, offset: nat, maximum: nat,
                    page: seq<byte>, taken: seq<nat>)
    requires Filling(t, dir, listing, i, offset, maximum, page, taken)
    requires offset <= i && Known(t.byPath, dir, listing, i) && |page| + Size(listing[i]) <= maximum
    ensures Filling(t, dir, listing, i + 1, offset, maximum,
                    page + Dirent(RecordOf(t.byPath, dir, listing, i)), taken + [i])
  {
    hide Dirent, Padded, Page, Records, Taken, Passed, Utf8, Trouble;
    KnownFine(t.byPath, dir, listing, i);
    PassedMore(listing, i, offset, taken);
    PageSnoc(t.byPath, dir, listing, taken, i);
    TakenMore(listing, i, offset, maximum, |page|, taken);
    assert |Dirent(RecordOf(t.byPath, dir, listing, i))| == Size(listing[i]);
  }

  lemma TakenMore(listing: seq<Entry>, i: nat, offset: nat, maximum: nat, used: nat, taken: seq<nat>)
    requires offset <= i < |listing| && Shown(listing[i]) && used + Size(listing[i]) <= maximum
    ensures taken + Taken(listing, i, offset, maximum, used) ==
      taken + [i] + Taken(listing, i + 1, offset, maximum, used + Size(listing[i]))
  {
    hide Padded, Shown;
    var rest := Taken(listing, i + 1, offset, maximum, used + Size(listing[i]));
    assert Taken(listing, i, offset, maximum, used) == [i] + rest;
    assert taken + ([i] + rest) == taken + [i] + rest;
  }

  /** The id and record of one entry; other workers run before and after the lock is held. */
  method MakeRecord(inodes: FsInodes, dir: Path, listing: seq<Entry>, i: nat) returns (r: Result<seq<byte>>)
    requires inodes.Valid() && Under(inodes.root, dir) && Listable(listing)
    requires i < |listing| && Shown(listing[i]) && Utf8(listing[i].name)
    modifies inodes
    ensures inodes.Valid() && Reaches(inodes.root, old(inodes.Contents()), inodes.Contents())
    ensures r.Ok? ==>
      && Known(inodes.byPath, dir, listing, i)
      && r.value == Dirent(RecordOf(inodes.byPath, dir, listing, i))
    ensures r.Ok? ==> Short(listing[i].name) && |r.value| == Size(listing[i])
    ensures r.Err? ==> !Short(listing[i].name) || Exhausted(inodes.Contents())
  {
    ghost var t0 := inodes.Contents();
    inodes.Others();
    ghost var t1 := inodes.Contents();
    var e := listing[i];
    var path := dir + [e.name];
    assert Plain(e.name) && Under(inodes.root, path);
    ReachesIntern(inodes.root, t1, path);
    ReachesTransitive(inodes.root, t0, t1, Intern(t1, path));
    var id := inodes.IdForPath(path);
    ghost var t2 := inodes.Contents();
    if id.Err? {
      return Err(id.error);
    }
    inodes.Others();
    ReachesTransitive(inodes.root, t0, t2, inodes.Contents());
    ReachesKeeps(inodes.root, t2, inodes.Contents());
    if !Short(e.name) {
      return Err(Malformed("directory name too long"));
    }
    r := Ok(Dirent(Record(id.value, i + 1, e.name, if e.node.value.directory then KIND_DIRECTORY else KIND_FILE)));
  }

  /** What the loop keeps: the table has only grown since `start`, and `page` is what it says so far. */
  ghost predicate Serving(inodes: FsInodes, start: Table, dir: Path, listing: seq<Entry>, i: nat,
                          offset: nat, maximum: nat, page: seq<byte>, taken: seq<nat>)
    reads inodes
  {
    && inodes.Valid() && Reaches(inodes.root, start, inodes.Contents())
    && Filling(inodes.Contents(), dir, listing, i, offset, maximum, page, taken)
  }

  /** What the loop comes to. */
  ghost predicate Replied(inodes: FsInodes, start: Table, dir: Path, listing: seq<Entry>, offset: nat, maximum: nat,
                          r: Result<seq<byte>>)
    reads inodes
  {
    && inodes.Valid() && Reaches(inodes.root, start, inodes.Contents())
    && match r
       case Ok(page) =>
         Answers(inodes.Contents(), dir, listing, offset, maximum, page) && !Hindered(listing, offset, maximum)
       case Err(_) => Hindered(listing, offset, maximum) || Exhausted(inodes.Contents())
  }

  /** One turn of the loop: `None` to go on, or the reply. */
  method AddEntry(inodes: FsInodes, ghost start: Table, dir: Path, listing: seq<Entry>, i: nat,
                  offset: nat, maximum: nat, entries: seq<byte>, ghost taken: seq<nat>)
    returns (reply: Option<Result<seq<byte>>>, entries': seq<byte>, ghost taken': seq<nat>)
    requires Serving(inodes, start, dir, listing, i, offset, maximum, entries, taken)
    requires Under(inodes.root, dir) && Listable(listing) && i < |listing|
    modifies inodes
    ensures reply.None? ==> Serving(inodes, start, dir, listing, i + 1, offset, maximum, entries', taken')
    ensures reply.Some? ==> Replied(inodes, start, dir, listing, offset, maximum, reply.value)
  {
    hide Consistent, Reaches, Filling, Answers, Hindered, Utf8, Dirent, Padded, Extends;
    entries', taken' := entries, taken;
    ghost var before := inodes.Contents();
    FillingTrouble(before, dir, listing, i, offset, maximum, entries, taken);
    var e := listing[i];
    if e.Broken? {
      return Some(Err(Io)), entries', taken';
    }
    if i < offset {
      FillingSkip(before, dir, listing, i, offset, maximum, entries, taken);
      return None, entries', taken';
    }
    if e.node.None? {
      return Some(Err(Io)), entries', taken';
    }
    if e.node.value.symlink {
      FillingSkip(before, dir, listing, i, offset, maximum, entries, taken);
      return None, entries', taken';
    }
    if !Utf8(e.name) {
      return Some(Err(Malformed("non-UTF-8 virtio-fs name"))), entries', taken';
    }
    var record := MakeRecord(inodes, dir, listing, i);
    ReachesTransitive(inodes.root, start, before, inodes.Contents());
    if record.Err? {
      return Some(Err(record.error)), entries', taken';
    }
    ReachesKeeps(inodes.root, before, inodes.Contents());
    FillingKept(before, inodes.Contents(), dir, listing, i, offset, maximum, entries, taken);
    if |entries| + |record.value| > maximum {
      FillingDone(inodes.Contents(), dir, listing, i, offset, maximum, entries, taken);
      return Some(Ok(entries)), entries', taken';
    }
    FillingMore(inodes.Contents(), dir, listing, i, offset, maximum, entries, taken);
    return None, entries + record.value, taken + [i];
  }

  /** The loop of `readdir_reply`. */
  method FillPage(inodes: FsInodes, dir: Path, listing: seq<Entry>, offset: nat, maximum: nat)
    returns (r: Result<seq<byte>>)
    requires inodes.Valid() && Under(inodes.root, dir) && Listable(listing)
    modifies inodes
    ensures Replied(inodes, old(inodes.Contents()), dir, listing, offset, maximum, r)
  {
    var entries: seq<byte> := [];
    ghost var start := inodes.Contents();
    ghost var taken: seq<nat> := [];
    ReachesSelf(inodes.root, start);
    FillingStart(start, dir, listing, offset, maximum);
    var index := 0;
    while index < |listing|
      invariant 0 <= index <= |listing|
      invariant Serving(inodes, start, dir, listing, index, offset, maximum, entries, taken)
    {
      hide Serving, Replied;
      var reply;
      reply, entries, taken := AddEntry(inodes, start, dir, listing, index, offset, maximum, entries, taken);
      if reply.Some? {
        return reply.value;
      }
      index := index + 1;
    }
    FillingDone(inodes.Contents(), dir, listing, index, offset, maximum, entries, taken);
    return Ok(entries);
  }

  /**
   `readdir_reply`. `host` holds the listing of every path that is a readable
   directory. That a stored path lies under the root needs no check.
   */
  method ReaddirReply(inodes: FsInodes, node: u64, payload: seq<byte>, host: map<Path, seq<Entry>>)
    returns (r: Result<seq<byte>>)
    requires inodes.Valid() && forall path :: path in host ==> Listable(host[path])
    modifies inodes
    ensures inodes.Valid() && Reaches(inodes.root, old(inodes.Contents()), inodes.Contents())
    ensures r.Ok? ==>
      && |payload| >= 24 && node in old(inodes.byId) && old(inodes.byId)[node] in host
      && var dir := old(inodes.byId)[node];
      && Answers(inodes.Contents(), dir, host[dir], DecodeU64(payload[8..16]), DecodeU32(payload[16..20]), r.value)
      && !Hindered(host[dir], DecodeU64(payload[8..16]), DecodeU32(payload[16..20]))
    ensures r.Err? ==>
      || |payload| < 24 || node !in old(inodes.byId) || old(inodes.byId)[node] !in host
      || Hindered(host[old(inodes.byId)[node]], DecodeU64(payload[8..16]), DecodeU32(payload[16..20]))
      || Exhausted(inodes.Contents())
  {
    ReachesSelf(inodes.root, inodes.Contents());
    if |payload| < 24 {
      return Err(Malformed("short FUSE_READDIR request"));
    }
    var offset, maximum := DecodeU64(payload[8..16]), DecodeU32(payload[16..20]);
    if node !in inodes.byId {
      return Err(Malformed("unknown FUSE inode"));
    }
    var path := inodes.byId[node];
    if !StartsWith(path, inodes.root) || path !in host {
      return Err(Malformed("FUSE_READDIR inode is not a directory"));
    }
    r := FillPage(inodes, path, host[path], offset, maximum);
  }

  // ------------------------------------------------------------------- paging

  /** The shown entries from `i` on. */
  ghost function ShownFrom(listing: seq<Entry>, i: nat): seq<nat>
    decreases |listing| - i
  {
    if i >= |listing| then []
    else (if Shown(listing[i]) then [i] else []) + ShownFrom(listing, i + 1)
  }

  /** The shown entries from `i` on, up to the first whose record exceeds a whole page. */
  ghost function Reachable(listing: seq<Entry>, i: nat, maximum: nat): seq<nat>
    decreases |listing| - i
  {
    if i >= |listing| then []
    else if !Shown(listing[i]) then Reachable(listing, i + 1, maximum)
    else if Size(listing[i]) > maximum then []
    else [i] + Reachable(listing, i + 1, maximum)
  }

  /** Shown entries, each once and in order. */
  lemma {:induction false} ShownFromExact(listing: seq<Entry>, i: nat)
    ensures forall j :: j in ShownFrom(listing, i) <==> i <= j < |listing| && Shown(listing[j])
    ensures forall k, l :: 0 <= k < l < |ShownFrom(listing, i)| ==> ShownFrom(listing, i)[k] < ShownFrom(listing, i)[l]
    decreases |listing| - i
  {
    if i < |listing| {
      ShownFromExact(listing, i + 1);
      var rest := ShownFrom(listing, i + 1);
      assert forall k :: 0 <= k < |rest| ==> rest[k] in rest;
    }
  }

  ghost predicate AllFit(listing: seq<Entry>, i: nat, maximum: nat) {
    forall j :: i <= j < |listing| && Shown(listing[j]) ==> Size(listing[j]) <= maximum
  }

  lemma {:induction false} ReachableAll(listing: seq<Entry>, i: nat, maximum: nat)
    ensures Reachable(listing, i, maximum) == ShownFrom(listing, i) <==> AllFit(listing, i, maximum)
    ensures |Reachable(listing, i, maximum)| <= |ShownFrom(listing, i)|
    decreases |listing| - i
  {
    if i < |listing| {
      ReachableAll(listing, i + 1, maximum);
      var rest, all := Reachable(listing, i + 1, maximum), ShownFrom(listing, i + 1);
      if Shown(listing[i]) && Size(listing[i]) <= maximum {
        assert ([i] + rest)[1..] == rest && ([i] + all)[1..] == all;
        assert AllFit(listing, i, maximum) <==> AllFit(listing, i + 1, maximum);
      } else if Shown(listing[i]) {
        assert Reachable(listing, i, maximum) == [] && i in ShownFrom(listing, i);
      } else {
        assert AllFit(listing, i, maximum) <==> AllFit(listing, i + 1, maximum);
      }
    }
  }

  lemma {:induction false} TakenSkips(listing: seq<Entry>, i: nat, offset: nat, maximum: nat)
    requires i <= offset
    ensures Taken(listing, i, offset, maximum, 0) == Taken(listing, offset, offset, maximum, 0)
    decreases offset - i
  {
    if i < offset {
      TakenSkips(listing, i + 1, offset, maximum);
    }
  }

  /** What is reachable from `i` is what was taken, then what is reachable behind it. */
  ghost predicate Continues(listing: seq<Entry>, i: nat, maximum: nat, taken: seq<nat>) {
    && taken != [] && i <= taken[|taken| - 1] < |listing|
    && Reachable(listing, i, maximum) == taken + Reachable(listing, taken[|taken| - 1] + 1, maximum)
  }

  lemma ContinuesCons(listing: seq<Entry>, i: nat, maximum: nat, rest: seq<nat>)
    requires i < |listing| && Shown(listing[i]) && Size(listing[i]) <= maximum
    requires rest == [] || Continues(listing, i + 1, maximum, rest)
    ensures Continues(listing, i, maximum, [i] + rest)
  {
    hide Padded, Shown;
    if rest != [] {
      var behind := Reachable(listing, rest[|rest| - 1] + 1, maximum);
      assert [i] + (rest + behind) == [i] + rest + behind;
    }
  }

  /** A page stops only where the next one starts, and an empty page only where no page goes on. */
  lemma {:induction false} TakenThenRest(listing: seq<Entry>, i: nat, offset: nat, maximum: nat, used: nat)
    requires offset <= i
    ensures var taken := Taken(listing, i, offset, maximum, used);
      && (taken != [] ==> Continues(listing, i, maximum, taken))
      && (taken == [] && used == 0 ==> Reachable(listing, i, maximum) == [])
    decreases |listing| - i
  {
    hide Padded, Shown;
    if i < |listing| {
      if !Shown(listing[i]) {
        TakenThenRest(listing, i + 1, offset, maximum, used);
      } else if used + Size(listing[i]) <= maximum {
        hide Continues;
        TakenThenRest(listing, i + 1, offset, maximum, used + Size(listing[i]));
        ContinuesCons(listing, i, maximum, Taken(listing, i + 1, offset, maximum, used + Size(listing[i])));
      }
    }
  }

  lemma PageThenRest(listing: seq<Entry>, offset: nat, maximum: nat)
    ensures var taken := Taken(listing, 0, offset, maximum, 0);
      && (taken != [] ==>
           && offset <= taken[|taken| - 1] < |listing|
           && Reachable(listing, offset, maximum) == taken + Reachable(listing, taken[|taken| - 1] + 1, maximum))
      && (taken == [] ==> Reachable(listing, offset, maximum) == [])
  {
    TakenSkips(listing, 0, offset, maximum);
    TakenThenRest(listing, offset, offset, maximum, 0);
  }

  /** One request of a guest paging through a directory: the table afterwards, the offset, the reply. */
  datatype Call = Call(table: Table, offset: nat, page: seq<byte>)

  /** The guest resumes behind the last record it decoded, until a page is empty. */
  ghost predicate Session(dir: Path, listing: seq<Entry>, maximum: nat, calls: seq<Call>) {
    Paging(dir, listing, maximum, calls) && calls[|calls| - 1].page == []
  }

  /** The guest resumes behind the last record it decoded, for as long as it likes. */
  ghost predicate Paging(dir: Path, listing: seq<Entry>, maximum: nat, calls: seq<Call>) {
    && calls != []
    && (forall k :: 0 <= k < |calls| ==>
         Answers(calls[k].table, dir, listing, calls[k].offset, maximum, calls[k].page))
    && (forall k :: 0 <= k < |calls| - 1 ==> Follows(calls[k], calls[k + 1]))
  }

  ghost predicate Follows(c: Call, d: Call) {
    && Extends(c.table, d.table)
    && var records := Parse(c.page);
    && records.Some? && records.value != [] && d.offset == records.value[|records.value| - 1].offset
  }

  /** Everything the guest decoded, in order. */
  ghost function Decoded(calls: seq<Call>): seq<Record> {
    if calls == [] then []
    else (match Parse(calls[0].page) case Some(records) => records case None => []) + Decoded(calls[1..])
  }

  /** The offset strictly rises from page to page, and never passes the end. */
  lemma Progress(dir: Path, listing: seq<Entry>, maximum: nat, c: Call, d: Call)
    requires Answers(c.table, dir, listing, c.offset, maximum, c.page) && Follows(c, d)
    ensures c.offset < d.offset <= |listing|
    ensures var taken := Taken(listing, 0, c.offset, maximum, 0);
      && taken != [] && d.offset == taken[|taken| - 1] + 1
      && Parse(c.page) == Some(Records(c.table.byPath, dir, listing, taken))
  {
    var taken := Taken(listing, 0, c.offset, maximum, 0);
    var records := Records(c.table.byPath, dir, listing, taken);
    ParsePage(records);
    PageThenRest(listing, c.offset, maximum);
    assert Known(c.table.byPath, dir, listing, taken[|taken| - 1]);
  }

  lemma EmptyPage(dir: Path, listing: seq<Entry>, maximum: nat, c: Call)
    requires Answers(c.table, dir, listing, c.offset, maximum, c.page) && c.page == []
    ensures Parse(c.page) == Some([]) && Reachable(listing, c.offset, maximum) == []
  {
    var records := Records(c.table.byPath, dir, listing, Taken(listing, 0, c.offset, maximum, 0));
    ParsePage(records);
    PageThenRest(listing, c.offset, maximum);
  }

  lemma {:induction false} SessionLater(dir: Path, listing: seq<Entry>, maximum: nat, calls: seq<Call>)
    requires Session(dir, listing, maximum, calls)
    ensures Extends(calls[0].table, calls[|calls| - 1].table)
    decreases |calls|
  {
    if |calls| > 1 {
      assert Follows(calls[0], calls[0 + 1]);
      SessionTail(dir, listing, maximum, calls);
      SessionLater(dir, listing, maximum, calls[1..]);
    }
  }

  lemma SessionTail(dir: Path, listing: seq<Entry>, maximum: nat, calls: seq<Call>)
    requires Session(dir, listing, maximum, calls) && |calls| > 1
    ensures Session(dir, listing, maximum, calls[1..])
  {
    PagingTail(dir, listing, maximum, calls);
  }

  /**
   Paging decodes, from wherever it starts, every entry it can reach exactly once
   and in order, each with the id that the table still gives its path at the end,
   whatever other workers did between the pages.
   */
  lemma {:induction false} SessionDecodes(dir: Path, listing: seq<Entry>, maximum: nat, calls: seq<Call>)
    requires Session(dir, listing, maximum, calls)
    ensures var end := calls[|calls| - 1].table.byPath; var reached := Reachable(listing, calls[0].offset, maximum);
      AllKnown(end, dir, listing, reached) && Decoded(calls) == Records(end, dir, listing, reached)
    decreases |calls|
  {
    if |calls| == 1 {
      EmptyPage(dir, listing, maximum, calls[0]);
      assert Decoded(calls[1..]) == [];
    } else {
      assert Follows(calls[0], calls[0 + 1]);
      SessionTail(dir, listing, maximum, calls);
      SessionDecodes(dir, listing, maximum, calls[1..]);
      SessionLater(dir, listing, maximum, calls);
      SessionStep(dir, listing, maximum, calls[0], calls[1], calls[|calls| - 1].table, Decoded(calls[1..]));
    }
  }

  /** One page in front of what the later ones decode. */
  lemma SessionStep(dir: Path, listing: seq<Entry>, maximum: nat, c: Call, d: Call, end: Table, rest: seq<Record>)
    requires Answers(c.table, dir, listing, c.offset, maximum, c.page) && Follows(c, d) && Extends(c.table, end)
    requires AllKnown(end.byPath, dir, listing, Reachable(listing, d.offset, maximum))
    requires rest == Records(end.byPath, dir, listing, Reachable(listing, d.offset, maximum))
    ensures AllKnown(end.byPath, dir, listing, Reachable(listing, c.offset, maximum))
    ensures Parse(c.page).value + rest == Records(end.byPath, dir, listing, Reachable(listing, c.offset, maximum))
  {
    hide Taken, Reachable, Extends, Parse, Page, Records;
    Progress(dir, listing, maximum, c, d);
    PageThenRest(listing, c.offset, maximum);
    var taken := Taken(listing, 0, c.offset, maximum, 0);
    RecordsKept(c.table, end, dir, listing, taken);
    RecordsConcat(end.byPath, dir, listing, taken, Reachable(listing, d.offset, maximum));
  }

  lemma RecordsConcat(byPath: map<Path, u64>, dir: Path, listing: seq<Entry>, first: seq<nat>, second: seq<nat>)
    requires AllKnown(byPath, dir, listing, first) && AllKnown(byPath, dir, listing, second)
    ensures AllKnown(byPath, dir, listing, first + second)
    ensures Records(byPath, dir, listing, first + second) ==
      Records(byPath, dir, listing, first) + Records(byPath, dir, listing, second)
  {
    var all := first + second;
    forall k | 0 <= k < |all| ensures Known(byPath, dir, listing, all[k]) {
      assert k < |first| ==> Known(byPath, dir, listing, first[k]);
      assert k >= |first| ==> Known(byPath, dir, listing, second[k - |first|]);
    }
  }

  /**
   The whole directory: paging from the start yields every entry that is not a
   symbolic link exactly once and in order if and only if the page size holds
   every single record.
   */
  lemma WholeDirectory(dir: Path, listing: seq<Entry>, maximum: nat, calls: seq<Call>)
    requires Session(dir, listing, maximum, calls) && calls[0].offset == 0
    ensures |Decoded(calls)| <= |ShownFrom(listing, 0)|
    ensures AllFit(listing, 0, maximum) <==>
      && AllKnown(calls[|calls| - 1].table.byPath, dir, listing, ShownFrom(listing, 0))
      && Decoded(calls) == Records(calls[|calls| - 1].table.byPath, dir, listing, ShownFrom(listing, 0))
  {
    var end, all := calls[|calls| - 1].table.byPath, ShownFrom(listing, 0);
    SessionDecodes(dir, listing, maximum, calls);
    ReachableAll(listing, 0, maximum);
    if AllKnown(end, dir, listing, all) && Decoded(calls) == Records(end, dir, listing, all) {
      RecordsDetermine(end, dir, listing, Reachable(listing, 0, maximum), all);
    }
  }

  /** A guest whose pages are too small for the only entry's record gets an empty page at once and misses it. */
  lemma EntryMissed(t: Table, dir: Path, name: Name, maximum: nat)
    requires Plain(name) && Utf8(name) && Short(name) && maximum < Padded(|name|)
    ensures var listing, calls := [Entry(name, Some(Node(false, false)))], [Call(t, 0, [])];
      && Listable(listing) && Clean(listing)
      && Session(dir, listing, maximum, calls) && calls[0].offset == 0
      && ShownFrom(listing, 0) == [0] && Decoded(calls) == []
  {
    var listing, calls := [Entry(name, Some(Node(false, false)))], [Call(t, 0, [])];
    assert Taken(listing, 0, 0, maximum, 0) == [];
    assert Page(Records(t.byPath, dir, listing, [])) == [];
    assert ShownFrom(listing, 1) == [];
    assert calls[1..] == [];
  }

  lemma RecordsDetermine(byPath: map<Path, u64>, dir: Path, listing: seq<Entry>, a: seq<nat>, b: seq<nat>)
    requires AllKnown(byPath, dir, listing, a) && AllKnown(byPath, dir, listing, b)
    requires Records(byPath, dir, listing, a) == Records(byPath, dir, listing, b)
    ensures a == b
  {
    var ra, rb := Records(byPath, dir, listing, a), Records(byPath, dir, listing, b);
    assert |a| == |ra| == |rb| == |b|;
    forall k | 0 <= k < |a| ensures a[k] == b[k] {
      assert ra[k].offset == a[k] + 1 && rb[k].offset == b[k] + 1;
    }
  }

  lemma PagingTail(dir: Path, listing: seq<Entry>, maximum: nat, calls: seq<Call>)
    requires Paging(dir, listing, maximum, calls) && |calls| > 1
    ensures Paging(dir, listing, maximum, calls[1..])
  {
    forall k | 0 <= k < |calls[1..]| - 1 ensures Follows(calls[1..][k], calls[1..][k + 1]) {
      assert Follows(calls[k + 1], calls[k + 1 + 1]);
    }
  }

  /**
   Paging ends: whatever the page size, a guest can go on from page to page at
   most once for every entry behind its first offset; then a page is empty.
   */
  lemma {:induction false} PagingBounded(dir: Path, listing: seq<Entry>, maximum: nat, calls: seq<Call>)
    requires Paging(dir, listing, maximum, calls)
    ensures |calls| - 1 <= if calls[0].offset <= |listing| then |listing| - calls[0].offset else 0
    ensures calls[0].offset <= |listing| && |calls| - 1 == |listing| - calls[0].offset ==>
      calls[|calls| - 1].page == []
    decreases |calls|
  {
    if |calls| > 1 {
      assert Follows(calls[0], calls[0 + 1]);
      Progress(dir, listing, maximum, calls[0], calls[1]);
      PagingTail(dir, listing, maximum, calls);
      PagingBounded(dir, listing, maximum, calls[1..]);
    } else {
      PageThenRest(listing, calls[0].offset, maximum);
    }
  }
}

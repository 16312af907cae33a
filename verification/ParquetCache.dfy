/** A pinned parquet dataset read lazily, row group by row group, through two least-recently-used
    caches, by one thread. A raised exception is the outcome None.
 */
module ParquetCache {
  import opened Wrappers
  import opened OrderedDicts
  import opened ParquetIndex

  const OPEN_FILES: nat := 4

  /** Every cached group is the remote one. */
  ghost predicate Coherent<Row>(files: seq<Shard<Row>>, cache: OrderedDict<Location, seq<Row>>) {
    forall loc :: loc in cache.vals ==> Exists(files, loc) && cache.vals[loc] == GroupAt(files, loc)
  }

  ghost predicate OpenFiles<Row>(files: seq<Shard<Row>>, handles: OrderedDict<nat, Shard<Row>>) {
    forall fi :: fi in handles.vals ==> fi < |files| && handles.vals[fi] == files[fi]
  }

  /** A cache that agrees with the remote files and holds exactly the cap most recently used groups, in
      order of use. */
  ghost predicate GroupCache<Row>(files: seq<Shard<Row>>, cache: OrderedDict<Location, seq<Row>>,
                                  accesses: seq<Location>, cap: nat) {
    cache.Valid() && Coherent(files, cache) && cache.order == Last(Recency(accesses), cap)
  }

  /** The same for the open files. */
  ghost predicate HandleCache<Row>(files: seq<Shard<Row>>, handles: OrderedDict<nat, Shard<Row>>, fileReads: seq<nat>) {
    handles.Valid() && OpenFiles(files, handles) && handles.order == Last(Recency(fileReads), 4)
  }

  /** Inserting a fetched group and evicting the oldest. */
  function Inserted<Row>(cache: OrderedDict<Location, seq<Row>>, loc: Location, rows: seq<Row>,
                         cap: nat): OrderedDict<Location, seq<Row>> {
    Trimmed(cache.Put(loc, rows).MoveToEnd(loc), cap)
  }

  lemma InsertedMeaning<Row>(files: seq<Shard<Row>>, cache: OrderedDict<Location, seq<Row>>, loc: Location, cap: nat)
    requires cache.Valid() && Coherent(files, cache) && loc !in cache.vals && Exists(files, loc)
    ensures var r := Inserted(cache, loc, GroupAt(files, loc), cap);
      r.Valid() && Coherent(files, r) && r.order == Last(cache.order + [loc], cap)
  {
    var put := cache.Put(loc, GroupAt(files, loc));
    PutValid(cache, loc, GroupAt(files, loc));
    MoveToEndValid(put, loc);
    RemoveConcat(cache.order, [loc], loc);
    assert cache.order + [] == cache.order;
    TrimmedMeaning(put.MoveToEnd(loc), cap);
  }

  lemma HitKeeps<Row>(files: seq<Shard<Row>>, cache: OrderedDict<Location, seq<Row>>, accesses: seq<Location>, cap: nat,
                      loc: Location)
    requires GroupCache(files, cache, accesses, cap) && loc in cache.vals
    ensures GroupCache(files, cache.MoveToEnd(loc), accesses + [loc], cap)
  {
    AccessKeepsLru(accesses, cap, loc);
    MoveToEndValid(cache, loc);
  }

  lemma MissKeeps<Row>(files: seq<Shard<Row>>, cache: OrderedDict<Location, seq<Row>>, accesses: seq<Location>,
                       cap: nat, loc: Location)
    requires GroupCache(files, cache, accesses, cap) && loc !in cache.vals && Exists(files, loc)
    ensures GroupCache(files, Inserted(cache, loc, GroupAt(files, loc), cap), accesses + [loc], cap)
  {
    AccessKeepsLru(accesses, cap, loc);
    InsertedMeaning(files, cache, loc, cap);
  }

  lemma ReopenKeeps<Row>(files: seq<Shard<Row>>, handles: OrderedDict<nat, Shard<Row>>, fileReads: seq<nat>, fi: nat)
    requires HandleCache(files, handles, fileReads) && fi in handles.vals
    ensures HandleCache(files, handles.MoveToEnd(fi), fileReads + [fi])
  {
    AccessKeepsLru(fileReads, OPEN_FILES, fi);
    MoveToEndValid(handles, fi);
  }

  lemma OpenKeeps<Row>(files: seq<Shard<Row>>, handles: OrderedDict<nat, Shard<Row>>, fileReads: seq<nat>, fi: nat)
    requires HandleCache(files, handles, fileReads) && fi !in handles.vals && fi < |files|
    ensures HandleCache(files, Opened(handles, fi, files[fi]), fileReads + [fi])
  {
    AccessKeepsLru(fileReads, OPEN_FILES, fi);
    OpenedOrder(handles, fi, files[fi], OPEN_FILES);
    OpenedFiles(files, handles, fi, OPEN_FILES);
  }

  /** At most one file is closed for each one opened. */
  function Opened<Row>(handles: OrderedDict<nat, Shard<Row>>, fi: nat, file: Shard<Row>): OrderedDict<nat, Shard<Row>> {
    DropOne(handles.Put(fi, file), OPEN_FILES)
  }

  function DropOne<Row>(handles: OrderedDict<nat, Shard<Row>>, cap: nat): OrderedDict<nat, Shard<Row>> {
    if |handles.order| > cap then handles.PopOldest() else handles
  }

  lemma OpenedOrder<Row>(handles: OrderedDict<nat, Shard<Row>>, fi: nat, file: Shard<Row>, cap: nat)
    requires handles.Valid() && fi !in handles.vals && |handles.order| <= cap
    ensures DropOne(handles.Put(fi, file), cap).Valid()
    ensures DropOne(handles.Put(fi, file), cap).order == Last(handles.order + [fi], cap)
  {
    var put := handles.Put(fi, file);
    PutValid(handles, fi, file);
    if |put.order| > cap { PopValid(put); }
  }

  lemma OpenedFiles<Row>(files: seq<Shard<Row>>, handles: OrderedDict<nat, Shard<Row>>, fi: nat, cap: nat)
    requires OpenFiles(files, handles) && fi < |files|
    ensures OpenFiles(files, DropOne(handles.Put(fi, files[fi]), cap))
  {
  }

  class VirtualParquetDataset<Row(!new)> {
    const listing: seq<Shard<Row>>
    const cap: nat
    var files: seq<Shard<Row>>
    var manifest: Option<Manifest>
    var cache: OrderedDict<Location, seq<Row>>
    var handles: OrderedDict<nat, Shard<Row>>
    /** The row groups accessed and the files read, in order. */
    ghost var accesses: seq<Location>
    ghost var fileReads: seq<nat>

    /** The pinned table. */
    ghost function Table(): seq<Row> { Flat(Files(listing)) }

    ghost predicate ManifestReady()
      reads this
    {
      manifest.Some? && files == Files(listing) && files != [] && manifest.value == ManifestOf(files)
    }

    ghost predicate Valid()
      reads this
    {
      && (manifest.Some? ==> ManifestReady())
      && GroupCache(Files(listing), cache, accesses, cap)
      && HandleCache(Files(listing), handles, fileReads)
    }

    constructor (remote: seq<Shard<Row>>, cacheRowGroups: nat)
      ensures Valid() && listing == remote && cap == cacheRowGroups && accesses == []
    {
      listing, cap, files, manifest := remote, cacheRowGroups, [], None;
      cache, handles := OrderedDict([], map[]), OrderedDict([], map[]);
      accesses, fileReads := [], [];
    }

    /** Fails when the directory has no parquet file. */
    method EnsureManifest() returns (ok: bool)
      requires Valid()
      modifies `files, `manifest
      ensures Valid() && (ok <==> Files(listing) != []) && (ok ==> ManifestReady())
    {
      if manifest.Some? { return true; }
      var sorted := Files(listing);
      if sorted == [] { return false; }
      var m := BuildManifest(sorted);
      files, manifest := sorted, Some(m);
      return true;
    }

    method Length() returns (r: Option<nat>)
      requires Valid()
      modifies `files, `manifest
      ensures Valid() && r == if Files(listing) == [] then None else Some(|Table()|)
      ensures r.Some? ==> ManifestReady()
    {
      var ok := EnsureManifest();
      if !ok { return None; }
      ManifestDescribes(files);
      return Some(manifest.value.total);
    }

    /** The group a table index lies in and the offset inside it, by bisection. */
    method FindGroup(i: nat) returns (key: Location, off: nat)
      requires ManifestReady() && i < |Table()|
      ensures key == LocationOf(files, i) && Exists(files, key)
      ensures off < |GroupAt(files, key)| && GroupAt(files, key)[off] == Table()[i]
    {
      LocateRight(files, i);
      var m := manifest.value;
      var gi := BisectRight(m.starts, i);
      assert Locate(m, i) == (m.locs[gi - 1], i - m.starts[gi - 1]);
      return m.locs[gi - 1], i - m.starts[gi - 1];
    }

    /** Row idx modulo the length of the table, which holds the files in path order, whatever is cached. */
    method GetRow(idx: int) returns (r: Option<Row>)
      requires Valid()
      modifies this
      ensures Valid() && ListedInOrder(listing, Files(listing))
      ensures r == if |Table()| == 0 then None else Some(Table()[idx % |Table()|])
      ensures accesses == old(accesses) + if |Table()| == 0 then [] else [LocationOf(Files(listing), idx % |Table()|)]
    {
      FilesListed(listing);
      var n := Length();
      if n == None || n.value == 0 { return None; }
      var i := idx % n.value;
      var key, off := FindGroup(i);
      var rows := RowGroup(key);
      return Some(rows[off]);
    }

    /** A group, from the cache or fetched. */
    method RowGroup(key: Location) returns (rows: seq<Row>)
      requires Valid() && ManifestReady() && Exists(files, key)
      modifies `cache, `handles, `accesses, `fileReads
      ensures Valid() && rows == GroupAt(files, key) && accesses == old(accesses) + [key]
      ensures key in old(cache.vals) ==> fileReads == old(fileReads)
    {
      var found := cache.Find(key);
      if found.Some? {
        HitKeeps(files, cache, accesses, cap, key);
        cache := cache.MoveToEnd(key);
        accesses := accesses + [key];
        return found.value;
      }
      rows := FetchRowGroup(key);
      Insert(key, rows);
    }

    method Insert(key: Location, rows: seq<Row>)
      requires GroupCache(files, cache, accesses, cap) && key !in cache.vals && Exists(files, key) &&
        rows == GroupAt(files, key)
      modifies `cache, `accesses
      ensures GroupCache(files, cache, accesses, cap) && accesses == old(accesses) + [key]
    {
      MissKeeps(files, cache, accesses, cap, key);
      PutValid(cache, key, rows);
      MoveToEndValid(cache.Put(key, rows), key);
      cache := Trim(cache.Put(key, rows).MoveToEnd(key), cap);
      accesses := accesses + [key];
    }

    method FetchRowGroup(key: Location) returns (rows: seq<Row>)
      requires ManifestReady() && Exists(files, key)
      requires HandleCache(files, handles, fileReads)
      modifies `handles, `fileReads
      ensures HandleCache(files, handles, fileReads)
      ensures rows == GroupAt(files, key)
    {
      var pf := ParquetFile(key.0);
      return pf.groups[key.1];
    }

    /** An open file, from the handle cache or grown; at most OPEN_FILES stay open. */
    method ParquetFile(fi: nat) returns (pf: Shard<Row>)
      requires ManifestReady() && fi < |files|
      requires HandleCache(files, handles, fileReads)
      modifies `handles, `fileReads
      ensures HandleCache(files, handles, fileReads)
      ensures pf == files[fi] && fileReads == old(fileReads) + [fi]
    {
      if fi in handles.vals {
        ReopenKeeps(files, handles, fileReads, fi);
        pf := handles.vals[fi];
        handles := handles.MoveToEnd(fi);
      } else {
        OpenKeeps(files, handles, fileReads, fi);
        pf := files[fi];
        handles := Opened(handles, fi, pf);
      }
      fileReads := fileReads + [fi];
    }
  }
}

/** The manifest of a pinned parquet dataset: where each row group starts in the concatenated table and
    in which file it lies, read from the footers alone.
 */
module ParquetIndex {
  import opened Wrappers
  import opened Sorting

  /** A remote file: its path and its row groups. */
  datatype Shard<Row> = Shard(path: string, groups: seq<seq<Row>>)

  /** A row group's place: file index and index within the file. */
  type Location = (nat, nat)

  datatype Manifest = Manifest(starts: seq<nat>, locs: seq<Location>, total: nat) {
    function Add(loc: Location, rows: nat): Manifest {
      Manifest(starts + [total], locs + [loc], total + rows)
    }
  }

  const EMPTY := Manifest([], [], 0)

  // ---------- the files ----------

  predicate PathLe(a: string, b: string) {
    a == "" || (b != "" && (a[0] < b[0] || (a[0] == b[0] && PathLe(a[1..], b[1..]))))
  }

  function ByPath<Row>(): (Shard<Row>, Shard<Row>) -> bool { (a: Shard<Row>, b: Shard<Row>) => PathLe(a.path, b.path) }

  function IsParquet<Row>(): Shard<Row> -> bool {
    (s: Shard<Row>) => |s.path| >= 8 && s.path[|s.path| - 8..] == ".parquet"
  }

  /** The parquet files of a directory listing, by path. */
  function Files<Row>(listing: seq<Shard<Row>>): seq<Shard<Row>> {
    Sort<Shard<Row>>(Filter<Shard<Row>>(listing, IsParquet()), ByPath())
  }

  lemma {:induction false} PathOrder(a: string, b: string, c: string)
    ensures PathLe(a, b) || PathLe(b, a)
    ensures PathLe(a, b) && PathLe(b, c) ==> PathLe(a, c)
    ensures PathLe(a, b) && PathLe(b, a) ==> a == b
  {
    if a != "" && b != "" && c != "" {
      PathOrder(a[1..], b[1..], c[1..]);
    } else if a != "" && b != "" {
      PathOrder(a[1..], b[1..], "");
    }
    assert a != "" && b != "" && a[0] == b[0] && a[1..] == b[1..] ==> a == [a[0]] + a[1..] == [b[0]] + b[1..] == b;
  }

  lemma {:induction false} FilterMultiset<T>(xs: seq<T>, p: T -> bool, x: T)
    ensures multiset(Filter<T>(xs, p))[x] == if p(x) then multiset(xs)[x] else 0
  {
    if xs != [] {
      FilterMultiset(xs[1..], p, x);
      assert xs == [xs[0]] + xs[1..];
    }
  }

  /** The file list, hence everything below, does not depend on the order the directory is listed in. */
  lemma FilesOrderIndependent<Row(!new)>(xs: seq<Shard<Row>>, ys: seq<Shard<Row>>)
    requires multiset(xs) == multiset(ys)
    requires forall x, y :: x in xs && y in xs && x.path == y.path ==> x == y
    ensures Files(xs) == Files(ys)
  {
    var p: Shard<Row> -> bool, le: (Shard<Row>, Shard<Row>) -> bool := IsParquet(), ByPath();
    forall x ensures multiset(Filter<Shard<Row>>(xs, p))[x] == multiset(Filter<Shard<Row>>(ys, p))[x] {
      FilterMultiset(xs, p, x);
      FilterMultiset(ys, p, x);
    }
    ByPathTotal<Row>();
    FilterMembers(xs, p);
    forall x, y | x in Filter<Shard<Row>>(xs, p) && y in Filter<Shard<Row>>(xs, p) && le(x, y) && le(y, x)
      ensures x == y
    {
      PathOrder(x.path, y.path, "");
    }
    SortOrderIndependent(Filter<Shard<Row>>(xs, p), Filter<Shard<Row>>(ys, p), le);
  }

  /** The order of strings: a prefix comes first, otherwise the first difference decides. */
  ghost predicate Precedes(a: string, b: string) {
    a <= b || exists n: nat :: n < |a| && n < |b| && FirstDifference(a, b, n) && a[n] < b[n]
  }

  ghost predicate FirstDifference(a: string, b: string, n: nat)
    requires n <= |a| && n <= |b|
  {
    forall i :: 0 <= i < n ==> a[i] == b[i]
  }

  lemma {:induction false} PathLePrecedes(a: string, b: string)
    requires PathLe(a, b)
    ensures Precedes(a, b)
  {
    if a != "" && a[0] == b[0] {
      var p, q := a[1..], b[1..];
      PathLePrecedes(p, q);
      assert a == [a[0]] + p && b == [b[0]] + q;
      if !(p <= q) {
        var n: nat :| n < |p| && n < |q| && FirstDifference(p, q, n) && p[n] < q[n];
        assert FirstDifference(a, b, n + 1) && a[n + 1] == p[n] && b[n + 1] == q[n];
      }
    } else if a != "" {
      assert FirstDifference(a, b, 0);
    }
  }

  /** Files are the listed files whose path ends in .parquet, as often as they are listed, in path order. */
  ghost predicate ListedInOrder<Row(!new)>(listing: seq<Shard<Row>>, files: seq<Shard<Row>>) {
    && (forall i, j :: 0 <= i < j < |files| ==> Precedes(files[i].path, files[j].path))
    && forall s :: multiset(files)[s]
         == if |s.path| >= 8 && s.path[|s.path| - 8..] == ".parquet" then multiset(listing)[s] else 0
  }

  lemma FilesListed<Row(!new)>(listing: seq<Shard<Row>>)
    ensures ListedInOrder(listing, Files(listing))
  {
    var p: Shard<Row> -> bool, le: (Shard<Row>, Shard<Row>) -> bool := IsParquet(), ByPath();
    ByPathTotal<Row>();
    SortSorted(Filter<Shard<Row>>(listing, p), le);
    SortMultiset(Filter<Shard<Row>>(listing, p), le);
    var files := Files(listing);
    forall i, j | 0 <= i < j < |files| ensures Precedes(files[i].path, files[j].path) {
      assert le(files[i], files[j]);
      PathLePrecedes(files[i].path, files[j].path);
    }
    forall s: Shard<Row> ensures multiset(files)[s] == if p(s) then multiset(listing)[s] else 0 {
      FilterMultiset(listing, p, s);
    }
  }

  lemma ByPathTotal<Row(!new)>()
    ensures TotalPreorder(ByPath<Row>())
  {
    var le: (Shard<Row>, Shard<Row>) -> bool := ByPath();
    forall a: Shard<Row>, b: Shard<Row>, c: Shard<Row>
      ensures (le(a, b) || le(b, a)) && (le(a, b) && le(b, c) ==> le(a, c))
    {
      PathOrder(a.path, b.path, c.path);
    }
  }

  // ---------- building ----------

  /** The first n groups of file fi, after m. */
  function AddGroups<Row>(m: Manifest, fi: nat, groups: seq<seq<Row>>, n: nat): Manifest
    requires n <= |groups|
  {
    if n == 0 then m else AddGroups(m, fi, groups, n - 1).Add((fi, n - 1), |groups[n - 1]|)
  }

  function AddFiles<Row>(files: seq<Shard<Row>>, n: nat): Manifest
    requires n <= |files|
    decreases n
  {
    if n == 0 then EMPTY else AddGroups(AddFiles(files, n - 1), n - 1, files[n - 1].groups, |files[n - 1].groups|)
  }

  function ManifestOf<Row>(files: seq<Shard<Row>>): Manifest {
    AddFiles(files, |files|)
  }

  method BuildManifest<Row>(files: seq<Shard<Row>>) returns (m: Manifest)
    ensures m == ManifestOf(files)
  {
    m := EMPTY;
    for fi := 0 to |files|
      invariant m == AddFiles(files, fi)
    {
      for rg := 0 to |files[fi].groups|
        invariant m == AddGroups(AddFiles(files, fi), fi, files[fi].groups, rg)
      {
        m := m.Add((fi, rg), |files[fi].groups[rg]|);
      }
    }
  }

  // ---------- what it describes ----------

  /** The rows of the first n groups, one after the other. */
  function ConcatGroups<Row>(groups: seq<seq<Row>>, n: nat): seq<Row>
    requires n <= |groups|
  {
    if n == 0 then [] else ConcatGroups(groups, n - 1) + groups[n - 1]
  }

  function ConcatFiles<Row>(files: seq<Shard<Row>>, n: nat): seq<Row>
    requires n <= |files|
    decreases n
  {
    if n == 0 then [] else ConcatFiles(files, n - 1) + ConcatGroups(files[n - 1].groups, |files[n - 1].groups|)
  }

  /** The whole table. */
  function Flat<Row>(files: seq<Shard<Row>>): seq<Row> {
    ConcatFiles(files, |files|)
  }

  predicate Exists<Row>(files: seq<Shard<Row>>, loc: Location) {
    loc.0 < |files| && loc.1 < |files[loc.0].groups|
  }

  function GroupAt<Row>(files: seq<Shard<Row>>, loc: Location): seq<Row>
    requires Exists(files, loc)
  {
    files[loc.0].groups[loc.1]
  }

  /** Each listed group is where its start says, and the next one starts where it ends. */
  ghost predicate Describes<Row>(files: seq<Shard<Row>>, m: Manifest, flat: seq<Row>) {
    && |m.starts| == |m.locs| && m.total == |flat|
    && (forall i :: 0 <= i < |m.locs| ==> GroupInPlace(files, m, flat, i))
    && (m.locs == [] ==> flat == []) && (m.locs != [] ==> m.starts[0] == 0)
  }

  ghost predicate GroupInPlace<Row>(files: seq<Shard<Row>>, m: Manifest, flat: seq<Row>, i: nat)
    requires |m.starts| == |m.locs| && i < |m.locs|
  {
    && Exists(files, m.locs[i])
    && var end := m.starts[i] + |GroupAt(files, m.locs[i])|;
       && end == (if i + 1 < |m.starts| then m.starts[i + 1] else m.total)
       && end <= |flat|
       && flat[m.starts[i]..end] == GroupAt(files, m.locs[i])
  }

  lemma AddDescribes<Row>(files: seq<Shard<Row>>, m: Manifest, flat: seq<Row>, loc: Location)
    requires Describes(files, m, flat) && Exists(files, loc)
    ensures Describes(files, m.Add(loc, |GroupAt(files, loc)|), flat + GroupAt(files, loc))
  {
    var rows := GroupAt(files, loc);
    var m', flat' := m.Add(loc, |rows|), flat + rows;
    forall i | 0 <= i < |m'.locs| ensures GroupInPlace(files, m', flat', i) {
      if i < |m.locs| {
        assert GroupInPlace(files, m, flat, i);
        var end := m.starts[i] + |GroupAt(files, m.locs[i])|;
        assert flat'[m.starts[i]..end] == flat[m.starts[i]..end];
      } else {
        assert flat'[|flat|..|flat| + |rows|] == rows;
      }
    }
  }

  lemma {:induction false} AddGroupsDescribes<Row>(files: seq<Shard<Row>>, m: Manifest, flat: seq<Row>, fi: nat, n: nat)
    requires fi < |files| && n <= |files[fi].groups| && Describes(files, m, flat)
    ensures Describes(files, AddGroups(m, fi, files[fi].groups, n), flat + ConcatGroups(files[fi].groups, n))
  {
    var groups := files[fi].groups;
    if n == 0 {
      assert flat + [] == flat;
    } else {
      AddGroupsDescribes(files, m, flat, fi, n - 1);
      AddDescribes(files, AddGroups(m, fi, groups, n - 1), flat + ConcatGroups(groups, n - 1), (fi, n - 1));
      assert (flat + ConcatGroups(groups, n - 1)) + groups[n - 1] ==
        flat + (ConcatGroups(groups, n - 1) + groups[n - 1]);
    }
  }

  lemma {:induction false} AddFilesDescribes<Row>(files: seq<Shard<Row>>, n: nat)
    requires n <= |files|
    ensures Describes(files, AddFiles(files, n), ConcatFiles(files, n))
    decreases n
  {
    if n > 0 {
      AddFilesDescribes(files, n - 1);
      AddGroupsDescribes(files, AddFiles(files, n - 1), ConcatFiles(files, n - 1), n - 1, |files[n - 1].groups|);
    }
  }

  /** The manifest describes the table. */
  lemma ManifestDescribes<Row>(files: seq<Shard<Row>>)
    ensures Describes(files, ManifestOf(files), Flat(files))
  {
    AddFilesDescribes(files, |files|);
  }

  ghost predicate LocationBefore(a: Location, b: Location) {
    a.0 < b.0 || (a.0 == b.0 && a.1 < b.1)
  }

  /** Every group of the first n files, once, file by file and group by group. */
  ghost predicate ListsGroups<Row>(files: seq<Shard<Row>>, locs: seq<Location>, n: nat) {
    && (forall i, j :: 0 <= i < j < |locs| ==> LocationBefore(locs[i], locs[j]))
    && (forall loc :: loc in locs <==> loc.0 < n && Exists(files, loc))
  }

  function LocationsIn(fi: nat, n: nat): seq<Location> {
    seq(n, i requires 0 <= i < n => (fi, i))
  }

  lemma {:induction false} AddGroupsLocs<Row>(m: Manifest, fi: nat, groups: seq<seq<Row>>, n: nat)
    requires n <= |groups|
    ensures AddGroups(m, fi, groups, n).locs == m.locs + LocationsIn(fi, n)
  {
    if n > 0 { AddGroupsLocs(m, fi, groups, n - 1); }
  }

  lemma {:induction false} AddFilesLocs<Row>(files: seq<Shard<Row>>, n: nat)
    requires n <= |files|
    ensures ListsGroups(files, AddFiles(files, n).locs, n)
    decreases n
  {
    if n > 0 {
      AddFilesLocs(files, n - 1);
      var groups := files[n - 1].groups;
      var before := AddFiles(files, n - 1);
      AddGroupsLocs(before, n - 1, groups, |groups|);
      AppendGroups(files, before.locs, n - 1, LocationsIn(n - 1, |groups|));
      assert AddFiles(files, n) == AddGroups(before, n - 1, groups, |groups|);
    } else {
      assert AddFiles(files, 0).locs == [];
    }
  }

  lemma AppendGroups<Row>(files: seq<Shard<Row>>, locs: seq<Location>, fi: nat, own: seq<Location>)
    requires fi < |files| && ListsGroups(files, locs, fi) && |own| == |files[fi].groups|
    requires forall i :: 0 <= i < |own| ==> own[i] == (fi, i)
    ensures ListsGroups(files, locs + own, fi + 1)
  {
    var all := locs + own;
    forall i, j | 0 <= i < j < |all| ensures LocationBefore(all[i], all[j]) {
      if i < |locs| <= j { assert locs[i] in locs; }
    }
    forall loc: Location ensures loc in all <==> loc.0 < fi + 1 && Exists(files, loc) {
      if loc.0 == fi && Exists(files, loc) { assert own[loc.1] == loc; }
    }
  }

  /** The manifest lists every row group of every file once, file by file and group by group. */
  lemma ManifestListsGroups<Row>(files: seq<Shard<Row>>)
    ensures ListsGroups(files, ManifestOf(files).locs, |files|)
  {
    AddFilesLocs(files, |files|);
  }

  lemma {:induction false} StartsSorted<Row>(files: seq<Shard<Row>>, m: Manifest, flat: seq<Row>, i: nat, j: nat)
    requires Describes(files, m, flat) && i <= j < |m.starts|
    ensures m.starts[i] <= m.starts[j] <= |flat|
    decreases j
  {
    assert GroupInPlace(files, m, flat, j);
    if i < j {
      assert GroupInPlace(files, m, flat, j - 1);
      StartsSorted(files, m, flat, i, j - 1);
    }
  }

  // ---------- lookup ----------

  ghost predicate SortedNats(s: seq<nat>) {
    forall i, j :: 0 <= i <= j < |s| ==> s[i] <= s[j]
  }

  /** bisect_right: how many entries are at most x. */
  method BisectRight(s: seq<nat>, x: nat) returns (r: nat)
    requires SortedNats(s)
    ensures r == Bisected(s, x)
    ensures forall i :: 0 <= i < r ==> s[i] <= x
    ensures forall i :: r <= i < |s| ==> s[i] > x
  {
    var lo, hi := 0, |s|;
    while lo < hi
      invariant 0 <= lo <= hi <= |s|
      invariant forall i :: 0 <= i < lo ==> s[i] <= x
      invariant forall i :: hi <= i < |s| ==> s[i] > x
    {
      var mid := (lo + hi) / 2;
      if x < s[mid] { hi := mid; } else { lo := mid + 1; }
    }
    r := lo;
    BisectedMeaning(s, x, r);
  }

  function Bisected(s: seq<nat>, x: nat): (r: nat)
    ensures r <= |s|
  {
    if s == [] || s[|s| - 1] <= x then |s| else Bisected(s[..|s| - 1], x)
  }

  /** It is where the entries at most x end. */
  lemma {:induction false} BisectedMeaning(s: seq<nat>, x: nat, r: nat)
    requires SortedNats(s) && r <= |s|
    requires forall i :: 0 <= i < r ==> s[i] <= x
    requires forall i :: r <= i < |s| ==> s[i] > x
    ensures r == Bisected(s, x)
  {
    if r < |s| { BisectedMeaning(s[..|s| - 1], x, r); }
  }

  lemma {:induction false} BisectedSplits(s: seq<nat>, x: nat)
    requires SortedNats(s)
    ensures forall i :: 0 <= i < Bisected(s, x) ==> s[i] <= x
    ensures forall i :: Bisected(s, x) <= i < |s| ==> s[i] > x
  {
    if s != [] && s[|s| - 1] > x {
      var init := s[..|s| - 1];
      BisectedSplits(init, x);
      forall i | Bisected(s, x) <= i < |s| ensures s[i] > x { assert i < |init| ==> s[i] == init[i]; }
    }
  }

  /** The group a table index falls in, and the offset inside it. */
  function Locate(m: Manifest, idx: nat): (Location, int)
    requires |m.starts| == |m.locs| && Bisected(m.starts, idx) > 0
  {
    var gi := Bisected(m.starts, idx) - 1;
    (m.locs[gi], idx - m.starts[gi])
  }

  /** Looking an index up in the manifest and reading the group gives the table's row, empty groups
      included. */
  lemma LocateRight<Row>(files: seq<Shard<Row>>, idx: nat)
    requires idx < |Flat(files)|
    ensures var m := ManifestOf(files);
      && m.total == |Flat(files)| && |m.starts| == |m.locs| && SortedNats(m.starts) && Bisected(m.starts, idx) > 0
      && var (loc, off) := Locate(m, idx);
         && Exists(files, loc) && 0 <= off < |GroupAt(files, loc)|
         && GroupAt(files, loc)[off] == Flat(files)[idx]
  {
    var m, flat := ManifestOf(files), Flat(files);
    ManifestDescribes(files);
    forall i, j | 0 <= i <= j < |m.starts| ensures m.starts[i] <= m.starts[j] { StartsSorted(files, m, flat, i, j); }
    BisectedSplits(m.starts, idx);
    var gi := Bisected(m.starts, idx) - 1;
    assert m.starts[0] <= idx;
    assert GroupInPlace(files, m, flat, gi);
  }

  /** The row group a table index lies in. */
  ghost function LocationOf<Row>(files: seq<Shard<Row>>, idx: nat): Location
    requires idx < |Flat(files)|
  {
    LocateRight(files, idx); Locate(ManifestOf(files), idx).0
  }
}

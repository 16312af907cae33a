/** The same dataset shared by any number of threads under its two locks.

    The cache lock is never held across another wait, so each section under it is one step. The I/O
    lock is held from one step to the next. The manifest's fields are read without a lock, and stored
    one after the other, the total last.
 */
module ParquetThreads {
  import opened Wrappers
  import opened OrderedDicts
  import opened ParquetIndex
  import opened ParquetCache

  /** What the threads share. */
  datatype Shared<Row> = Shared(
    files: Option<seq<Shard<Row>>>, starts: Option<seq<nat>>, locs: Option<seq<Location>>, total: Option<nat>,
    cache: OrderedDict<Location, seq<Row>>, io: Option<nat>)

  /** What a thread asking for row idx is about to do. */
  datatype Pc<Row> =
    | Idle
    | CheckTotal(idx: int)
    | WaitToBuild(idx: int)
    | RecheckTotal(idx: int)
    | SetFiles(idx: int, m: Manifest)
    | SetStarts(idx: int, m: Manifest)
    | SetLocs(idx: int, m: Manifest)
    | SetTotal(idx: int, m: Manifest)
    | DoneBuilding(idx: int)
    | Lookup(idx: int)
    | Probe(idx: int, key: Location, off: int)
    | WaitToFetch(idx: int, key: Location, off: int)
    | RecheckCache(idx: int, key: Location, off: int)
    | Fetch(idx: int, key: Location, off: int)
    | Insert(idx: int, key: Location, off: int, rows: seq<Row>)
    | DoneFetching(idx: int, key: Location, off: int, rows: seq<Row>)
    | Returned(idx: int, row: Row)
    | Raised(idx: int)

  datatype State<Row> = State(shared: Shared<Row>, threads: seq<Pc<Row>>)

  /** The remote directory and the cache's capacity. */
  datatype Remote<Row> = Remote(listing: seq<Shard<Row>>, cap: nat)

  predicate Holds<Row>(pc: Pc<Row>) {
    || pc.RecheckTotal? || pc.SetFiles? || pc.SetStarts? || pc.SetLocs? || pc.SetTotal? || pc.DoneBuilding?
    || pc.RecheckCache? || pc.Fetch? || pc.Insert? || pc.DoneFetching?
  }

  predicate Busy<Row>(pc: Pc<Row>) {
    !pc.Idle? && !pc.Returned? && !pc.Raised?
  }

  /** An index out of range where the code would raise. */
  function RowAt<Row>(idx: int, rows: seq<Row>, off: int): Pc<Row> {
    if 0 <= off < |rows| then Returned(idx, rows[off]) else Raised(idx)
  }

  /** Reading the manifest and finding the group. */
  function LookedUp<Row>(s: Shared<Row>, idx: int): Pc<Row> {
    match (s.total, s.starts, s.locs)
    case (Some(total), Some(starts), Some(locs)) =>
      if total == 0 then Raised(idx)
      else
        var i := idx % total;
        var gi := Bisected(starts, i);
        if gi == 0 || gi > |locs| then Raised(idx) else Probe(idx, locs[gi - 1], i - starts[gi - 1])
    case _ => Raised(idx)
  }

  function Fetched<Row>(s: Shared<Row>, key: Location): seq<Row> {
    match s.files
    case Some(files) => if Exists(files, key) then GroupAt(files, key) else []
    case None => []
  }

  predicate Blocked<Row>(s: Shared<Row>, pc: Pc<Row>) {
    !Busy(pc) || ((pc.WaitToBuild? || pc.WaitToFetch?) && s.io.Some?)
  }

  /** One step of thread t. */
  function Next<Row>(r: Remote<Row>, s: Shared<Row>, t: nat, pc: Pc<Row>): (Shared<Row>, Pc<Row>)
    requires !Blocked(s, pc)
  {
    match pc
    case CheckTotal(idx) => (s, if s.total.Some? then Lookup(idx) else WaitToBuild(idx))
    case WaitToBuild(idx) => (s.(io := Some(t)), RecheckTotal(idx))
    case RecheckTotal(idx) =>
      if s.total.Some? then (s, DoneBuilding(idx))
      else if Files(r.listing) == [] then (s.(io := None), Raised(idx))
      else (s, SetFiles(idx, ManifestOf(Files(r.listing))))
    case SetFiles(idx, m) => (s.(files := Some(Files(r.listing))), SetStarts(idx, m))
    case SetStarts(idx, m) => (s.(starts := Some(m.starts)), SetLocs(idx, m))
    case SetLocs(idx, m) => (s.(locs := Some(m.locs)), SetTotal(idx, m))
    case SetTotal(idx, m) => (s.(total := Some(m.total)), DoneBuilding(idx))
    case DoneBuilding(idx) => (s.(io := None), Lookup(idx))
    case Lookup(idx) => (s, LookedUp(s, idx))
    case Probe(idx, key, off) =>
      (match s.cache.Find(key)
       case Some(rows) => (s.(cache := s.cache.MoveToEnd(key)), RowAt(idx, rows, off))
       case None => (s, WaitToFetch(idx, key, off)))
    case WaitToFetch(idx, key, off) => (s.(io := Some(t)), RecheckCache(idx, key, off))
    case RecheckCache(idx, key, off) =>
      (s, match s.cache.Find(key)
          case Some(rows) => DoneFetching(idx, key, off, rows)
          case None => Fetch(idx, key, off))
    case Fetch(idx, key, off) => (s, Insert(idx, key, off, Fetched(s, key)))
    case Insert(idx, key, off, rows) =>
      (s.(cache := Inserted(s.cache, key, rows, r.cap)), DoneFetching(idx, key, off, rows))
    case DoneFetching(idx, key, off, rows) => (s.(io := None), RowAt(idx, rows, off))
    case _ => (s, pc)
  }

  datatype Event = Ask(thread: nat, idx: int) | Run(thread: nat)

  /** Events that cannot happen are skipped. */
  function Happen<Row>(r: Remote<Row>, s: State<Row>, e: Event): State<Row> {
    if e.thread >= |s.threads| then s
    else if e.Ask? then
      if Busy(s.threads[e.thread]) then s else s.(threads := s.threads[e.thread := CheckTotal(e.idx)])
    else if Blocked(s.shared, s.threads[e.thread]) then s
    else
      var (shared, pc) := Next(r, s.shared, e.thread, s.threads[e.thread]);
      State(shared, s.threads[e.thread := pc])
  }

  function Start<Row>(threads: nat): State<Row> {
    State(Shared(None, None, None, None, OrderedDict([], map[]), None), seq(threads, _ => Idle))
  }

  function Reach<Row>(r: Remote<Row>, s: State<Row>, events: seq<Event>): State<Row>
    decreases |events|
  {
    if events == [] then s else Reach(r, Happen(r, s, events[0]), events[1..])
  }

  // ---------- the invariant ----------

  ghost function Table<Row>(r: Remote<Row>): seq<Row> { Flat(Files(r.listing)) }

  /** Stored fields are right, and a stored total means all are stored. */
  ghost predicate ManifestRight<Row>(r: Remote<Row>, s: Shared<Row>) {
    var files := Files(r.listing);
    var m := ManifestOf(files);
    && (s.files.Some? ==> s.files.value == files) && (s.starts.Some? ==> s.starts.value == m.starts)
    && (s.locs.Some? ==> s.locs.value == m.locs)
    && (s.total.Some? ==> s.total.value == m.total && s.files.Some? && s.starts.Some? && s.locs.Some?)
  }

  ghost predicate CacheRight<Row>(r: Remote<Row>, s: Shared<Row>) {
    s.cache.Valid() && Coherent(Files(r.listing), s.cache) && |s.cache.order| <= r.cap
  }

  /** The key and offset are those of the row asked for. */
  ghost predicate Wants<Row>(r: Remote<Row>, idx: int, key: Location, off: int) {
    && Table(r) != [] && Exists(Files(r.listing), key)
    && 0 <= off < |GroupAt(Files(r.listing), key)|
    && GroupAt(Files(r.listing), key)[off] == Table(r)[idx % |Table(r)|]
  }

  ghost predicate ThreadRight<Row>(r: Remote<Row>, s: Shared<Row>, pc: Pc<Row>) {
    match pc
    case SetFiles(_, m) => m == ManifestOf(Files(r.listing))
    case SetStarts(_, m) => m == ManifestOf(Files(r.listing)) && s.files.Some?
    case SetLocs(_, m) => m == ManifestOf(Files(r.listing)) && s.files.Some? && s.starts.Some?
    case SetTotal(_, m) => m == ManifestOf(Files(r.listing)) && s.files.Some? && s.starts.Some? && s.locs.Some?
    case DoneBuilding(_) => s.total.Some?
    case Lookup(_) => s.total.Some?
    case Probe(idx, key, off) => Wants(r, idx, key, off) && s.total.Some?
    case WaitToFetch(idx, key, off) => Wants(r, idx, key, off) && s.total.Some?
    case RecheckCache(idx, key, off) => Wants(r, idx, key, off) && s.total.Some?
    case Fetch(idx, key, off) => Wants(r, idx, key, off) && s.total.Some? && key !in s.cache.vals
    case Insert(idx, key, off, rows) =>
      Wants(r, idx, key, off) && rows == GroupAt(Files(r.listing), key) && key !in s.cache.vals
    case DoneFetching(idx, key, off, rows) => Wants(r, idx, key, off) && rows == GroupAt(Files(r.listing), key)
    case Returned(idx, row) => Table(r) != [] && row == Table(r)[idx % |Table(r)|]
    case Raised(_) => Table(r) == []
    case _ => true
  }

  /** The lock belongs to the one thread in a section under it. */
  ghost predicate LockRight<Row>(s: State<Row>) {
    && (forall t :: 0 <= t < |s.threads| ==> (Holds(s.threads[t]) <==> s.shared.io == Some(t)))
    && (s.shared.io.Some? ==> s.shared.io.value < |s.threads|)
  }

  ghost predicate Inv<Row>(r: Remote<Row>, s: State<Row>) {
    && ManifestRight(r, s.shared) && CacheRight(r, s.shared) && LockRight(s)
    && forall t :: 0 <= t < |s.threads| ==> ThreadRight(r, s.shared, s.threads[t])
  }

  // ---------- one step ----------

  /** What a step may do to what others rely on: forget nothing of the manifest, and add to the cache
      only under the I/O lock. */
  ghost predicate Grows<Row>(s: Shared<Row>, s': Shared<Row>, pc: Pc<Row>) {
    && (s.files.Some? ==> s'.files.Some?) && (s.starts.Some? ==> s'.starts.Some?)
    && (s.locs.Some? ==> s'.locs.Some?) && (s.total.Some? ==> s'.total.Some?)
    && (Holds(pc) || forall key :: key in s'.cache.vals ==> key in s.cache.vals)
  }

  lemma LookupRight<Row>(r: Remote<Row>, s: Shared<Row>, idx: int)
    requires ManifestRight(r, s) && s.total.Some?
    ensures ThreadRight(r, s, LookedUp(s, idx))
  {
    ManifestDescribes(Files(r.listing));
    if s.total.value != 0 { LocateRight(Files(r.listing), idx % s.total.value); }
  }

  lemma StepCache<Row>(r: Remote<Row>, s: Shared<Row>, t: nat, pc: Pc<Row>)
    requires CacheRight(r, s) && ThreadRight(r, s, pc) && !Blocked(s, pc)
    ensures CacheRight(r, Next(r, s, t, pc).0)
  {
    match pc {
      case Probe(_, key, _) => if key in s.cache.vals { MoveToEndValid(s.cache, key); }
      case Insert(_, key, _, _) => InsertedMeaning(Files(r.listing), s.cache, key, r.cap);
      case _ =>
    }
  }

  lemma StepThread<Row>(r: Remote<Row>, s: Shared<Row>, t: nat, pc: Pc<Row>)
    requires ManifestRight(r, s) && CacheRight(r, s) && ThreadRight(r, s, pc) && !Blocked(s, pc)
    ensures ManifestRight(r, Next(r, s, t, pc).0)
    ensures ThreadRight(r, Next(r, s, t, pc).0, Next(r, s, t, pc).1)
  {
    match pc {
      case Lookup(idx) => LookupRight(r, s, idx);
      case RecheckTotal(_) => assert Files(r.listing) == [] ==> Table(r) == [];
      case _ =>
    }
  }

  lemma StepGrows<Row>(r: Remote<Row>, s: Shared<Row>, t: nat, pc: Pc<Row>)
    requires !Blocked(s, pc)
    ensures Grows(s, Next(r, s, t, pc).0, pc)
  {
  }

  lemma OthersKept<Row>(r: Remote<Row>, s: Shared<Row>, s': Shared<Row>, pc: Pc<Row>, other: Pc<Row>)
    requires Grows(s, s', pc) && ThreadRight(r, s, other) && !(Holds(pc) && Holds(other))
    ensures ThreadRight(r, s', other)
  {
  }

  lemma StepLock<Row>(r: Remote<Row>, s: State<Row>, t: nat)
    requires LockRight(s) && t < |s.threads| && !Blocked(s.shared, s.threads[t])
    ensures LockRight(Happen(r, s, Run(t)))
  {
    var (shared, pc) := Next(r, s.shared, t, s.threads[t]);
    LockMoves(r, s.shared, t, s.threads[t]);
    var s' := Happen(r, s, Run(t));
    forall u | 0 <= u < |s'.threads| ensures Holds(s'.threads[u]) <==> s'.shared.io == Some(u) {
      assert Holds(s.threads[u]) <==> s.shared.io == Some(u);
    }
  }

  /** Only taking and releasing the lock move it, and only the holder releases it. */
  lemma LockMoves<Row>(r: Remote<Row>, s: Shared<Row>, t: nat, pc: Pc<Row>)
    requires !Blocked(s, pc) && (Holds(pc) <==> s.io == Some(t))
    ensures var (s', pc') := Next(r, s, t, pc);
      && (Holds(pc') <==> s'.io == Some(t))
      && (s'.io == s.io || (s.io == None && s'.io == Some(t)) || (s.io == Some(t) && s'.io == None))
  {
  }

  lemma HappenKeeps<Row>(r: Remote<Row>, s: State<Row>, e: Event)
    requires Inv(r, s)
    ensures Inv(r, Happen(r, s, e))
  {
    var t := e.thread;
    if e.Run? && t < |s.threads| && !Blocked(s.shared, s.threads[t]) {
      var pc := s.threads[t];
      var s' := Happen(r, s, e);
      StepCache(r, s.shared, t, pc);
      StepThread(r, s.shared, t, pc);
      StepGrows(r, s.shared, t, pc);
      StepLock(r, s, t);
      forall u | 0 <= u < |s'.threads| ensures ThreadRight(r, s'.shared, s'.threads[u]) {
        if u != t { OthersKept(r, s.shared, s'.shared, pc, s.threads[u]); }
      }
    }
  }

  // ---------- every run ----------

  lemma {:induction false} ReachKeeps<Row>(r: Remote<Row>, s: State<Row>, events: seq<Event>)
    requires Inv(r, s)
    ensures Inv(r, Reach(r, s, events))
    decreases |events|
  {
    if events != [] {
      HappenKeeps(r, s, events[0]);
      ReachKeeps(r, Happen(r, s, events[0]), events[1..]);
    }
  }

  lemma StartRight<Row>(r: Remote<Row>, threads: nat)
    ensures Inv(r, Start<Row>(threads))
  {
    var s: State<Row> := Start(threads);
    forall t | 0 <= t < |s.threads| ensures s.threads[t] == Idle { }
  }

  /** What an observer sees of one thread. */
  ghost predicate ThreadSafe<Row>(r: Remote<Row>, s: Shared<Row>, pc: Pc<Row>) {
    && (pc.Fetch? ==> pc.key !in s.cache.vals)
    && (pc.Returned? ==> Table(r) != [] && pc.row == Table(r)[pc.idx % |Table(r)|])
    && (pc.Raised? ==> Table(r) == [])
  }

  lemma RightIsSafe<Row>(r: Remote<Row>, s: Shared<Row>, pc: Pc<Row>)
    requires ThreadRight(r, s, pc)
    ensures ThreadSafe(r, s, pc)
  {
  }

  lemma OneHolder<Row>(s: State<Row>, t: nat, u: nat)
    requires LockRight(s) && t < u < |s.threads|
    ensures !(Holds(s.threads[t]) && Holds(s.threads[u]))
  {
  }

  /** In every interleaving of any number of threads: the cache holds remote groups only and never more
      than its capacity, at most one thread fetches and only groups that are not cached, and every
      answer is the row of the table that holds the files in path order; an exception means there are no
      rows. */
  lemma EveryInterleaving<Row(!new)>(r: Remote<Row>, threads: nat, events: seq<Event>)
    ensures var s := Reach(r, Start(threads), events);
      && ListedInOrder(r.listing, Files(r.listing)) && CacheRight(r, s.shared)
      && (forall t, u :: 0 <= t < u < |s.threads| ==> !(Holds(s.threads[t]) && Holds(s.threads[u])))
      && (forall t :: 0 <= t < |s.threads| ==> ThreadSafe(r, s.shared, s.threads[t]))
  {
    var s0: State<Row> := Start(threads);
    FilesListed(r.listing);
    StartRight(r, threads);
    ReachKeeps(r, s0, events);
    var s := Reach(r, s0, events);
    forall t, u | 0 <= t < u < |s.threads| ensures !(Holds(s.threads[t]) && Holds(s.threads[u])) { OneHolder(s, t, u); }
    forall t | 0 <= t < |s.threads|
      ensures ThreadSafe(r, s.shared, s.threads[t])
    {
      RightIsSafe(r, s.shared, s.threads[t]);
    }
  }

  // ---------- progress ----------

  /** How many of its own steps a thread still has before it. */
  function Remaining<Row>(pc: Pc<Row>): nat {
    match pc
    case CheckTotal(_) => 15
    case WaitToBuild(_) => 14
    case RecheckTotal(_) => 13
    case SetFiles(_, _) => 12
    case SetStarts(_, _) => 11
    case SetLocs(_, _) => 10
    case SetTotal(_, _) => 9
    case DoneBuilding(_) => 8
    case Lookup(_) => 7
    case Probe(_, _, _) => 6
    case WaitToFetch(_, _, _) => 5
    case RecheckCache(_, _, _) => 4
    case Fetch(_, _, _) => 3
    case Insert(_, _, _, _) => 2
    case DoneFetching(_, _, _, _) => 1
    case _ => 0
  }

  lemma Descends<Row>(r: Remote<Row>, s: Shared<Row>, t: nat, pc: Pc<Row>)
    requires !Blocked(s, pc)
    ensures Remaining(Next(r, s, t, pc).1) < Remaining(pc)
  {
  }

  /** Never a deadlock: while a thread is busy some thread can step, and each step brings its thread
      closer to its answer. */
  lemma Progress<Row>(r: Remote<Row>, s: State<Row>, t: nat) returns (u: nat)
    requires LockRight(s) && t < |s.threads| && Busy(s.threads[t])
    ensures u < |s.threads| && !Blocked(s.shared, s.threads[u])
    ensures var s' := Happen(r, s, Run(u));
      Remaining(s'.threads[u]) < Remaining(s.threads[u]) && forall v :: 0 <= v < |s.threads| && v != u ==>
        s'.threads[v] == s.threads[v]
  {
    u := if s.shared.io.Some? then s.shared.io.value else t;
    assert s.shared.io.Some? ==> Holds(s.threads[u]);
    Descends(r, s.shared, u, s.threads[u]);
  }
}

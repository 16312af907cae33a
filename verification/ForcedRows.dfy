/** The device-resident batch processor of the vLLM path.

    Its buffers are allocated once and reused, its row list is rebuilt only when the batch changes,
    and the completion position of a row is read from the request's live output list. The contracts
    say that none of that shows: every call forces exactly the tracked rows, each to what the
    per-row reference `ForceRowMask` would write at its current position.
 */
module ForcedRows {
  import opened Sorting
  import opened ForcedSampling

  /** The per-request payload. */
  datatype FsArgs = FsArgs(randomness: string, promptIdx: int, checkpointHash: string, rolloutIndex: int,
                           baseOffset: int)

  /** A request's output tokens, appended to by the engine. */
  class OutputList {
    var toks: seq<nat>
    constructor ()
      ensures toks == []
    {
      toks := [];
    }
  }

  /** The protocol: the forced pick for (logits, u), and the public uniform of (args, position). */
  datatype Protocol = Protocol(force: (seq<Logit>, real) -> int, u: (FsArgs, int) -> real)

  function OneHot(n: nat, tok: int): (r: seq<Logit>)
    ensures |r| == n
  {
    seq(n, i requires 0 <= i < n => if i == tok then Fin(0.0) else NegInf)
  }

  /** force_row: everything masked except the forced token. */
  function ForceRowMask(k: Protocol, row: seq<Logit>, fs: FsArgs, t: int): (r: seq<Logit>)
    ensures |r| == |row|
  {
    OneHot(|row|, k.force(row, k.u(fs, t)))
  }

  /** Greedy decoding: the one token that beats every other. */
  ghost predicate IsArgmax(row: seq<Logit>, tok: nat) {
    tok < |row| && forall i: nat :: i < |row| && i != tok ==> !Geq(row[i], row[tok])
  }

  lemma OneHotArgmax(n: nat, forced: int, tok: nat)
    requires 0 <= forced < n
    ensures IsArgmax(OneHot(n, forced), tok) <==> tok == forced
  {
    var m := OneHot(n, forced);
    assert m[forced] == Fin(0.0);
    assert forall i: nat :: i < n && i != forced ==> m[i] == NegInf;
    assert tok < n && tok != forced ==> Geq(m[forced], m[tok]);
  }

  /** A greedy decoder behind the mask emits exactly the forced token. */
  lemma GreedyEmitsForcedToken(k: Protocol, row: seq<Logit>, fs: FsArgs, t: int, tok: nat)
    requires 0 <= k.force(row, k.u(fs, t)) < |row|
    ensures IsArgmax(ForceRowMask(k, row, fs, t), tok) <==> tok == k.force(row, k.u(fs, t))
  {
    OneHotArgmax(|row|, k.force(row, k.u(fs, t)), tok);
  }

  // ---------- masking rows in place ----------

  ghost predicate RowsInBatch(rows: seq<nat>, n: nat) {
    && (forall i :: 0 <= i < |rows| ==> rows[i] < n)
    && (forall i, j :: 0 <= i < j < |rows| ==> rows[i] != rows[j])
  }

  /** toks = force_rows_batched(logits[rows], us); logits[rows] = -inf; logits[rows, toks] = 0 */
  method MaskRows(k: Protocol, logits: array<seq<Logit>>, rows: seq<nat>, us: seq<real>)
    requires |rows| == |us| && RowsInBatch(rows, logits.Length)
    modifies logits
    ensures forall i :: 0 <= i < |rows| ==>
      logits[rows[i]] == OneHot(|old(logits[rows[i]])|, k.force(old(logits[rows[i]]), us[i]))
    ensures forall r :: 0 <= r < logits.Length && r !in rows ==> logits[r] == old(logits[r])
  {
    ghost var before := logits[..];
    var toks := seq(|rows|, i requires 0 <= i < |rows| && rows[i] < logits.Length reads logits =>
                            k.force(logits[rows[i]], us[i]));
    for i := 0 to |rows|
      invariant forall j :: 0 <= j < i ==> logits[rows[j]] == OneHot(|before[rows[j]]|, toks[j])
      invariant forall r :: 0 <= r < logits.Length && r !in rows[..i] ==> logits[r] == before[r]
    {
      assert rows[..i + 1] == rows[..i] + [rows[i]];
      assert rows[i] !in rows[..i];
      logits[rows[i]] := OneHot(|logits[rows[i]]|, toks[i]);
    }
    assert rows[..|rows|] == rows;
  }

  function EntryRows(entries: seq<(nat, real)>): seq<nat> {
    seq(|entries|, i requires 0 <= i < |entries| => entries[i].0)
  }

  /** The stateless form: one pass over (row, u) entries. */
  method BatchedForceMask(k: Protocol, logits: array<seq<Logit>>, entries: seq<(nat, real)>)
    requires RowsInBatch(EntryRows(entries), logits.Length)
    modifies logits
    ensures forall i :: 0 <= i < |entries| ==>
      && EntryRows(entries)[i] < logits.Length
      && logits[entries[i].0] ==
        OneHot(|old(logits[..])[entries[i].0]|, k.force(old(logits[..])[entries[i].0], entries[i].1))
    ensures forall r: nat :: r < logits.Length && r !in EntryRows(entries) ==> logits[r] == old(logits[r])
  {
    if |entries| == 0 { return; }
    var us := seq(|entries|, i requires 0 <= i < |entries| => entries[i].1);
    MaskRows(k, logits, EntryRows(entries), us);
    forall i | 0 <= i < |entries|
      ensures EntryRows(entries)[i] < logits.Length &&
        logits[entries[i].0] ==
          OneHot(|old(logits[..])[entries[i].0]|, k.force(old(logits[..])[entries[i].0], entries[i].1))
    {
      assert EntryRows(entries)[i] == entries[i].0;
    }
  }

  // ---------- the stateful processor ----------

  datatype Item = Item(row: nat, fs: FsArgs, outs: OutputList)

  /** The completion position of a request's next token. */
  function Position(s: Item): int
    reads s.outs
  {
    s.fs.baseOffset + |s.outs.toks|
  }

  predicate ByRow(a: Item, b: Item) { a.row <= b.row }

  ghost predicate DistinctRows(items: seq<Item>) {
    forall i, j :: 0 <= i < j < |items| ==> items[i].row != items[j].row
  }

  lemma SortKeepsRowsDistinct(items: seq<Item>)
    requires DistinctRows(items)
    ensures DistinctRows(Sort(items, ByRow)) && |Sort(items, ByRow)| == |items|
    ensures multiset(Sort(items, ByRow)) == multiset(items)
  {
    SortMultiset(items, ByRow);
    var s := Sort(items, ByRow);
    forall i, j | 0 <= i < j < |s| ensures s[i].row != s[j].row {
      if s[i].row == s[j].row {
        RowOnce(items, s[i], s[j]);
        TwoPlaces(s, i, j);
        DistinctCount(items, s[i]);
      }
    }
  }

  lemma RowOnce(items: seq<Item>, a: Item, b: Item)
    requires DistinctRows(items) && a.row == b.row
    requires a in Sort(items, ByRow) && b in Sort(items, ByRow)
    ensures a == b
  {
    SortMember(items, ByRow, a);
    SortMember(items, ByRow, b);
  }

  ghost predicate RowsAscend(items: seq<Item>) {
    forall i, j :: 0 <= i < j < |items| ==> items[i].row <= items[j].row
  }

  lemma {:induction false} InsertByRow(x: Item, ys: seq<Item>)
    requires RowsAscend(ys)
    ensures RowsAscend(Insert(x, ys, ByRow))
  {
    if ys != [] && !ByRow(x, ys[0]) {
      var t := Insert(x, ys[1..], ByRow);
      InsertByRow(x, ys[1..]);
      InsertMultiset(x, ys[1..], ByRow);
      forall k | 0 <= k < |t| ensures ys[0].row <= t[k].row {
        assert t[k] in multiset(t);
        if t[k] != x { assert t[k] in ys[1..]; }
      }
    }
  }

  lemma {:induction false} SortByRow(items: seq<Item>)
    ensures RowsAscend(Sort(items, ByRow))
  {
    if items != [] {
      SortByRow(items[1..]);
      InsertByRow(items[0], Sort(items[1..], ByRow));
    }
  }

  method SortedItems(reqInfo: seq<Item>) returns (items: seq<Item>, rows: seq<nat>)
    requires DistinctRows(reqInfo)
    ensures items == Sort(reqInfo, ByRow) && DistinctRows(items) && |items| == |reqInfo|
    ensures multiset(items) == multiset(reqInfo) && forall i, j :: 0 <= i < j < |items| ==> items[i].row < items[j].row
    ensures |rows| == |items| && forall i :: 0 <= i < |items| ==> rows[i] == items[i].row
  {
    SortKeepsRowsDistinct(reqInfo);
    SortByRow(reqInfo);
    items := Sort(reqInfo, ByRow);
    rows := seq(|items|, i requires 0 <= i < |items| => items[i].row);
  }

  class ForcedRowsState {
    var slots: seq<Item>
    var rows: seq<nat>
    var stage: array<real>
    var uDev: array<real>
    var device: nat
    var cap: nat
    var allocated_: bool

    ghost predicate Valid()
      reads this
    {
      && stage != uDev && DistinctRows(slots)
      && |rows| == |slots| && (forall i :: 0 <= i < |slots| ==> rows[i] == slots[i].row)
      && (slots != [] ==> allocated_)
      && (allocated_ ==> stage.Length == uDev.Length == cap && |slots| <= cap)
    }

    constructor ()
      ensures Valid() && slots == [] && fresh(stage) && fresh(uDev)
    {
      slots, rows, cap, device, allocated_ := [], [], 0, 0, false;
      stage := new real[0];
      uDev := new real[0];
    }

    /** The batch composition changed: reqInfo lists the forced requests by row. */
    method Rebuild(reqInfo: seq<Item>, dev: nat)
      requires Valid() && DistinctRows(reqInfo)
      modifies this
      ensures Valid() && slots == Sort(reqInfo, ByRow)
      ensures multiset(slots) == multiset(reqInfo)
      ensures forall i, j :: 0 <= i < j < |slots| ==> slots[i].row < slots[j].row
      ensures fresh({stage, uDev} - old({stage, uDev}))
      ensures reqInfo == [] ==> stage == old(stage) && uDev == old(uDev)
      ensures cap >= old(cap)
    {
      var items, itemRows := SortedItems(reqInfo);
      slots, rows := items, itemRows;
      var n := |items|;
      if n == 0 { return; }
      if !allocated_ || n > cap || device != dev {
        cap := if n >= cap then n else cap;
        stage := new real[cap];
        uDev := new real[cap];
        device, allocated_ := dev, true;
      }
    }

    /** Stages this step's uniforms and copies them to the device; entries past the tracked rows
        are left as they were. */
    method Stage(k: Protocol)
      requires Valid() && slots != []
      modifies stage, uDev
      ensures Valid()
      ensures forall j :: 0 <= j < |slots| ==>
        uDev[j] == k.u(slots[j].fs, slots[j].fs.baseOffset + |slots[j].outs.toks|)
      ensures forall j :: |slots| <= j < cap ==> uDev[j] == old(uDev[j])
    {
      var n := |slots|;
      for i := 0 to n
        invariant forall j :: 0 <= j < i ==> stage[j] == k.u(slots[j].fs, Position(slots[j]))
        invariant forall j :: 0 <= j < cap ==> uDev[j] == old(uDev[j])
      {
        stage[i] := k.u(slots[i].fs, Position(slots[i]));
      }
      for i := 0 to n
        invariant forall j :: 0 <= j < i ==> uDev[j] == stage[j]
        invariant forall j :: 0 <= j < n ==> stage[j] == k.u(slots[j].fs, Position(slots[j]))
        invariant forall j :: n <= j < cap ==> uDev[j] == old(uDev[j])
      {
        uDev[i] := stage[i];
      }
    }

    /** One decoding step. */
    method Apply(k: Protocol, logits: array<seq<Logit>>)
      requires Valid() && RowsInBatch(rows, logits.Length)
      modifies logits, stage, uDev
      ensures Valid() && slots == old(slots)
      ensures forall i :: 0 <= i < |slots| ==>
        && slots[i].row < logits.Length
        && logits[slots[i].row] == ForceRowMask(k, old(logits[..])[slots[i].row], slots[i].fs,
                                                slots[i].fs.baseOffset + |slots[i].outs.toks|)
      ensures forall r: nat :: r < logits.Length && (forall i :: 0 <= i < |slots| ==> slots[i].row != r) ==>
        logits[r] == old(logits[r])
    {
      if |slots| == 0 { return; }
      var n := |slots|;
      ghost var before := logits[..];
      Stage(k);
      assert logits[..] == before;
      MaskRows(k, logits, rows, uDev[..n]);
      forall i | 0 <= i < n ensures slots[i].row < logits.Length &&
        logits[slots[i].row] == ForceRowMask(k, old(logits[..])[slots[i].row], slots[i].fs, Position(slots[i]))
      {
        assert rows[i] == slots[i].row && before[rows[i]] == old(logits[..])[rows[i]];
      }
      forall r: nat | r < logits.Length && (forall i :: 0 <= i < n ==> slots[i].row != r)
        ensures logits[r] == old(logits[r])
      {
        assert r !in rows && before[r] == old(logits[r]);
      }
    }
  }
}

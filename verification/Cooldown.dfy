/** Prompt cooldown: the last window each prompt was batched in, and its reconstruction from the
    archives after a restart.
 */
module Cooldown {

  /** One archived window: the window number and the prompt of each batch entry. */
  datatype Archive = Archive(window: int, prompts: seq<int>)

  /** The answer of is_in_cooldown for a given map. */
  predicate InCooldown(horizon: nat, last: map<int, int>, prompt: int, window: int) {
    horizon != 0 && prompt in last && window - last[prompt] < horizon
  }

  function Record(last: map<int, int>, prompts: seq<int>, window: int): map<int, int>
    decreases |prompts|
  {
    if prompts == [] then last else Record(last[prompts[0] := window], prompts[1..], window)
  }

  class CooldownMap {
    const horizon: nat
    var last: map<int, int>

    constructor (cooldownWindows: nat)
      ensures horizon == cooldownWindows && last == map[]
    {
      horizon, last := cooldownWindows, map[];
    }

    /** Refuses negative arguments. */
    method RecordBatched(prompt: int, window: int) returns (ok: bool)
      modifies this
      ensures ok <==> prompt >= 0 && window >= 0
      ensures last == if ok then old(last)[prompt := window] else old(last)
    {
      if prompt < 0 || window < 0 { return false; }
      last := last[prompt := window];
      return true;
    }

    predicate IsInCooldown(prompt: int, window: int)
      reads this
    {
      InCooldown(horizon, last, prompt, window)
    }

    method CurrentCooldownSet(window: int) returns (r: set<int>)
      ensures forall p :: p in r <==> IsInCooldown(p, window)
    {
      if horizon == 0 { return {}; }
      r := set p | p in last && window - last[p] < horizon;
    }

    /** Keeps, for each prompt, the latest window within the horizon of currentWindow. */
    method RebuildFromHistory(archives: seq<Archive>, currentWindow: int)
      modifies this
      ensures IsRebuilt(archives, currentWindow - horizon, last)
    {
      last := map[];
      var limit := currentWindow - horizon;
      for i := 0 to |archives|
        invariant IsRebuilt(archives[..i], limit, last)
      {
        var w := archives[i].window;
        assert archives[..i + 1] == archives[..i] + [archives[i]];
        if w <= limit {
          AddNothing(archives[..i], archives[i], limit, last);
          continue;
        }
        AddNothing(archives[..i], Archive(w, []), limit, last);
        assert archives[i].prompts[..0] == [];
        for j := 0 to |archives[i].prompts|
          invariant IsRebuilt(archives[..i] + [Archive(w, archives[i].prompts[..j])], limit, last)
        {
          var p := archives[i].prompts[j];
          KeepLatest(archives[..i], w, archives[i].prompts[..j], p, limit, last);
          assert archives[i].prompts[..j + 1] == archives[i].prompts[..j] + [p];
          if (if p in last then last[p] else -1) < w {
            last := last[p := w];
          }
        }
        assert archives[i].prompts[..|archives[i].prompts|] == archives[i].prompts;
        assert archives[i] == Archive(w, archives[i].prompts);
      }
      assert archives[..|archives|] == archives;
    }
  }

  // ---------- what a rebuilt map says ----------

  ghost predicate BatchedAt(archives: seq<Archive>, prompt: int, window: int) {
    exists i :: 0 <= i < |archives| && archives[i].window == window && prompt in archives[i].prompts
  }

  ghost predicate IsLatest(archives: seq<Archive>, limit: int, prompt: int, window: int) {
    && window > limit && window >= 0
    && BatchedAt(archives, prompt, window)
    && forall w :: w > limit && BatchedAt(archives, prompt, w) ==> w <= window
  }

  /** last holds exactly the latest window above the limit of each prompt that has one. */
  ghost predicate IsRebuilt(archives: seq<Archive>, limit: int, last: map<int, int>) {
    && (forall p :: p in last ==> IsLatest(archives, limit, p, last[p]))
    && (forall p, w :: w > limit && w >= 0 && BatchedAt(archives, p, w) ==> p in last)
  }

  lemma BatchedAppend(archives: seq<Archive>, a: Archive, prompt: int, window: int)
    ensures BatchedAt(archives + [a], prompt, window)
       <==> BatchedAt(archives, prompt, window) || (a.window == window && prompt in a.prompts)
  {
    var all := archives + [a];
    if BatchedAt(archives, prompt, window) {
      var i :| 0 <= i < |archives| && archives[i].window == window && prompt in archives[i].prompts;
      assert all[i] == archives[i];
    }
    assert all[|archives|] == a;
  }

  lemma AddNothing(archives: seq<Archive>, a: Archive, limit: int, last: map<int, int>)
    requires IsRebuilt(archives, limit, last) && (a.window <= limit || a.prompts == [])
    ensures IsRebuilt(archives + [a], limit, last)
  {
    forall p, w
      ensures BatchedAt(archives + [a], p, w) <==> BatchedAt(archives, p, w) || (a.window == w && p in a.prompts)
    {
      BatchedAppend(archives, a, p, w);
    }
  }

  lemma KeepLatest(archives: seq<Archive>, w: int, prompts: seq<int>, p: int, limit: int, last: map<int, int>)
    requires w > limit && IsRebuilt(archives + [Archive(w, prompts)], limit, last)
    ensures IsRebuilt(archives + [Archive(w, prompts + [p])], limit,
                      if (if p in last then last[p] else -1) < w then last[p := w] else last)
  {
    var a, b := archives + [Archive(w, prompts)], archives + [Archive(w, prompts + [p])];
    forall q, v ensures BatchedAt(b, q, v) <==> BatchedAt(a, q, v) || (q == p && v == w) {
      BatchedAppend(archives, Archive(w, prompts), q, v);
      BatchedAppend(archives, Archive(w, prompts + [p]), q, v);
    }
  }

  // ---------- restart ----------

  /** The live map of a run: each prompt's latest window over the whole history. */
  ghost predicate IsLive(history: seq<Archive>, last: map<int, int>) {
    IsRebuilt(history, -1, last)
  }

  /** The recent archives are the history's, in any order and with any repetition, as far back as the
      horizon. */
  ghost predicate CoversRecent(recent: seq<Archive>, history: seq<Archive>, limit: int) {
    && (forall p, w :: w > limit && BatchedAt(history, p, w) ==> BatchedAt(recent, p, w))
    && (forall p, w :: BatchedAt(recent, p, w) ==> BatchedAt(history, p, w))
  }

  /** After a restart at window c the rebuilt map answers exactly as the live map would, for every
      prompt and every window from c on. */
  lemma RestartEquivalence(horizon: nat, history: seq<Archive>, recent: seq<Archive>, c: int,
                           live: map<int, int>, rebuilt: map<int, int>, prompt: int, window: int)
    requires IsLive(history, live) && IsRebuilt(recent, c - horizon, rebuilt)
    requires CoversRecent(recent, history, c - horizon)
    requires forall p, w :: BatchedAt(history, p, w) ==> w >= 0
    requires window >= c
    ensures InCooldown(horizon, rebuilt, prompt, window) == InCooldown(horizon, live, prompt, window)
  {
    if prompt in live && live[prompt] > c - horizon {
      assert IsLatest(history, -1, prompt, live[prompt]);
      assert BatchedAt(recent, prompt, live[prompt]);
      assert prompt in rebuilt && IsLatest(recent, c - horizon, prompt, rebuilt[prompt]);
      assert rebuilt[prompt] == live[prompt];
    }
  }

  /** What the startup code downloads: the archived windows in [currentWindow - n, currentWindow). */
  function ListRecent<T>(history: seq<T>, windowOf: T -> int, currentWindow: int, n: int): seq<T> {
    if n <= 0 || currentWindow <= 0 || history == [] then []
    else
      var from := if currentWindow - n > 0 then currentWindow - n else 0;
      (if from <= windowOf(history[0]) < currentWindow then [history[0]] else [])
      + ListRecent(history[1..], windowOf, currentWindow, n)
  }

  lemma {:induction false} ListRecentMembers<T>(history: seq<T>, windowOf: T -> int, currentWindow: int, n: int, a: T)
    ensures a in ListRecent(history, windowOf, currentWindow, n)
       <==> a in history && n > 0 && 0 <= windowOf(a) && currentWindow - n <= windowOf(a) < currentWindow
  {
    if n > 0 && currentWindow > 0 && history != [] {
      ListRecentMembers(history[1..], windowOf, currentWindow, n, a);
      assert history == [history[0]] + history[1..];
    }
  }

  lemma {:induction false} ListRecentAll<T>(history: seq<T>, windowOf: T -> int, currentWindow: int, n: int)
    requires n > 0 && forall i :: 0 <= i < |history| ==>
      0 <= windowOf(history[i]) && currentWindow - n <= windowOf(history[i]) < currentWindow
    ensures ListRecent(history, windowOf, currentWindow, n) == history
  {
    if history != [] {
      ListRecentAll(history[1..], windowOf, currentWindow, n);
      assert history == [history[0]] + history[1..];
    }
  }

  /** Of a history in window order the download is a suffix. */
  lemma {:induction false} ListRecentIsSuffix<T>(history: seq<T>, windowOf: T -> int, currentWindow: int, n: int)
    returns (skipped: nat)
    requires forall i, j :: 0 <= i < j < |history| ==> windowOf(history[i]) <= windowOf(history[j])
    requires forall i :: 0 <= i < |history| ==> 0 <= windowOf(history[i]) < currentWindow
    ensures skipped <= |history| && ListRecent(history, windowOf, currentWindow, n) == history[skipped..]
    ensures forall i :: 0 <= i < |history| ==> (i >= skipped <==> n > 0 && windowOf(history[i]) >= currentWindow - n)
  {
    if history == [] || n <= 0 {
      skipped := |history|;
    } else if windowOf(history[0]) >= currentWindow - n {
      ListRecentAll(history, windowOf, currentWindow, n);
      skipped := 0;
    } else {
      var rest := ListRecentIsSuffix(history[1..], windowOf, currentWindow, n);
      forall i | 0 < i < |history| ensures i >= rest + 1 <==> windowOf(history[i]) >= currentWindow - n {
        assert history[i] == history[1..][i - 1];
      }
      skipped := rest + 1;
    }
  }

  function WindowOf(): Archive -> int { (a: Archive) => a.window }

  lemma ListedMembers(history: seq<Archive>, recent: seq<Archive>, c: int, horizon: nat, a: Archive)
    requires multiset(recent) == multiset(ListRecent(history, WindowOf(), c + 1, horizon))
    ensures a in recent <==> a in history && horizon > 0 && 0 <= a.window && c - horizon < a.window <= c
  {
    ListRecentMembers(history, WindowOf(), c + 1, horizon, a);
    assert a in recent <==> a in multiset(recent);
    assert a in multiset(ListRecent(history, WindowOf(), c + 1, horizon)) <==>
      a in ListRecent(history, WindowOf(), c + 1, horizon);
  }

  /** The download at window c reaches back exactly far enough, whatever order it comes in. */
  lemma ListRecentCovers(history: seq<Archive>, recent: seq<Archive>, c: int, horizon: nat)
    requires forall p, w :: BatchedAt(history, p, w) ==> 0 <= w <= c
    requires multiset(recent) == multiset(ListRecent(history, WindowOf(), c + 1, horizon))
    ensures CoversRecent(recent, history, c - horizon)
  {
    forall p, w | w > c - horizon && BatchedAt(history, p, w) ensures BatchedAt(recent, p, w) {
      var i :| 0 <= i < |history| && history[i].window == w && p in history[i].prompts;
      ListedMembers(history, recent, c, horizon, history[i]);
      BatchedMember(recent, history[i], p);
    }
    forall p, w | BatchedAt(recent, p, w) ensures BatchedAt(history, p, w) {
      var i :| 0 <= i < |recent| && recent[i].window == w && p in recent[i].prompts;
      ListedMembers(history, recent, c, horizon, recent[i]);
      BatchedMember(history, recent[i], p);
    }
  }

  lemma BatchedMember(archives: seq<Archive>, a: Archive, p: int)
    requires a in archives && p in a.prompts
    ensures BatchedAt(archives, p, a.window)
  {
  }

  // ---------- runs ----------

  lemma {:induction false} RecordMap(last: map<int, int>, prompts: seq<int>, window: int)
    ensures Record(last, prompts, window).Keys == last.Keys + set p | p in prompts
    ensures forall p :: p in prompts ==> Record(last, prompts, window)[p] == window
    ensures forall p :: p in last && p !in prompts ==> Record(last, prompts, window)[p] == last[p]
    decreases |prompts|
  {
    if prompts != [] { RecordMap(last[prompts[0] := window], prompts[1..], window); }
  }

  /** Sealing a later window keeps the map right, live or rebuilt. */
  lemma RecordKeeps(history: seq<Archive>, limit: int, last: map<int, int>, a: Archive)
    requires IsRebuilt(history, limit, last) && a.window >= 0 && a.window > limit
    requires forall p, w :: BatchedAt(history, p, w) ==> w < a.window
    ensures IsRebuilt(history + [a], limit, Record(last, a.prompts, a.window))
  {
    RecordMap(last, a.prompts, a.window);
    forall p, w
      ensures BatchedAt(history + [a], p, w) <==> BatchedAt(history, p, w) || (a.window == w && p in a.prompts)
    {
      BatchedAppend(history, a, p, w);
    }
  }

  /** A map rebuilt from enough recent archives is a map of the whole history. */
  lemma RebuiltFromRecent(history: seq<Archive>, recent: seq<Archive>, limit: int, last: map<int, int>)
    requires IsRebuilt(recent, limit, last) && CoversRecent(recent, history, limit)
    ensures IsRebuilt(history, limit, last)
  {
    forall p | p in last ensures IsLatest(history, limit, p, last[p]) {
      assert IsLatest(recent, limit, p, last[p]);
    }
  }

  /** No prompt is batched twice less than the horizon apart. */
  ghost predicate Spaced(horizon: nat, history: seq<Archive>) {
    forall i, j, p :: 0 <= i < j < |history| && p in history[i].prompts && p in history[j].prompts ==>
      history[j].window - history[i].window >= horizon
  }

  /** Batching only prompts that are not in cooldown keeps the spacing, also with a map that forgot
      what had already expired. */
  lemma SpacingKept(horizon: nat, history: seq<Archive>, limit: int, last: map<int, int>, a: Archive)
    requires IsRebuilt(history, limit, last) && Spaced(horizon, history)
    requires limit < 0 || limit <= a.window - horizon
    requires forall i :: 0 <= i < |history| ==> 0 <= history[i].window < a.window
    requires forall p :: p in a.prompts ==> !InCooldown(horizon, last, p, a.window)
    ensures Spaced(horizon, history + [a])
  {
    var all := history + [a];
    forall i, j, p | 0 <= i < j < |all| && p in all[i].prompts && p in all[j].prompts
      ensures all[j].window - all[i].window >= horizon
    {
      if j == |history| {
        assert BatchedAt(history, p, all[i].window);
        assert all[i].window > limit ==> p in last && IsLatest(history, limit, p, last[p]);
      }
    }
  }
}

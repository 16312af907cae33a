/** Forced-seed generation: the batched decoding loop with the protocol's logits processor.

    A `Draw` is the whole per-position choice: the model's logits for an unpadded context, warped
    and picked at the u of a coordinate. Rows of a batch do not influence each other. `Stream` is
    what a rollout must contain: each token is the draw for its own prefix at its own completion
    position. Module ForcedDraw instantiates `Draw` with the sampler.
 */
module Generation {
  import opened Wrappers

  /** Which stream a row is on, and the completion offset of its next token. */
  datatype Coord = Coord(prompt: int, rollout: int, t: int)

  type Draw = (seq<nat>, Coord) -> nat

  /** The next n forced tokens after ctx. */
  function Stream(w: Draw, ctx: seq<nat>, c: Coord, n: nat): (r: seq<nat>)
    ensures |r| == n
  {
    if n == 0 then []
    else
      var s := Stream(w, ctx, c, n - 1);
      s + [w(ctx + s, c.(t := c.t + n - 1))]
  }

  lemma {:induction false} StreamPrefix(w: Draw, ctx: seq<nat>, c: Coord, m: nat, n: nat)
    requires m <= n
    ensures Stream(w, ctx, c, n)[..m] == Stream(w, ctx, c, m)
  {
    if m < n {
      StreamPrefix(w, ctx, c, m, n - 1);
      assert Stream(w, ctx, c, n)[..m] == Stream(w, ctx, c, n - 1)[..m];
    }
  }

  /** Each token of a stream is forced by the tokens before it. */
  lemma StreamAt(w: Draw, ctx: seq<nat>, c: Coord, n: nat, i: nat)
    requires i < n
    ensures Stream(w, ctx, c, n)[i] == w(ctx + Stream(w, ctx, c, n)[..i], c.(t := c.t + i))
  {
    StreamPrefix(w, ctx, c, i + 1, n);
    StreamPrefix(w, ctx, c, i, n);
    assert Stream(w, ctx, c, n)[i] == Stream(w, ctx, c, n)[..i + 1][i];
  }

  // ---------- end of sequence ----------

  function FirstEos(tokens: seq<nat>, eos: set<nat>): (r: Option<nat>)
    ensures r.Some? ==> r.value < |tokens| && tokens[r.value] in eos
    ensures forall j :: 0 <= j < (if r.Some? then r.value else |tokens|) ==> tokens[j] !in eos
  {
    if tokens == [] then None
    else if tokens[0] in eos then Some(0)
    else match FirstEos(tokens[1..], eos)
      case None => None
      case Some(i) => Some(i + 1)
  }

  lemma {:induction false} FirstEosUnique(tokens: seq<nat>, eos: set<nat>, i: nat)
    requires i < |tokens| && tokens[i] in eos && forall j :: 0 <= j < i ==> tokens[j] !in eos
    ensures FirstEos(tokens, eos) == Some(i)
  {
    if i > 0 {
      FirstEosUnique(tokens[1..], eos, i - 1);
    }
  }

  method FirstEosIndex(tokens: seq<nat>, eos: set<nat>) returns (r: Option<nat>)
    ensures r == FirstEos(tokens, eos)
  {
    for idx := 0 to |tokens|
      invariant forall j :: 0 <= j < idx ==> tokens[j] !in eos
    {
      if tokens[idx] in eos {
        FirstEosUnique(tokens, eos, idx);
        return Some(idx);
      }
    }
    return None;
  }

  function CutAtEos(tokens: seq<nat>, eos: set<nat>): (r: seq<nat>)
    ensures r <= tokens
  {
    match FirstEos(tokens, eos)
    case None => tokens
    case Some(i) => tokens[..i + 1]
  }

  method TruncateAtFirstEos(completion: seq<nat>, eos: set<nat>) returns (r: seq<nat>)
    ensures r == CutAtEos(completion, eos)
  {
    if eos == {} { return completion; }
    for i := 0 to |completion|
      invariant forall j :: 0 <= j < i ==> completion[j] !in eos
    {
      if completion[i] in eos {
        FirstEosUnique(completion, eos, i);
        return completion[..i + 1];
      }
    }
    return completion;
  }

  /** The validator's rule: exactly one EOS, in last position. */
  predicate TerminationOk(completion: seq<nat>, eos: set<nat>) {
    var positions := set i | 0 <= i < |completion| && completion[i] in eos;
    positions == {|completion| - 1}
  }

  lemma TerminationMeaning(completion: seq<nat>, eos: set<nat>)
    ensures TerminationOk(completion, eos)
       <==> completion != [] && completion[|completion| - 1] in eos
            && forall i :: 0 <= i < |completion| - 1 ==> completion[i] !in eos
  {
    var positions := set i | 0 <= i < |completion| && completion[i] in eos;
    assert completion != [] && completion[|completion| - 1] in eos <==> |completion| - 1 in positions;
    assert forall i :: i in positions <==> 0 <= i < |completion| && completion[i] in eos;
  }

  lemma CutMeetsTheRule(completion: seq<nat>, eos: set<nat>)
    ensures TerminationOk(CutAtEos(completion, eos), eos) <==> exists i :: 0 <= i < |completion| && completion[i] in eos
  {
    var c := CutAtEos(completion, eos);
    var positions := set i | 0 <= i < |c| && c[i] in eos;
    match FirstEos(completion, eos) {
      case None =>
        assert |c| - 1 !in positions;
      case Some(i) =>
        assert |c| - 1 in positions;
    }
  }

  /** Two lists that agree up to and including an EOS are cut alike. */
  lemma CutAgrees(a: seq<nat>, b: seq<nat>, eos: set<nat>, k: nat)
    requires k < |a| && k < |b| && a[..k + 1] == b[..k + 1] && a[k] in eos
    ensures CutAtEos(a, eos) == CutAtEos(b, eos)
    ensures FirstEos(a, eos) == FirstEos(b, eos)
  {
    var i := FirstEos(a, eos).value;
    forall j | 0 <= j <= i ensures a[j] == b[j] {
      assert a[..k + 1][j] == b[..k + 1][j];
    }
    FirstEosUnique(b, eos, i);
    assert a[..i + 1] == a[..k + 1][..i + 1] == b[..k + 1][..i + 1] == b[..i + 1];
  }

  // ---------- the decoding loop ----------

  datatype Processor = Processor(promptIndices: seq<int>, rolloutIndices: seq<int>, baseOffsets: seq<int>,
                                 startLen: int)

  /** The positions a processor call looks at: every row advances with the width of the batch. */
  function CoordAt(p: Processor, r: nat, width: int): Coord
    requires r < |p.promptIndices| == |p.rolloutIndices| == |p.baseOffsets|
  {
    Coord(p.promptIndices[r], p.rolloutIndices[r], p.baseOffsets[r] + (width - p.startLen))
  }

  /** What attention sees of a padded row. */
  function Unpad(row: seq<nat>, mask: seq<bool>): seq<nat>
    requires |row| == |mask|
  {
    if row == [] then [] else (if mask[0] then [row[0]] else []) + Unpad(row[1..], mask[1..])
  }

  function Repeat<T>(x: T, n: nat): (r: seq<T>)
    ensures |r| == n
  {
    seq(n, _ => x)
  }

  lemma {:induction false} UnpadLeft(pad: nat, n: nat, row: seq<nat>)
    ensures Unpad(Repeat(pad, n) + row, Repeat(false, n) + Repeat(true, |row|)) == row
  {
    var xs, ms := Repeat(pad, n) + row, Repeat(false, n) + Repeat(true, |row|);
    if n > 0 {
      assert xs[1..] == Repeat(pad, n - 1) + row;
      assert ms[1..] == Repeat(false, n - 1) + Repeat(true, |row|);
      UnpadLeft(pad, n - 1, row);
    } else if row != [] {
      assert xs == row && ms == Repeat(true, |row|);
      UnpadLeft(pad, 0, row[1..]);
      assert xs[1..] == Repeat(pad, 0) + row[1..];
      assert ms[1..] == Repeat(false, 0) + Repeat(true, |row[1..]|);
    }
  }

  /** What one row generated: its stream, up to its first stop token (then padding) or for the
      whole budget. */
  ghost predicate Generated(w: Draw, ctx: seq<nat>, c: Coord, maxNew: nat, stops: set<nat>, tail: seq<nat>, fin: nat) {
    && fin <= |tail| <= maxNew
    && tail[..fin] == Stream(w, ctx, c, fin)
    && (if fin > 0 && tail[fin - 1] in stops
        then forall j :: 0 <= j < fin - 1 ==> tail[j] !in stops
        else fin == |tail| == maxNew && forall j :: 0 <= j < fin ==> tail[j] !in stops)
  }

  /** Inside the loop a row is either still on its stream or finished by a stop token. */
  ghost predicate RowState(w: Draw, ctx: seq<nat>, c: Coord, stops: set<nat>, gen: seq<nat>, done: bool, fin: nat) {
    && fin <= |gen|
    && gen[..fin] == Stream(w, ctx, c, fin)
    && (if done then fin > 0 && gen[fin - 1] in stops && forall j :: 0 <= j < fin - 1 ==> gen[j] !in stops
        else fin == |gen| && forall j :: 0 <= j < fin ==> gen[j] !in stops)
  }

  lemma RowStep(w: Draw, ctx: seq<nat>, c: Coord, stops: set<nat>, gen: seq<nat>, done: bool, fin: nat, next: nat)
    requires RowState(w, ctx, c, stops, gen, done, fin)
    requires !done ==> next == w(ctx + gen, c.(t := c.t + |gen|))
    ensures RowState(w, ctx, c, stops, gen + [next], done || next in stops, if done then fin else fin + 1)
  {
    if !done {
      assert gen == gen[..fin];
      assert (gen + [next])[..fin + 1] == gen + [next] == Stream(w, ctx, c, fin + 1);
    } else {
      assert (gen + [next])[..fin] == gen[..fin];
    }
  }

  ghost predicate RowsState(w: Draw, rows: seq<seq<nat>>, mask: seq<seq<bool>>, p: Processor, stops: set<nat>,
                            gens: seq<seq<nat>>, done: seq<bool>, fins: seq<nat>, steps: nat)
    requires |rows| == |mask| == |p.promptIndices| == |p.rolloutIndices| == |p.baseOffsets|
    requires forall r :: 0 <= r < |rows| ==> |rows[r]| == |mask[r]| == p.startLen
  {
    && |gens| == |done| == |fins| == |rows|
    && (forall r :: 0 <= r < |rows| ==> |gens[r]| == steps)
    && (forall r :: 0 <= r < |rows| ==>
          RowState(w, Unpad(rows[r], mask[r]), CoordAt(p, r, p.startLen), stops, gens[r], done[r], fins[r]))
  }

  /** What a row gets at a step: the pad once it is finished, else the draw for its unpadded context at
      its own offset. */
  function NextToken(w: Draw, row: seq<nat>, mask: seq<bool>, c: Coord, gen: seq<nat>, done: bool, pad: nat): nat
    requires |row| == |mask|
  {
    if done then pad else w(Unpad(row, mask) + gen, c)
  }

  method ForceAll(w: Draw, rows: seq<seq<nat>>, mask: seq<seq<bool>>, p: Processor, pad: nat,
                  gens: seq<seq<nat>>, done: seq<bool>, width: int)
    returns (next: seq<nat>)
    requires |rows| == |mask| == |p.promptIndices| == |p.rolloutIndices| == |p.baseOffsets| == |gens| == |done|
    requires forall r :: 0 <= r < |rows| ==> |rows[r]| == |mask[r]|
    ensures |next| == |rows|
    ensures forall r :: 0 <= r < |rows| ==>
      next[r] == NextToken(w, rows[r], mask[r], CoordAt(p, r, width), gens[r], done[r], pad)
  {
    next := [];
    for r := 0 to |rows|
      invariant |next| == r
      invariant forall i :: 0 <= i < r ==>
        next[i] == NextToken(w, rows[i], mask[i], CoordAt(p, i, width), gens[i], done[i], pad)
    {
      next := next + [NextToken(w, rows[r], mask[r], CoordAt(p, r, width), gens[r], done[r], pad)];
    }
  }

  /** One decoding step: the processor forces a token in every row, finished rows get the pad. */
  method DecodeStep(w: Draw, rows: seq<seq<nat>>, mask: seq<seq<bool>>, p: Processor, stops: set<nat>, pad: nat,
                    gens: seq<seq<nat>>, done: seq<bool>, ghost fins: seq<nat>, steps: nat)
    returns (gens': seq<seq<nat>>, done': seq<bool>, ghost fins': seq<nat>)
    requires |rows| == |mask| == |p.promptIndices| == |p.rolloutIndices| == |p.baseOffsets|
    requires forall r :: 0 <= r < |rows| ==> |rows[r]| == |mask[r]| == p.startLen
    requires RowsState(w, rows, mask, p, stops, gens, done, fins, steps)
    ensures RowsState(w, rows, mask, p, stops, gens', done', fins', steps + 1)
    ensures forall r :: 0 <= r < |rows| ==>
      var next := NextToken(w, rows[r], mask[r], CoordAt(p, r, p.startLen + steps), gens[r], done[r], pad);
      gens'[r] == gens[r] + [next] && (done'[r] <==> done[r] || next in stops)
  {
    var n := |rows|;
    var next := ForceAll(w, rows, mask, p, pad, gens, done, p.startLen + steps);
    gens' := seq(n, r requires 0 <= r < n => gens[r] + [next[r]]);
    done' := seq(n, r requires 0 <= r < n => done[r] || next[r] in stops);
    fins' := seq(n, r requires 0 <= r < n => if done[r] then fins[r] else fins[r] + 1);
    forall r | 0 <= r < n
      ensures RowState(w, Unpad(rows[r], mask[r]), CoordAt(p, r, p.startLen), stops, gens'[r], done'[r], fins'[r])
    {
      assert CoordAt(p, r, p.startLen + steps) ==
        CoordAt(p, r, p.startLen).(t := CoordAt(p, r, p.startLen).t + |gens[r]|);
      RowStep(w, Unpad(rows[r], mask[r]), CoordAt(p, r, p.startLen), stops, gens[r], done[r], fins[r], next[r]);
    }
  }

  /** generate() with greedy decoding of the processor's one-hot scores, until every row is
      finished or the budget is spent. */
  method Generate(w: Draw, rows: seq<seq<nat>>, mask: seq<seq<bool>>, p: Processor, maxNew: nat, stops: set<nat>,
                  pad: nat)
    returns (gens: seq<seq<nat>>, steps: nat, ghost fins: seq<nat>)
    requires |rows| == |mask| == |p.promptIndices| == |p.rolloutIndices| == |p.baseOffsets|
    requires forall r :: 0 <= r < |rows| ==> |rows[r]| == |mask[r]| == p.startLen
    ensures |gens| == |rows| == |fins| && steps <= maxNew
    ensures forall r :: 0 <= r < |rows| ==> |gens[r]| == steps
    ensures forall r :: 0 <= r < |rows| ==>
      Generated(w, Unpad(rows[r], mask[r]), CoordAt(p, r, p.startLen), maxNew, stops, gens[r], fins[r])
  {
    var done := Repeat(false, |rows|);
    gens, steps, fins := Repeat([], |rows|), 0, Repeat(0, |rows|);
    while steps < maxNew && false in done
      invariant steps <= maxNew
      invariant RowsState(w, rows, mask, p, stops, gens, done, fins, steps)
      decreases maxNew - steps
    {
      gens, done, fins := DecodeStep(w, rows, mask, p, stops, pad, gens, done, fins, steps);
      steps := steps + 1;
    }
    assert forall r :: 0 <= r < |rows| ==> done[r] || steps == maxNew;
  }

  /** Truncated at its first EOS, what a row generated is its stream truncated at its first EOS. */
  lemma GeneratedCut(w: Draw, ctx: seq<nat>, c: Coord, maxNew: nat, stops: set<nat>, tail: seq<nat>, fin: nat,
                     eos: set<nat>)
    requires Generated(w, ctx, c, maxNew, stops, tail, fin) && stops <= eos
    ensures CutAtEos(tail, eos) == CutAtEos(Stream(w, ctx, c, maxNew), eos)
  {
    if fin > 0 && tail[fin - 1] in stops {
      StreamPrefix(w, ctx, c, fin, maxNew);
      CutAgrees(tail, Stream(w, ctx, c, maxNew), eos, fin - 1);
    } else {
      assert tail[..fin] == tail;
    }
  }
}

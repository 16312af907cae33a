/** The generation and masking modules with the protocol sampler plugged in, and what the
    validator's seed-consistency check then says of honest work. */
module ForcedDraw {
  import opened ForcedSampling
  import opened SamplingFacts
  import opened Generation
  import opened Bft
  import opened BftProperties
  import ForcedRows

  /** A language model, the public uniforms, and the sampler parameters. */
  datatype World = World(lm: seq<nat> -> seq<Logit>, u: Coord -> real, params: Params)

  ghost predicate ValidWorld(w: World) {
    && (forall ctx :: w.lm(ctx) != [])
  }

  function DrawAt(w: World, ctx: seq<nat>, c: Coord): nat {
    if w.lm(ctx) == [] then 0 else ForceRow(w.lm(ctx), w.u(c), w.params)
  }

  function DrawOf(w: World): Draw {
    (ctx, c) => DrawAt(w, ctx, c)
  }

  /** A greedy decoder that sees these scores emits exactly the draw for ctx at c. */
  ghost predicate Emits(w: World, scores: seq<Logit>, ctx: seq<nat>, c: Coord) {
    forall tok: nat :: ForcedRows.IsArgmax(scores, tok) <==> tok == DrawAt(w, ctx, c)
  }

  lemma OneHotEmits(w: World, n: nat, forced: nat, ctx: seq<nat>, c: Coord)
    requires forced == DrawAt(w, ctx, c) && forced < n
    ensures Emits(w, ForcedRows.OneHot(n, forced), ctx, c)
  {
    forall tok: nat ensures ForcedRows.IsArgmax(ForcedRows.OneHot(n, forced), tok) <==> tok == forced {
      ForcedRows.OneHotArgmax(n, forced, tok);
    }
  }

  function Force(w: World, scores: seq<seq<Logit>>, us: seq<real>): (toks: seq<nat>)
    requires |scores| == |us| && forall r | 0 <= r < |scores| :: scores[r] != []
    ensures |toks| == |scores|
    ensures forall r :: 0 <= r < |scores| ==> toks[r] < |scores[r]| && toks[r] == ForceRow(scores[r], us[r], w.params)
  {
    var toks := ForceRowsBatched(scores, us, w.params);
    seq(|toks|, r requires 0 <= r < |toks| => toks[r])
  }

  /** The processor's call after some steps: each row's coordinate is its own base offset plus the steps,
      and a greedy decoder behind its one-hot scores emits exactly that row's draw. */
  method ProcessorCall(w: World, p: Processor, scores: seq<seq<Logit>>, width: nat,
                       ghost ctxs: seq<seq<nat>>, ghost steps: nat)
    returns (out: seq<seq<Logit>>)
    requires ValidWorld(w) && |scores| == |ctxs| == |p.promptIndices| == |p.rolloutIndices| == |p.baseOffsets|
    requires width == p.startLen + steps && forall r :: 0 <= r < |scores| ==> scores[r] == w.lm(ctxs[r])
    ensures |out| == |scores|
    ensures forall r :: 0 <= r < |scores| ==>
      Emits(w, out[r], ctxs[r], Coord(p.promptIndices[r], p.rolloutIndices[r], p.baseOffsets[r] + steps))
  {
    var n := |scores|;
    var us := seq(n, r requires 0 <= r < n => w.u(CoordAt(p, r, width)));
    var forced := Force(w, scores, us);
    out := seq(n, r requires 0 <= r < n => ForcedRows.OneHot(|scores[r]|, forced[r]));
    forall r | 0 <= r < n
      ensures Emits(w, out[r], ctxs[r], Coord(p.promptIndices[r], p.rolloutIndices[r], p.baseOffsets[r] + steps))
    {
      OneHotEmits(w, |scores[r]|, forced[r], ctxs[r], CoordAt(p, r, width));
    }
  }

  // ---------- the validator's view of a rollout ----------

  function CheckRows(w: World, r: Rollout, ts: seq<nat>): seq<seq<Logit>>
    requires forall i :: 0 <= i < |ts| ==> r.promptLength + ts[i] <= |r.tokens|
  {
    seq(|ts|, i requires 0 <= i < |ts| => w.lm(r.tokens[..r.promptLength + ts[i]]))
  }

  function CheckTokens(r: Rollout, ts: seq<nat>): seq<int>
    requires forall i :: 0 <= i < |ts| ==> r.promptLength + ts[i] < |r.tokens|
  {
    seq(|ts|, i requires 0 <= i < |ts| => r.tokens[r.promptLength + ts[i]])
  }

  function CheckUs(w: World, pidx: int, rollout: int, ts: seq<nat>): seq<real> {
    seq(|ts|, i requires 0 <= i < |ts| => w.u(Coord(pidx, rollout, ts[i])))
  }

  ghost predicate Checkable(r: Rollout, ts: seq<nat>) {
    forall i :: 0 <= i < |ts| ==> r.promptLength + ts[i] < |r.tokens| && !InSpan(r, r.promptLength + ts[i])
  }

  /** A rollout that replays scores n_match = n_stoch, whichever completion positions outside the
      injected span the validator looks at. */
  lemma ReplayingRolloutIsConsistent(w: World, r: Rollout, pidx: int, rollout: int, ts: seq<nat>, threshold: real)
    requires ValidWorld(w) && Replays(DrawOf(w), r, pidx, rollout) && Checkable(r, ts)
    ensures var (stoch, matched) :=
        SeedConsistency(CheckRows(w, r, ts), CheckTokens(r, ts), CheckUs(w, pidx, rollout, ts), w.params, threshold);
      stoch == matched
  {
    var rows, toks, us := CheckRows(w, r, ts), CheckTokens(r, ts), CheckUs(w, pidx, rollout, ts);
    forall i | 0 <= i < |ts| ensures toks[i] == ForceRow(rows[i], us[i], w.params) {
      assert ReplaysAt(DrawOf(w), r.tokens, r.promptLength, pidx, rollout, ts[i]);
      assert DrawOf(w)(r.tokens[..r.promptLength + ts[i]], Coord(pidx, rollout, ts[i]))
          == DrawAt(w, r.tokens[..r.promptLength + ts[i]], Coord(pidx, rollout, ts[i]));
    }
    SeedConsistencyHonest(rows, toks, us, w.params, threshold);
  }

  // ---------- the vLLM processor ----------

  function SamplerProtocol(params: Params, u: (ForcedRows.FsArgs, int) -> real): ForcedRows.Protocol {
    ForcedRows.Protocol((row, x) => if row == [] then 0 else ForceRow(row, x, params), u)
  }

  /** A token list built by greedy decoding behind the processor's mask matches at every stochastic
      position. */
  lemma MaskedListIsConsistent(params: Params, u: (ForcedRows.FsArgs, int) -> real, fs: ForcedRows.FsArgs,
                               rows: seq<seq<Logit>>, toks: seq<nat>, us: seq<real>, threshold: real)
    requires |rows| == |toks| == |us|
    requires forall j :: 0 <= j < |rows| ==> rows[j] != [] && us[j] == u(fs, fs.baseOffset + j)
    requires forall j :: 0 <= j < |rows| ==>
      ForcedRows.IsArgmax(ForcedRows.ForceRowMask(SamplerProtocol(params, u), rows[j], fs, fs.baseOffset + j), toks[j])
    ensures SeedConsistency(rows, toks, us, params, threshold).0 == SeedConsistency(rows, toks, us, params, threshold).1
  {
    var k := SamplerProtocol(params, u);
    forall j | 0 <= j < |rows| ensures ForceRow(rows[j], us[j], params) == toks[j] {
      assert k.force(rows[j], us[j]) == ForceRow(rows[j], us[j], params);
      ForcedRows.GreedyEmitsForcedToken(k, rows[j], fs, fs.baseOffset + j, toks[j]);
    }
    SeedConsistencyHonest(rows, toks, us, params, threshold);
  }
}

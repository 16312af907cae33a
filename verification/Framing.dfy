/** What the signatures sign: domain tag, then length-prefixed fields.

    The hash over a preimage is injective, so two signatures agree iff their preimages do. Text
    fields are their UTF-8 bytes and hex fields their decoded bytes.
 */
module Framing {
  import opened Wrappers

  type byte = x: int | 0 <= x < 256
  type Bytes = seq<byte>

  function Pow256(k: nat): nat {
    if k == 0 then 1 else 256 * Pow256(k - 1)
  }

  /** n.to_bytes(k, "big"), for n in range. */
  function BigEndian(n: nat, k: nat): (r: Bytes)
    ensures |r| == k
  {
    if k == 0 then [] else BigEndian(n / 256, k - 1) + [n % 256]
  }

  /** int.from_bytes(b, "big") */
  function FromBigEndian(b: Bytes): nat {
    if b == [] then 0 else FromBigEndian(b[..|b| - 1]) * 256 + b[|b| - 1]
  }

  lemma {:induction false} BigEndianRoundTrip(n: nat, k: nat)
    requires n < Pow256(k)
    ensures FromBigEndian(BigEndian(n, k)) == n
  {
    if k > 0 {
      BigEndianRoundTrip(n / 256, k - 1);
      assert BigEndian(n, k)[..k - 1] == BigEndian(n / 256, k - 1);
    }
  }

  lemma {:induction false} FromBigEndianRange(b: Bytes)
    ensures FromBigEndian(b) < Pow256(|b|)
  {
    if b != [] { FromBigEndianRange(b[..|b| - 1]); }
  }

  const U64_LIMIT := 0x1_0000_0000_0000_0000
  const U32_LIMIT := 0x1_0000_0000
  const U16_LIMIT := 0x1_0000

  lemma Limits()
    ensures Pow256(8) == U64_LIMIT && Pow256(4) == U32_LIMIT && Pow256(2) == U16_LIMIT
  {
    assert Pow256(1) == 256;
    assert Pow256(2) == 65536;
    assert Pow256(3) == 16777216;
    assert Pow256(4) == 4294967296;
    assert Pow256(5) == 256 * Pow256(4);
    assert Pow256(6) == 256 * Pow256(5);
    assert Pow256(7) == 256 * Pow256(6);
    assert Pow256(8) == 256 * Pow256(7);
  }

  /** layer_index.to_bytes(4, "big", signed=True) */
  function Signed32(n: int): nat
    requires -0x8000_0000 <= n < 0x8000_0000
  {
    if n >= 0 then n else n + U32_LIMIT
  }

  function FromSigned32(n: nat): int {
    if n < 0x8000_0000 then n else n - U32_LIMIT
  }

  // ---------- length-prefixed fields ----------

  function Lp(field: Bytes, width: nat): Bytes {
    BigEndian(|field|, width) + field
  }

  function Frame(fields: seq<Bytes>): Bytes {
    if fields == [] then [] else Lp(fields[0], 4) + Frame(fields[1..])
  }

  ghost predicate FieldsFit(fields: seq<Bytes>) {
    forall f :: f in fields ==> |f| < U32_LIMIT
  }

  /** Reads one length-prefixed field. */
  function ReadField(b: Bytes, width: nat): Option<(Bytes, Bytes)> {
    if |b| < width then None
    else
      var n := FromBigEndian(b[..width]);
      if |b| < width + n then None else Some((b[width..width + n], b[width + n..]))
  }

  lemma ReadLp(field: Bytes, width: nat, rest: Bytes)
    requires |field| < Pow256(width)
    ensures ReadField(Lp(field, width) + rest, width) == Some((field, rest))
  {
    var b := Lp(field, width) + rest;
    BigEndianRoundTrip(|field|, width);
    assert b[..width] == BigEndian(|field|, width);
    assert b[width..width + |field|] == field && b[width + |field|..] == rest;
  }

  function Unframe(b: Bytes): Option<seq<Bytes>>
    decreases |b|
  {
    if b == [] then Some([])
    else match ReadField(b, 4)
      case None => None
      case Some((f, rest)) => match Unframe(rest)
        case None => None
        case Some(fs) => Some([f] + fs)
  }

  /** Field boundaries are unambiguous. */
  lemma {:induction false} UnframeFrame(fields: seq<Bytes>)
    requires FieldsFit(fields)
    ensures Unframe(Frame(fields)) == Some(fields)
  {
    Limits();
    if fields != [] {
      assert fields[0] in fields && FieldsFit(fields[1..]);
      UnframeFrame(fields[1..]);
      ReadLp(fields[0], 4, Frame(fields[1..]));
      assert [fields[0]] + fields[1..] == fields;
    }
  }

  // ---------- domains ----------

  datatype Domain = Commit | EnvelopeV1 | EnvelopeV2 | EnvelopeV3 | PrecommitV2 | PrecommitV3

  function TagText(d: Domain): string {
    match d
    case Commit => "grail-commit-v1"
    case EnvelopeV1 => "reliquary-envelope-v1"
    case EnvelopeV2 => "reliquary-envelope-v2"
    case EnvelopeV3 => "reliquary-envelope-v3"
    case PrecommitV2 => "reliquary-upload-precommit-v2"
    case PrecommitV3 => "reliquary-upload-precommit-v3"
  }

  function CharByte(c: char): byte {
    c as int % 256
  }

  function Tag(d: Domain): (r: Bytes)
    ensures |r| == |TagText(d)|
  {
    var t := TagText(d);
    seq(|t|, i requires 0 <= i < |t| => CharByte(t[i]))
  }

  /** Where two different tags first differ. */
  function Difference(d: Domain, d': Domain): nat {
    if d.Commit? || d'.Commit? then 0
    else if (d.EnvelopeV1? || d.EnvelopeV2? || d.EnvelopeV3?) && (d'.EnvelopeV1? || d'.EnvelopeV2? || d'.EnvelopeV3?)
    then 20
    else if (d.PrecommitV2? || d.PrecommitV3?) && (d'.PrecommitV2? || d'.PrecommitV3?) then 28
    else 10
  }

  lemma TagsDiffer(d: Domain, d': Domain)
    requires d != d'
    ensures Difference(d, d') < |Tag(d)| && Difference(d, d') < |Tag(d')|
    ensures Tag(d)[Difference(d, d')] != Tag(d')[Difference(d, d')]
  {
  }

  predicate HasTag(b: Bytes, d: Domain) {
    |b| >= |Tag(d)| && b[..|Tag(d)|] == Tag(d)
  }

  function DomainOf(b: Bytes): Option<Domain> {
    if HasTag(b, Commit) then Some(Commit)
    else if HasTag(b, EnvelopeV1) then Some(EnvelopeV1)
    else if HasTag(b, EnvelopeV2) then Some(EnvelopeV2)
    else if HasTag(b, EnvelopeV3) then Some(EnvelopeV3)
    else if HasTag(b, PrecommitV2) then Some(PrecommitV2)
    else if HasTag(b, PrecommitV3) then Some(PrecommitV3)
    else None
  }

  lemma OnlyItsOwnTag(d: Domain, d': Domain, rest: Bytes)
    ensures HasTag(Tag(d) + rest, d') <==> d == d'
  {
    var b := Tag(d) + rest;
    if d == d' {
      assert b[..|Tag(d)|] == Tag(d);
    } else {
      TagsDiffer(d, d');
      var i := Difference(d, d');
      assert b[i] == Tag(d)[i];
      assert |b| >= |Tag(d')| ==> b[..|Tag(d')|][i] == b[i];
    }
  }

  lemma DomainOfTagged(d: Domain, rest: Bytes)
    ensures DomainOf(Tag(d) + rest) == Some(d)
  {
    OnlyItsOwnTag(d, Commit, rest);
    OnlyItsOwnTag(d, EnvelopeV1, rest);
    OnlyItsOwnTag(d, EnvelopeV2, rest);
    OnlyItsOwnTag(d, EnvelopeV3, rest);
    OnlyItsOwnTag(d, PrecommitV2, rest);
    OnlyItsOwnTag(d, PrecommitV3, rest);
  }

  // ---------- the three bindings ----------

  datatype Message =
    | CommitMsg(tokensHash: Bytes, randomness: Bytes, model: Bytes, layer: int, commitmentsHash: Bytes)
    | EnvelopeMsg(hotkey: Bytes, window: int, prompt: int, merkle: Bytes, checkpoint: Bytes, round: int,
                  randomness: Bytes, nonce: Bytes, version: Option<int>, profile: Bytes)
    | PrecommitMsg(hotkey: Bytes, window: int, prompt: int, merkle: Bytes, checkpoint: Bytes, environment: Bytes,
                   payloadBytes: int, payloadSha: Bytes, round: int, randomness: Bytes, protocol: int,
                   nonce: Bytes, profile: Bytes)

  predicate FitsU64(n: int) { 0 <= n < U64_LIMIT }

  /** Every integer converts to its fixed number of bytes. */
  predicate IntegersFit(m: Message) {
    match m
    case CommitMsg(_, _, _, layer, _) => -0x8000_0000 <= layer < 0x8000_0000
    case EnvelopeMsg(_, window, prompt, _, _, round, _, _, version, _) =>
      FitsU64(window) && FitsU64(prompt) && FitsU64(round) && (version.Some? ==> FitsU64(version.value))
    case PrecommitMsg(_, window, prompt, _, _, _, payloadBytes, _, round, _, protocol, _, _) =>
      FitsU64(window) && FitsU64(prompt) && FitsU64(payloadBytes) && FitsU64(round) && FitsU64(protocol)
  }

  function DomainFor(m: Message): Domain {
    match m
    case CommitMsg(_, _, _, _, _) => Commit
    case EnvelopeMsg(_, _, _, _, _, _, _, _, version, profile) =>
      if profile != [] then EnvelopeV3 else if version.None? then EnvelopeV1 else EnvelopeV2
    case PrecommitMsg(_, _, _, _, _, _, _, _, _, _, _, _, profile) =>
      if profile != [] then PrecommitV3 else PrecommitV2
  }

  function VersionOr0(v: Option<int>): int {
    if v.Some? then v.value else 0
  }

  function U64(n: int): Bytes
    requires FitsU64(n)
  {
    BigEndian(n, 8)
  }

  function Parts(m: Message): seq<Bytes>
    requires IntegersFit(m)
  {
    match m
    case CommitMsg(th, r, mo, layer, ch) => [th, r, mo, BigEndian(Signed32(layer), 4), ch]
    case EnvelopeMsg(h, w, p, me, c, ro, ra, n, version, profile) =>
      if profile != [] then
        [h, U64(w), U64(p), me, c, U64(ro), ra, n, U64(VersionOr0(version)), profile]
      else if version.None? then
        [h, U64(w), U64(p), me, c, U64(ro), ra, n]
      else
        [h, U64(w), U64(p), me, c, U64(ro), U64(version.value), ra, n]
    case PrecommitMsg(h, w, p, me, c, e, pb, ps, ro, ra, pr, n, profile) =>
      [h, U64(w), U64(p), me, c, e, U64(pb), ps, U64(ro), ra, U64(pr), n] + (if profile != [] then [profile] else [])
  }

  /** What is fed to the hash; an integer or a length out of range raises OverflowError. */
  function Preimage(m: Message): Result<Bytes, string> {
    if !IntegersFit(m) then Err("OverflowError")
    else if exists f | f in Parts(m) :: |f| >= U32_LIMIT then Err("OverflowError")
    else Ok(Tag(DomainFor(m)) + Frame(Parts(m)))
  }

  lemma FrameNext(parts: seq<Bytes>, i: nat, fed: Bytes)
    requires i < |parts|
    ensures fed + Frame(parts[i..]) == (fed + BigEndian(|parts[i]|, 4) + parts[i]) + Frame(parts[i + 1..])
  {
    assert parts[i..][0] == parts[i] && parts[i..][1..] == parts[i + 1..];
    var n, part, rest := BigEndian(|parts[i]|, 4), parts[i], Frame(parts[i + 1..]);
    assert fed + ((n + part) + rest) == (fed + n + part) + rest;
  }

  /** The hashing loop: one update for the domain, two for each field. */
  method Feed(tag: Bytes, parts: seq<Bytes>) returns (r: Result<Bytes, string>)
    ensures r == if exists f | f in parts :: |f| >= U32_LIMIT then Err("OverflowError") else Ok(tag + Frame(parts))
  {
    var fed := tag;
    for i := 0 to |parts|
      invariant fed + Frame(parts[i..]) == tag + Frame(parts)
      invariant forall j :: 0 <= j < i ==> |parts[j]| < U32_LIMIT
    {
      if |parts[i]| >= U32_LIMIT { return Err("OverflowError"); }
      FrameNext(parts, i, fed);
      fed := fed + BigEndian(|parts[i]|, 4) + parts[i];
    }
    assert parts[|parts|..] == [] && fed + [] == fed;
    return Ok(fed);
  }

  method BuildBinding(m: Message) returns (r: Result<Bytes, string>)
    ensures r == Preimage(m)
  {
    if !IntegersFit(m) { return Err("OverflowError"); }
    r := Feed(Tag(DomainFor(m)), Parts(m));
  }

  /** The v3 envelope reads a missing protocol version as 0. */
  function Canonical(m: Message): Message {
    match m
    case EnvelopeMsg(h, w, p, me, c, ro, ra, n, version, profile) =>
      if profile != [] then EnvelopeMsg(h, w, p, me, c, ro, ra, n, Some(VersionOr0(version)), profile) else m
    case _ => m
  }

  function Decode(b: Bytes): Option<Message> {
    match DomainOf(b)
    case None => None
    case Some(d) => match Unframe(b[|Tag(d)|..])
      case None => None
      case Some(fs) => DecodeParts(d, fs)
  }

  function DecodeParts(d: Domain, f: seq<Bytes>): Option<Message> {
    var N := FromBigEndian;
    match d
    case Commit =>
      if |f| != 5 then None else Some(CommitMsg(f[0], f[1], f[2], FromSigned32(N(f[3])), f[4]))
    case EnvelopeV1 =>
      if |f| != 8 then None
      else Some(EnvelopeMsg(f[0], N(f[1]), N(f[2]), f[3], f[4], N(f[5]), f[6], f[7], None, []))
    case EnvelopeV2 =>
      if |f| != 9 then None
      else Some(EnvelopeMsg(f[0], N(f[1]), N(f[2]), f[3], f[4], N(f[5]), f[7], f[8], Some(N(f[6])), []))
    case EnvelopeV3 =>
      if |f| != 10 then None
      else Some(EnvelopeMsg(f[0], N(f[1]), N(f[2]), f[3], f[4], N(f[5]), f[6], f[7], Some(N(f[8])), f[9]))
    case PrecommitV2 =>
      if |f| != 12 then None
      else Some(PrecommitMsg(f[0], N(f[1]), N(f[2]), f[3], f[4], f[5], N(f[6]), f[7], N(f[8]), f[9], N(f[10]), f[11],
                             []))
    case PrecommitV3 =>
      if |f| != 13 then None
      else Some(PrecommitMsg(f[0], N(f[1]), N(f[2]), f[3], f[4], f[5], N(f[6]), f[7], N(f[8]), f[9], N(f[10]), f[11],
                             f[12]))
  }

  lemma U64RoundTrip(n: int)
    requires FitsU64(n)
    ensures FromBigEndian(U64(n)) == n
  {
    Limits();
    BigEndianRoundTrip(n, 8);
  }

  lemma CommitRoundTrip(m: Message)
    requires m.CommitMsg? && IntegersFit(m)
    ensures DecodeParts(DomainFor(m), Parts(m)) == Some(Canonical(m))
  {
    Limits();
    BigEndianRoundTrip(Signed32(m.layer), 4);
  }

  lemma EnvelopeRoundTrip(m: Message)
    requires m.EnvelopeMsg? && IntegersFit(m)
    ensures DecodeParts(DomainFor(m), Parts(m)) == Some(Canonical(m))
  {
    U64RoundTrip(m.window);
    U64RoundTrip(m.prompt);
    U64RoundTrip(m.round);
    U64RoundTrip(VersionOr0(m.version));
  }

  lemma PrecommitRoundTrip(m: Message)
    requires m.PrecommitMsg? && IntegersFit(m)
    ensures DecodeParts(DomainFor(m), Parts(m)) == Some(Canonical(m))
  {
    U64RoundTrip(m.window);
    U64RoundTrip(m.prompt);
    U64RoundTrip(m.payloadBytes);
    U64RoundTrip(m.round);
    U64RoundTrip(m.protocol);
  }

  lemma PartsRoundTrip(m: Message)
    requires IntegersFit(m)
    ensures DecodeParts(DomainFor(m), Parts(m)) == Some(Canonical(m))
  {
    match m {
      case CommitMsg(_, _, _, _, _) => CommitRoundTrip(m);
      case EnvelopeMsg(_, _, _, _, _, _, _, _, _, _) => EnvelopeRoundTrip(m);
      case PrecommitMsg(_, _, _, _, _, _, _, _, _, _, _, _, _) => PrecommitRoundTrip(m);
    }
  }

  /** Every preimage decodes to the message it was built from. */
  lemma DecodePreimage(m: Message)
    requires Preimage(m).Ok?
    ensures Decode(Preimage(m).value) == Some(Canonical(m))
  {
    var tag, body := Tag(DomainFor(m)), Frame(Parts(m));
    DomainOfTagged(DomainFor(m), body);
    assert (tag + body)[|tag|..] == body;
    UnframeFrame(Parts(m));
    PartsRoundTrip(m);
  }

  /** Two bindings share a preimage exactly when they are the same message of the same kind. */
  lemma PreimageBindsMessage(m: Message, m': Message)
    requires Preimage(m).Ok? && Preimage(m').Ok?
    ensures Preimage(m) == Preimage(m') <==> Canonical(m) == Canonical(m')
    ensures Preimage(m) == Preimage(m') ==> DomainFor(m) == DomainFor(m')
  {
    DecodePreimage(m);
    DecodePreimage(m');
    if Canonical(m) == Canonical(m') {
      assert DomainFor(m) == DomainFor(m') && Parts(m) == Parts(m');
    } else if Preimage(m) == Preimage(m') {
      assert false;
    }
    if Preimage(m) == Preimage(m') { assert DomainFor(m) == DomainFor(Canonical(m)); }
  }

  // ---------- where each field lies ----------

  /** The fields after the tag. */
  function FieldsOf(b: Bytes, tag: string): seq<Bytes> {
    if |b| < |tag| then [] else match Unframe(b[|tag|..]) case Some(fs) => fs case None => []
  }

  lemma FieldsAre(m: Message)
    requires Preimage(m).Ok?
    ensures FieldsOf(Preimage(m).value, TagText(DomainFor(m))) == Parts(m)
  {
    var tag, body := Tag(DomainFor(m)), Frame(Parts(m));
    assert (tag + body)[|tag|..] == body;
    UnframeFrame(Parts(m));
  }

  lemma TagLayout(m: Message)
    ensures TagText(DomainFor(m)) == match m
      case CommitMsg(_, _, _, _, _) => "grail-commit-v1"
      case EnvelopeMsg(_, _, _, _, _, _, _, _, version, profile) =>
        if profile != [] then "reliquary-envelope-v3"
        else if version.None? then "reliquary-envelope-v1" else "reliquary-envelope-v2"
      case PrecommitMsg(_, _, _, _, _, _, _, _, _, _, _, _, profile) =>
        if profile != [] then "reliquary-upload-precommit-v3" else "reliquary-upload-precommit-v2"
  {
  }

  lemma CommitLayout(m: Message, f: seq<Bytes>)
    requires m.CommitMsg? && IntegersFit(m) && f == Parts(m)
    ensures |f| == 5 && f[0] == m.tokensHash && f[1] == m.randomness && f[2] == m.model && f[4] == m.commitmentsHash
    ensures |f[3]| == 4 && FromBigEndian(f[3]) == if m.layer >= 0 then m.layer else m.layer + 0x1_0000_0000
  {
    Limits();
    BigEndianRoundTrip(Signed32(m.layer), 4);
  }

  /** With a profile the version comes before it, without one it comes after the round, or not at all. */
  lemma EnvelopeLayout(m: Message, f: seq<Bytes>, late: nat)
    requires m.EnvelopeMsg? && IntegersFit(m) && f == Parts(m)
    requires late == if m.profile == [] && m.version.Some? then 1 else 0
    ensures |f| == if m.profile != [] then 10 else 8 + late
    ensures f[0] == m.hotkey && f[3] == m.merkle && f[4] == m.checkpoint
    ensures FromBigEndian(f[1]) == m.window && FromBigEndian(f[2]) == m.prompt && FromBigEndian(f[5]) == m.round
    ensures f[6 + late] == m.randomness && f[7 + late] == m.nonce
    ensures m.profile != [] ==> f[9] == m.profile
  {
    U64RoundTrip(m.window);
    U64RoundTrip(m.prompt);
    U64RoundTrip(m.round);
  }

  lemma VersionLayout(m: Message, f: seq<Bytes>)
    requires m.EnvelopeMsg? && IntegersFit(m) && f == Parts(m)
    ensures m.profile == [] && m.version.Some? ==> FromBigEndian(f[6]) == m.version.value
    ensures m.profile != [] ==> FromBigEndian(f[8]) == if m.version.Some? then m.version.value else 0
  {
    U64RoundTrip(VersionOr0(m.version));
  }

  lemma PrecommitLayout(m: Message, f: seq<Bytes>)
    requires m.PrecommitMsg? && IntegersFit(m) && f == Parts(m)
    ensures |f| == if m.profile != [] then 13 else 12
    ensures f[0] == m.hotkey && f[3] == m.merkle && f[4] == m.checkpoint && f[5] == m.environment
    ensures FromBigEndian(f[1]) == m.window && FromBigEndian(f[2]) == m.prompt && FromBigEndian(f[8]) == m.round
    ensures FromBigEndian(f[6]) == m.payloadBytes && f[7] == m.payloadSha
    ensures f[9] == m.randomness && FromBigEndian(f[10]) == m.protocol && f[11] == m.nonce
    ensures m.profile != [] ==> f[12] == m.profile
  {
    U64RoundTrip(m.window);
    U64RoundTrip(m.prompt);
    U64RoundTrip(m.payloadBytes);
    U64RoundTrip(m.round);
    U64RoundTrip(m.protocol);
  }

  // ---------- the forced-seed stream ----------

  datatype SeedInput = SeedInput(randomness: Bytes, prompt: int, checkpoint: Bytes, rollout: int, t: int)

  predicate SeedFits(s: SeedInput) {
    && |s.randomness| < U16_LIMIT && |s.checkpoint| < U16_LIMIT
    && FitsU64(s.prompt) && 0 <= s.rollout < U32_LIMIT && 0 <= s.t < U32_LIMIT
  }

  /** The preimage of u_at under one protocol domain. */
  function SeedPreimage(domain: Bytes, s: SeedInput): Result<Bytes, string> {
    if !SeedFits(s) then Err("OverflowError")
    else Ok(domain + Lp(s.randomness, 2) + BigEndian(s.prompt, 8) + Lp(s.checkpoint, 2)
            + BigEndian(s.rollout, 4) + BigEndian(s.t, 4))
  }

  lemma SplitEqual(a: Bytes, b: Bytes, a': Bytes, b': Bytes)
    requires |a| == |a'| && a + b == a' + b'
    ensures a == a' && b == b'
  {
    assert a == (a + b)[..|a|] && a' == (a' + b')[..|a|];
    assert b == (a + b)[|a|..] && b' == (a' + b')[|a|..];
  }

  lemma LpEqual(f: Bytes, rest: Bytes, f': Bytes, rest': Bytes, width: nat)
    requires |f| < Pow256(width) && |f'| < Pow256(width)
    requires Lp(f, width) + rest == Lp(f', width) + rest'
    ensures f == f' && rest == rest'
  {
    ReadLp(f, width, rest);
    ReadLp(f', width, rest');
  }

  lemma NumberEqual(n: nat, rest: Bytes, n': nat, rest': Bytes, k: nat)
    requires n < Pow256(k) && n' < Pow256(k)
    requires BigEndian(n, k) + rest == BigEndian(n', k) + rest'
    ensures n == n' && rest == rest'
  {
    SplitEqual(BigEndian(n, k), rest, BigEndian(n', k), rest');
    BigEndianRoundTrip(n, k);
    BigEndianRoundTrip(n', k);
  }

  /** Within a domain the preimage determines all five arguments: no two coordinates share a u. */
  lemma SeedPreimageBindsInput(domain: Bytes, s: SeedInput, s': SeedInput)
    requires SeedFits(s) && SeedFits(s')
    ensures SeedPreimage(domain, s) == SeedPreimage(domain, s') <==> s == s'
  {
    if SeedPreimage(domain, s) == SeedPreimage(domain, s') {
      Limits();
      var e, e' := BigEndian(s.t, 4), BigEndian(s'.t, 4);
      var d, d' := BigEndian(s.rollout, 4) + e, BigEndian(s'.rollout, 4) + e';
      var c, c' := Lp(s.checkpoint, 2) + d, Lp(s'.checkpoint, 2) + d';
      var b, b' := BigEndian(s.prompt, 8) + c, BigEndian(s'.prompt, 8) + c';
      var a, a' := Lp(s.randomness, 2) + b, Lp(s'.randomness, 2) + b';
      assert SeedPreimage(domain, s).value == domain + a;
      assert SeedPreimage(domain, s').value == domain + a';
      SplitEqual(domain, a, domain, a');
      LpEqual(s.randomness, b, s'.randomness, b', 2);
      NumberEqual(s.prompt, c, s'.prompt, c', 8);
      LpEqual(s.checkpoint, d, s'.checkpoint, d', 2);
      NumberEqual(s.rollout, e, s'.rollout, e', 4);
      assert e == e + [] && e' == e' + [];
      NumberEqual(s.t, [], s'.t, [], 4);
    }
  }

  lemma NumberFirst(n: nat, k: nat, rest: Bytes)
    requires n < Pow256(k)
    ensures FromBigEndian((BigEndian(n, k) + rest)[..k]) == n && (BigEndian(n, k) + rest)[k..] == rest
  {
    BigEndianRoundTrip(n, k);
    assert (BigEndian(n, k) + rest)[..k] == BigEndian(n, k);
  }

  /** Where each argument lies after the domain: the randomness behind two bytes of length, eight bytes of
      prompt index, the checkpoint behind two bytes of length, four bytes of rollout index, four of position. */
  lemma SeedLayout(domain: Bytes, s: SeedInput) returns (afterRandomness: Bytes, afterCheckpoint: Bytes)
    requires SeedFits(s)
    ensures domain <= SeedPreimage(domain, s).value
    ensures ReadField(SeedPreimage(domain, s).value[|domain|..], 2) == Some((s.randomness, afterRandomness))
    ensures |afterRandomness| >= 8 && FromBigEndian(afterRandomness[..8]) == s.prompt
    ensures ReadField(afterRandomness[8..], 2) == Some((s.checkpoint, afterCheckpoint))
    ensures |afterCheckpoint| == 8
    ensures FromBigEndian(afterCheckpoint[..4]) == s.rollout && FromBigEndian(afterCheckpoint[4..]) == s.t
  {
    Limits();
    afterCheckpoint := BigEndian(s.rollout, 4) + BigEndian(s.t, 4);
    afterRandomness := BigEndian(s.prompt, 8) + (Lp(s.checkpoint, 2) + afterCheckpoint);
    assert SeedPreimage(domain, s).value == domain + (Lp(s.randomness, 2) + afterRandomness);
    ReadLp(s.randomness, 2, afterRandomness);
    NumberFirst(s.prompt, 8, Lp(s.checkpoint, 2) + afterCheckpoint);
    ReadLp(s.checkpoint, 2, afterCheckpoint);
    NumberFirst(s.rollout, 4, BigEndian(s.t, 4));
    BigEndianRoundTrip(s.t, 4);
  }

  /** The uniform read off a digest. */
  function Uniform(digest: Bytes): real
    requires |digest| >= 8
  {
    FromBigEndian(digest[..8]) as real / U64_LIMIT as real
  }

  lemma FromBigEndianLast(b: Bytes, init: Bytes, x: byte)
    requires b == init + [x]
    ensures FromBigEndian(b) == FromBigEndian(init) * 256 + x
  {
    assert b[..|b| - 1] == init;
  }

  lemma FourBytes(a: byte, b: byte, c: byte, d: byte)
    ensures FromBigEndian([a, b, c, d]) == 0x1000000 * a + 0x10000 * b + 0x100 * c + d
  {
    FromBigEndianLast([a], [], a);
    FromBigEndianLast([a, b], [a], b);
    FromBigEndianLast([a, b, c], [a, b], c);
    FromBigEndianLast([a, b, c, d], [a, b, c], d);
  }

  /** Big-endian: the first byte weighs most. */
  lemma EightBytes(a: byte, b: byte, c: byte, d: byte, e: byte, f: byte, g: byte, h: byte)
    ensures FromBigEndian([a, b, c, d, e, f, g, h])
         == 0x1_0000_0000 * (0x1000000 * a + 0x10000 * b + 0x100 * c + d)
            + (0x1000000 * e + 0x10000 * f + 0x100 * g + h)
  {
    FourBytes(a, b, c, d);
    FromBigEndianLast([a, b, c, d, e], [a, b, c, d], e);
    FromBigEndianLast([a, b, c, d, e, f], [a, b, c, d, e], f);
    FromBigEndianLast([a, b, c, d, e, f, g], [a, b, c, d, e, f], g);
    FromBigEndianLast([a, b, c, d, e, f, g, h], [a, b, c, d, e, f, g], h);
  }

  /** The uniform is the first eight bytes, as a big-endian number, over 2^64, whatever follows them. */
  lemma UniformExactly(digest: Bytes, a: byte, b: byte, c: byte, d: byte, e: byte, f: byte, g: byte, h: byte)
    requires [a, b, c, d, e, f, g, h] <= digest
    ensures Uniform(digest) * 0x1_0000_0000_0000_0000 as real
         == (0x1_0000_0000 * (0x1000000 * a + 0x10000 * b + 0x100 * c + d)
             + (0x1000000 * e + 0x10000 * f + 0x100 * g + h)) as real
  {
    EightBytes(a, b, c, d, e, f, g, h);
    assert digest[..8] == [a, b, c, d, e, f, g, h];
  }

  lemma UniformInRange(digest: Bytes)
    requires |digest| >= 8
    ensures 0.0 <= Uniform(digest) < 1.0
  {
    Limits();
    FromBigEndianRange(digest[..8]);
  }
}

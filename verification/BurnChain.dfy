/** The iterated-hash burn of cpu-load-worker.js. SHA-256 and hexadecimal decoding are parameters;
    of the hash only its length is known. */
module BurnChain {
  import opened ByteString
  import opened JsObject
  import opened Rounding

  type Hash = Bytes -> Bytes

  const BURN_PROOF_STEP := 256

  function Zeros(n: nat): Bytes {
    seq(n, _ => 0)
  }

  /** `buffer.copy`: writes what fits, leaves the rest. */
  function Overlay(dst: Bytes, src: Bytes, at: nat): Bytes
    requires at <= |dst|
  {
    if at + |src| <= |dst| then dst[..at] + src + dst[at + |src|..] else dst[..at] + src[..|dst| - at]
  }

  /** A seed as it ends up in a zeroed 32-byte field. */
  function Field(seed: Bytes): Bytes {
    Overlay(Zeros(32), seed, 0)
  }

  /** `count` bytes, little endian, of the number modulo 256^count. */
  function LittleEndian(n: int, count: nat): (r: Bytes)
    ensures |r| == count
    decreases count, n < 0
  {
    if count == 0 then [] else [(n % 256) as byte] + LittleEndian(n / 256, count - 1)
  }

  /** `writeUInt32LE(n >>> 0)`. */
  function Le32(n: int): (r: Bytes)
    ensures |r| == 4
  {
    LittleEndian(n, 4)
  }

  function StartState(hash: Hash, seed: Bytes): Bytes {
    hash(Zeros(32) + Field(seed))
  }

  /** `n` steps from `state`, the first of them numbered `step`. */
  function Iterate(hash: Hash, seed: Bytes, state: Bytes, step: int, n: nat): Bytes {
    if n == 0 then state
    else hash(Iterate(hash, seed, state, step, n - 1) + Le32(step + n - 1) + Field(seed))
  }

  /** The states recorded on the way: those of the steps divisible by 256. */
  function Recorded(hash: Hash, seed: Bytes, state: Bytes, step: int, n: nat): seq<Bytes> {
    if n == 0 then []
    else
      Recorded(hash, seed, state, step, n - 1) +
      if (step + n - 1) % BURN_PROOF_STEP == 0 then [Iterate(hash, seed, state, step, n)] else []
  }

  lemma {:induction false} IterateSplit(hash: Hash, seed: Bytes, state: Bytes, step: int, m: nat, n: nat)
    ensures Iterate(hash, seed, Iterate(hash, seed, state, step, m), step + m, n) ==
            Iterate(hash, seed, state, step, m + n)
    ensures Recorded(hash, seed, state, step, m) +
            Recorded(hash, seed, Iterate(hash, seed, state, step, m), step + m, n) ==
            Recorded(hash, seed, state, step, m + n)
  {
    if n > 0 {
      IterateSplit(hash, seed, state, step, m, n - 1);
      assert step + m + n - 1 == (step + m) + n - 1;
    }
  }

  // ---- the worker as a value --------------------------------------------------------

  datatype Proof = Proof(
    seed: string, startState: Bytes, endState: Bytes, totalOps: int, intermediateProof: Option<Bytes>)

  datatype Worker = Worker(
    running: bool,
    activeSeed: Option<string>,
    totalOps: int,
    startState: Option<Bytes>,
    lastState: Bytes,
    absoluteStep: int,
    intermediates: seq<Bytes>,
    posted: seq<Proof>)

  datatype Crypto = Crypto(hash: Hash, decode: string -> Bytes)

  datatype Event = SetSeed(seed: Option<string>) | Turn(ops: nat) | Stop

  function Fresh(): Worker {
    Worker(true, None, 0, None, [], 0, [], [])
  }

  /** No seed burns 32 zero bytes. */
  function SeedBytes(c: Crypto, seed: Option<string>): Bytes {
    match seed
    case Some(s) => c.decode(s)
    case None => Zeros(32)
  }

  function IntermediateProof(c: Crypto, intermediates: seq<Bytes>): Option<Bytes> {
    if intermediates == [] then None else Some(c.hash(Concat(intermediates)))
  }

  /** One burst of `burnCpuOps`. */
  function Burn(c: Crypto, w: Worker, ops: int): Worker {
    var seed := SeedBytes(c, w.activeSeed);
    var state := if w.startState == None then StartState(c.hash, seed) else w.lastState;
    var n := ToInt32(ops);
    var steps: nat := if n > 0 then n else 0;
    w.(startState := Some(if w.startState == None then Zeros(32) else w.startState.value),
       lastState := Iterate(c.hash, seed, state, w.absoluteStep, steps),
       absoluteStep := w.absoluteStep + n,
       intermediates := w.intermediates + Recorded(c.hash, seed, state, w.absoluteStep, steps))
  }

  function Submit(c: Crypto, w: Worker): Worker {
    if w.activeSeed == None || w.totalOps < 1000 then w
    else
      w.(posted := w.posted + [Proof(
           w.activeSeed.value, if w.startState.Some? then w.startState.value else [], w.lastState, w.totalOps,
           IntermediateProof(c, w.intermediates))])
  }

  function SetActiveSeed(c: Crypto, w: Worker, seed: Option<string>): Worker {
    if seed == w.activeSeed then w
    else Worker(w.running, seed, 0, None, [], 0, [], Submit(c, w).posted)
  }

  function Step(c: Crypto, w: Worker, e: Event): Worker {
    if !w.running then w
    else
      match e
      case SetSeed(seed) => SetActiveSeed(c, w, seed)
      case Turn(ops) => Burn(c, w, ops).(totalOps := w.totalOps + ops)
      case Stop => Submit(c, w).(running := false)
  }

  function Run(c: Crypto, events: seq<Event>): Worker {
    if events == [] then Fresh() else Step(c, Run(c, events[..|events| - 1]), events[|events| - 1])
  }

  // ---- the reference: one uninterrupted burn per seed -------------------------------

  function ChainState(c: Crypto, seed: Bytes, n: nat): Bytes {
    Iterate(c.hash, seed, StartState(c.hash, seed), 0, n)
  }

  function ChainRecord(c: Crypto, seed: Bytes, n: nat): seq<Bytes> {
    Recorded(c.hash, seed, StartState(c.hash, seed), 0, n)
  }

  /** The proof of burning `n` steps under a seed in one go. */
  function OneShotProof(c: Crypto, seed: string, n: nat): Proof {
    Proof(seed, Zeros(32), ChainState(c, c.decode(seed), n), n, IntermediateProof(c, ChainRecord(c, c.decode(seed), n)))
  }

  predicate Stopped(events: seq<Event>) {
    exists i :: 0 <= i < |events| && events[i] == Stop
  }

  /** The seed in force after the events, and the operations burnt under it. */
  function SeedAfter(events: seq<Event>): Option<string> {
    if events == [] then None
    else
      var front, e := events[..|events| - 1], events[|events| - 1];
      if e.SetSeed? && !Stopped(front) then e.seed else SeedAfter(front)
  }

  function OpsAfter(events: seq<Event>): nat {
    if events == [] then 0
    else
      var front, e := events[..|events| - 1], events[|events| - 1];
      if Stopped(front) then OpsAfter(front)
      else if e.Turn? then OpsAfter(front) + e.ops
      else if e.SetSeed? && e.seed != SeedAfter(front) then 0
      else OpsAfter(front)
  }

  /** The proofs due: one for each seed left behind with at least 1000 operations. */
  function ProofsDue(c: Crypto, events: seq<Event>): seq<Proof> {
    if events == [] then []
    else
      var front, e := events[..|events| - 1], events[|events| - 1];
      var seed, n := SeedAfter(front), OpsAfter(front);
      var leaves := !Stopped(front) && (e == Stop || (e.SetSeed? && e.seed != seed));
      ProofsDue(c, front) + if leaves && seed.Some? && n >= 1000 then [OneShotProof(c, seed.value, n)] else []
  }

  ghost predicate NoOverflow(events: seq<Event>) {
    forall i :: 0 <= i < |events| && events[i].Turn? ==> events[i].ops < 2147483648
  }

  /** The worker after the events, as the reference describes it. */
  ghost predicate MatchesReference(c: Crypto, w: Worker, events: seq<Event>) {
    var seed := match SeedAfter(events) case Some(s) => c.decode(s) case None => Zeros(32);
    var n := OpsAfter(events);
    && w.running == !Stopped(events)
    && w.activeSeed == SeedAfter(events)
    && w.totalOps == w.absoluteStep == n
    && (if w.startState == None then n == 0 && w.intermediates == []
        else w.startState == Some(Zeros(32)) && w.lastState == ChainState(c, seed, n) &&
             w.intermediates == ChainRecord(c, seed, n))
    && w.posted == ProofsDue(c, events)
  }

  lemma BurnExtends(c: Crypto, w: Worker, events: seq<Event>, ops: nat)
    requires MatchesReference(c, w, events) && ops < 2147483648
    ensures var b, seed, n := Burn(c, w, ops), SeedBytes(c, w.activeSeed), OpsAfter(events);
            && b.startState == Some(Zeros(32)) && b.lastState == ChainState(c, seed, n + ops)
            && b.intermediates == ChainRecord(c, seed, n + ops) && b.absoluteStep == n + ops
  {
    var seed, n := SeedBytes(c, w.activeSeed), OpsAfter(events);
    ToInt32Small(ops);
    BurnFrom(c, w, ops, ChainState(c, seed, n));
    ChainExtends(c, seed, n, ops);
  }

  lemma ChainExtends(c: Crypto, seed: Bytes, n: nat, ops: nat)
    ensures Iterate(c.hash, seed, ChainState(c, seed, n), n, ops) == ChainState(c, seed, n + ops)
    ensures ChainRecord(c, seed, n) + Recorded(c.hash, seed, ChainState(c, seed, n), n, ops) ==
            ChainRecord(c, seed, n + ops)
  {
    IterateSplit(c.hash, seed, StartState(c.hash, seed), 0, n, ops);
    assert 0 + n == n;
  }

  lemma BurnFrom(c: Crypto, w: Worker, ops: nat, state: Bytes)
    requires ToInt32(ops) == ops
    requires state == if w.startState == None then StartState(c.hash, SeedBytes(c, w.activeSeed)) else w.lastState
    ensures var b, seed := Burn(c, w, ops), SeedBytes(c, w.activeSeed);
            && b.lastState == Iterate(c.hash, seed, state, w.absoluteStep, ops)
            && b.absoluteStep == w.absoluteStep + ops
            && b.intermediates == w.intermediates + Recorded(c.hash, seed, state, w.absoluteStep, ops)
            && b.startState == (if w.startState == None then Some(Zeros(32)) else w.startState)
  {
  }

  lemma ToInt32Small(ops: nat)
    ensures ToInt32(ops) == ops <==> ops < 2147483648
  {
  }

  lemma StepMatches(c: Crypto, w: Worker, front: seq<Event>, e: Event)
    requires MatchesReference(c, w, front)
    requires e.Turn? ==> e.ops < 2147483648
    ensures MatchesReference(c, Step(c, w, e), front + [e])
  {
    var events := front + [e];
    assert events[..|front|] == front;
    assert Stopped(events) <==> Stopped(front) || e == Stop by {
      if Stopped(front) {
        var i :| 0 <= i < |front| && front[i] == Stop;
        assert events[i] == Stop;
      }
      assert events[|front|] == e;
    }
    if e.Turn? {
      BurnExtends(c, w, front, e.ops);
    }
  }

  /** However the work is cut into bursts, state, records and every posted proof are those of one
      uninterrupted burn per seed, and `seedTotalOps` equals `seedAbsoluteStep` between turns. */
  lemma {:induction false} BurstsIrrelevant(c: Crypto, events: seq<Event>)
    requires NoOverflow(events)
    ensures MatchesReference(c, Run(c, events), events)
  {
    if events != [] {
      var front, e := events[..|events| - 1], events[|events| - 1];
      BurstsIrrelevant(c, front);
      StepMatches(c, Run(c, front), front, e);
      assert front + [e] == events;
    }
  }

  /** `ops | 0` is the number of operations only below 2^31: from there on one turn makes the two
      counters differ. */
  lemma CountersAgreeIff(c: Crypto, w: Worker, ops: nat)
    requires w.running && w.totalOps == w.absoluteStep
    ensures var s := Step(c, w, Turn(ops)); s.totalOps == s.absoluteStep <==> ops < 2147483648
  {
  }

  // ---- what is hashed, and what is recorded -----------------------------------------

  /** The number the bytes stand for, the first one lowest. */
  function Value(bytes: Bytes): nat {
    if bytes == [] then 0 else bytes[0] as nat + 256 * Value(bytes[1..])
  }

  function Pow256(n: nat): (p: nat)
    ensures p >= 1
  {
    if n == 0 then 1 else 256 * Pow256(n - 1)
  }

  lemma DivModPow(n: int, p: nat)
    requires p >= 1
    ensures n % (256 * p) == n % 256 + 256 * (n / 256 % p)
  {
    var q, r := n / 256, n % 256;
    assert q == p * (q / p) + q % p;
    assert n == 256 * p * (q / p) + (256 * (q % p) + r) by {
      assert 256 * (p * (q / p)) == 256 * p * (q / p);
    }
    assert 0 <= q % p <= p - 1;
    ModUnique(n, 256 * p, q / p, 256 * (q % p) + r);
  }

  lemma ModUnique(n: int, d: nat, k: int, r: int)
    requires d > 0 && n == d * k + r && 0 <= r < d
    ensures n % d == r
  {
    var q := n / d;
    assert n == d * q + n % d;
    assert d * (k - q) == n % d - r;
    Multiple(d, k - q);
  }

  lemma Multiple(d: int, m: int)
    requires d > 0
    ensures m >= 1 ==> d * m >= d
    ensures m <= -1 ==> d * m <= -d
  {
    if m >= 1 {
      assert d * m == d + d * (m - 1);
    } else if m <= -1 {
      assert d * m == -d + d * (m + 1);
    }
  }

  /** The bytes are those of the number modulo a power of 256, also of a negative one. */
  lemma {:induction false} LittleEndianValue(n: int, count: nat)
    ensures Value(LittleEndian(n, count)) == n % Pow256(count)
    decreases count
  {
    if count > 0 {
      LittleEndianValue(n / 256, count - 1);
      DivModPow(n, Pow256(count - 1));
      assert LittleEndian(n, count)[1..] == LittleEndian(n / 256, count - 1);
    }
  }

  /** A step number is hashed as its value modulo 2^32. */
  lemma StepNumber(step: int)
    ensures |Le32(step)| == 4 && Value(Le32(step)) == step % 4294967296
  {
    LittleEndianValue(step, 4);
    assert Pow256(4) == 4294967296;
  }

  /** A seed is cut to 32 bytes, or filled up with zeros. */
  lemma SeedField(seed: Bytes)
    ensures |Field(seed)| == 32
    ensures forall i :: 0 <= i < 32 ==> Field(seed)[i] == if i < |seed| then seed[i] else 0
  {
  }

  /** The state after one more step is the digest of the state, the number of the step, and the seed. */
  lemma OneStep(c: Crypto, seed: Bytes, n: nat)
    ensures exists number: Bytes, field: Bytes ::
              && ChainState(c, seed, n + 1) == c.hash(ChainState(c, seed, n) + number + field)
              && |number| == 4 && Value(number) == n % 4294967296
              && |field| == 32 && forall i :: 0 <= i < 32 ==> field[i] == if i < |seed| then seed[i] else 0
  {
    StepNumber(n);
    SeedField(seed);
    assert ChainState(c, seed, n + 1) == c.hash(ChainState(c, seed, n) + Le32(n) + Field(seed));
  }

  /** The chain starts from the digest of 32 zeros and the seed. */
  lemma FirstState(c: Crypto, seed: Bytes)
    ensures exists zeros: Bytes, field: Bytes ::
              && ChainState(c, seed, 0) == c.hash(zeros + field)
              && |zeros| == 32 && (forall i :: 0 <= i < 32 ==> zeros[i] == 0)
              && |field| == 32 && forall i :: 0 <= i < 32 ==> field[i] == if i < |seed| then seed[i] else 0
  {
    SeedField(seed);
    assert ChainState(c, seed, 0) == c.hash(Zeros(32) + Field(seed));
  }

  /** How many of the first `n` steps are divisible by 256. */
  function Records(n: nat): nat {
    (n + 255) / 256
  }

  /** Recorded are the states after the steps 0, 256, 512, and so on, and no others. */
  lemma {:induction false} RecordedStates(c: Crypto, seed: Bytes, n: nat)
    ensures |ChainRecord(c, seed, n)| == Records(n)
    ensures forall j :: 0 <= j < Records(n) ==> ChainRecord(c, seed, n)[j] == ChainState(c, seed, 256 * j + 1)
  {
    if n > 0 {
      RecordedStates(c, seed, n - 1);
      if (n - 1) % 256 == 0 {
        assert Records(n) == Records(n - 1) + 1 && n == 256 * Records(n - 1) + 1;
      } else {
        assert Records(n) == Records(n - 1);
      }
    }
  }

  lemma {:induction false} ConcatAppend(parts: seq<Bytes>, last: Bytes)
    ensures Concat(parts + [last]) == Concat(parts) + last
  {
    assert (parts + [last])[..|parts|] == parts;
  }

  /** The proof of the records is the digest of all of them one after the other, unless there are none. */
  lemma ProofOfRecords(c: Crypto, seed: string, n: nat)
    ensures var p := OneShotProof(c, seed, n);
            && p.seed == seed && p.endState == ChainState(c, c.decode(seed), n) && p.totalOps == n
            && p.startState == Zeros(32)
            && (n == 0 ==> p.intermediateProof == None)
            && (n > 0 ==> p.intermediateProof == Some(c.hash(Concat(
                            seq(Records(n), j requires 0 <= j => ChainState(c, c.decode(seed), 256 * j + 1))))))
  {
    RecordedStates(c, c.decode(seed), n);
    var states := seq(Records(n), j requires 0 <= j => ChainState(c, c.decode(seed), 256 * j + 1));
    assert ChainRecord(c, c.decode(seed), n) == states;
  }
}

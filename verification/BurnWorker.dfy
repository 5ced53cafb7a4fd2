/** The module variables of cpu-load-worker.js as an object, with the loop that rewrites `state`
    and the 68-byte `input` buffer. */
module BurnWorkerObject {
  import opened ByteString
  import opened JsObject
  import opened Rounding
  import opened Sequences
  import opened BurnChain

  /** `src.copy(dst, at)`. */
  method CopyInto(src: Bytes, dst: array<byte>, at: nat)
    requires at <= dst.Length
    modifies dst
    ensures dst[..] == Overlay(old(dst[..]), src, at)
  {
    var n := if at + |src| <= dst.Length then |src| else dst.Length - at;
    for i := 0 to n
      invariant dst[..] == old(dst[..at]) + src[..i] + old(dst[at + i..])
    {
      dst[at + i] := src[i];
    }
  }

  lemma OverlayBehind(before: Bytes, rest: Bytes, src: Bytes)
    ensures Overlay(before + rest, src, |before|) == before + Overlay(rest, src, 0)
  {
  }

  lemma OverlayField(rest: Bytes, seed: Bytes)
    requires |rest| == 32 && forall i :: |seed| <= i < 32 ==> rest[i] == 0
    ensures Overlay(rest, seed, 0) == Field(seed)
  {
  }

  lemma InputFields(state: Bytes, number: Bytes, seed: Bytes, was: Bytes)
    requires |state| == 32 && |number| == 4 && |was| == 68
    requires forall i :: 36 + |seed| <= i < 68 ==> was[i] == 0
    ensures Overlay(Overlay(Overlay(was, state, 0), number, 32), seed, 36) == state + number + Field(seed)
  {
    assert Overlay(was, state, 0) == state + was[32..];
    OverlayBehind(state, was[32..], number);
    assert Overlay(was[32..], number, 0) == number + was[36..];
    Associate(state, number, was[36..]);
    OverlayBehind(state + number, was[36..], seed);
    OverlayField(was[36..], seed);
  }

  class BurnWorker {
    const crypto: Crypto
    var running: bool
    var activeSeed: Option<string>
    var seedTotalOps: int
    var seedStartState: Option<Bytes>
    var seedLastState: Bytes
    var seedAbsoluteStep: int
    var seedIntermediates: seq<Bytes>
    var posted: seq<Proof>

    ghost function View(): Worker
      reads this
    {
      Worker(running, activeSeed, seedTotalOps, seedStartState, seedLastState, seedAbsoluteStep, seedIntermediates,
             posted)
    }

    /** SHA-256 digests have 32 bytes, and so has the running state. */
    ghost predicate Valid()
      reads this
    {
      (forall x :: |crypto.hash(x)| == 32) && (seedStartState.Some? ==> |seedLastState| == 32)
    }

    constructor (crypto: Crypto)
      requires forall x :: |crypto.hash(x)| == 32
      ensures View() == Fresh() && this.crypto == crypto && Valid()
    {
      this.crypto := crypto;
      running := true;
      activeSeed := None;
      seedTotalOps := 0;
      seedStartState := None;
      seedLastState := [];
      seedAbsoluteStep := 0;
      seedIntermediates := [];
      posted := [];
    }

    /** Fills the input buffer and hashes it: one step of the chain. */
    method HashStep(state: Bytes, absStep: int, seedBuf: Bytes, input: array<byte>) returns (next: Bytes)
      requires |state| == 32 && input.Length == 68
      requires forall j :: 36 + |seedBuf| <= j < 68 ==> input[j] == 0
      modifies input
      ensures forall j :: 36 + |seedBuf| <= j < 68 ==> input[j] == 0
      ensures next == crypto.hash(state + Le32(absStep) + Field(seedBuf))
    {
      InputFields(state, Le32(absStep), seedBuf, input[..]);
      CopyInto(state, input, 0);
      CopyInto(Le32(absStep), input, 32);
      CopyInto(seedBuf, input, 36);
      next := crypto.hash(input[..]);
      forall j | 36 + |seedBuf| <= j < 68 ensures input[j] == 0 {
        assert input[j] == input[..][j];
      }
    }

    method FirstState(seedBuf: Bytes) returns (state: Bytes)
      ensures state == StartState(crypto.hash, seedBuf)
    {
      var startInput := new byte[64](_ => 0);
      CopyInto(Zeros(32), startInput, 0);
      CopyInto(seedBuf, startInput, 32);
      assert startInput[..] == Zeros(32) + Field(seedBuf);
      state := crypto.hash(startInput[..]);
    }

    /** The hashing loop of `burnCpuOps`, from `start` on: the last state, and those recorded. */
    method HashLoop(seedBuf: Bytes, start: Bytes, firstStep: int, n: int) returns (state: Bytes, recorded: seq<Bytes>)
      requires (forall x :: |crypto.hash(x)| == 32) && |start| == 32
      ensures |state| == 32
      ensures state == Iterate(crypto.hash, seedBuf, start, firstStep, if n > 0 then n else 0)
      ensures recorded == Recorded(crypto.hash, seedBuf, start, firstStep, if n > 0 then n else 0)
    {
      state, recorded := start, [];
      var input := new byte[68](_ => 0);
      var i := 0;
      while i < n
        invariant 0 <= i && (i <= n || i == 0)
        invariant |state| == 32 && state == Iterate(crypto.hash, seedBuf, start, firstStep, i)
        invariant forall j :: 36 + |seedBuf| <= j < 68 ==> input[j] == 0
        invariant recorded == Recorded(crypto.hash, seedBuf, start, firstStep, i)
      {
        var absStep := firstStep + i;
        state := HashStep(state, absStep, seedBuf, input);
        if absStep % BURN_PROOF_STEP == 0 {
          recorded := recorded + [state];
        }
        i := i + 1;
      }
    }

    method BurnCpuOps(ops: int)
      requires Valid()
      modifies this
      ensures Valid() && View() == Burn(crypto, old(View()), ops)
    {
      var seedBuf := SeedBytes(crypto, activeSeed);
      var state;
      if seedStartState == None {
        seedStartState := Some(Zeros(32));
        state := FirstState(seedBuf);
      } else {
        state := seedLastState;
      }
      var n := ToInt32(ops);
      var recorded: seq<Bytes>;
      state, recorded := HashLoop(seedBuf, state, seedAbsoluteStep, n);
      seedIntermediates := seedIntermediates + recorded;
      seedAbsoluteStep := seedAbsoluteStep + n;
      seedLastState := state;
    }

    /** One turn of `loop` under load. */
    method RunTurn(ops: nat)
      requires Valid() && running
      modifies this
      ensures Valid() && View() == Step(crypto, old(View()), Turn(ops))
    {
      BurnCpuOps(ops);
      seedTotalOps := seedTotalOps + ops;
    }

    method SubmitSeedProof()
      modifies this`posted
      ensures View() == Submit(crypto, old(View()))
    {
      if activeSeed == None || seedTotalOps < 1000 {
        return;
      }
      posted := posted + [Proof(
        activeSeed.value, if seedStartState.Some? then seedStartState.value else [], seedLastState, seedTotalOps,
        IntermediateProof(crypto, seedIntermediates))];
    }

    method SetActiveSeed(newSeed: Option<string>)
      requires Valid() && running
      modifies this
      ensures Valid() && View() == Step(crypto, old(View()), SetSeed(newSeed))
    {
      if newSeed == activeSeed {
        return;
      }
      SubmitSeedProof();
      activeSeed := newSeed;
      seedTotalOps := 0;
      seedStartState := None;
      seedLastState := [];
      seedAbsoluteStep := 0;
      seedIntermediates := [];
    }

    method StopWorker()
      requires Valid() && running
      modifies this
      ensures Valid() && View() == Step(crypto, old(View()), Stop)
    {
      running := false;
      SubmitSeedProof();
    }
  }
}

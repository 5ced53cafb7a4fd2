/** Energy totals of the running round: `addContribution` and `setRoundContribution`
    (round-ledger.js). Incoming amounts are real numbers of units, stored totals whole units. */
module Contributions {
  import opened Rounding
  import opened Text
  import opened JsObject

  /** The four per-address objects of `state.currentRound`, with its id. */
  datatype CurrentRound = CurrentRound(
    id: int,
    wh: Obj<int>,
    updatedAt: map<string, int>,
    message: map<string, string>,
    signature: map<string, string>)

  function EmptyRound(id: int): CurrentRound {
    CurrentRound(id, [], map[], map[], map[])
  }

  /** Stored total of an address. */
  function Wh(r: CurrentRound, a: string): int {
    match Lookup(r.wh, a)
    case Some(v) => v
    case None => 0
  }

  function UpdatedAt(r: CurrentRound, a: string): int {
    if a in r.updatedAt then r.updatedAt[a] else 0
  }

  predicate HasSignature(r: CurrentRound, a: string) {
    a in r.signature && r.signature[a] != ""
  }

  ghost predicate NonNegative(r: CurrentRound) {
    forall a: string :: Wh(r, a) >= 0
  }

  function AddContribution(r: CurrentRound, address: string, deltaWh: real, now: int): CurrentRound {
    var key := Trim(address);
    if key == "" || deltaWh <= 0.0 then r
    else r.(wh := Put(r.wh, key, ToFixed(Wh(r, key) as real + deltaWh)),
            updatedAt := r.updatedAt[key := now])
  }

  datatype Outcome = NoAddress | Stale | ReductionNotAllowed | Cleared | Stored

  function SetOutcome(r: CurrentRound, address: string, totalWh: real, at: int,
                      message: string, signature: string): Outcome {
    var key := Trim(address);
    var previousAt := ClampNat(UpdatedAt(r, key));
    var signed := message != "" && signature != "";
    if key == "" then NoAddress
    else if 0 < at < previousAt && (!signed || HasSignature(r, key)) then Stale
    else if 0 < Wh(r, key) && Max0(totalWh) < Wh(r, key) as real then ReductionNotAllowed
    else if totalWh <= 0.0 then Cleared
    else Stored
  }

  function Clear(r: CurrentRound, key: string): CurrentRound {
    if Has(r.wh, key)
    then r.(wh := Delete(r.wh, key), updatedAt := r.updatedAt - {key},
            message := r.message - {key}, signature := r.signature - {key})
    else r
  }

  function SetContribution(r: CurrentRound, address: string, totalWh: real, at: int,
                           message: string, signature: string, now: int): CurrentRound {
    var key := Trim(address);
    match SetOutcome(r, address, totalWh, at, message, signature)
    case NoAddress => r
    case Stale => r
    case ReductionNotAllowed => r
    case Cleared => Clear(r, key)
    case Stored =>
      r.(wh := Put(r.wh, key, ToFixed(totalWh)),
         updatedAt := r.updatedAt[key := if at > 0 then at else now],
         message := if message != "" then r.message[key := message] else r.message,
         signature := if signature != "" then r.signature[key := signature] else r.signature)
  }

  // ---- no call lowers a total -------------------------------------------------------

  lemma AddNeverLowers(r: CurrentRound, address: string, deltaWh: real, now: int)
    requires NonNegative(r)
    ensures forall a: string :: Wh(AddContribution(r, address, deltaWh, now), a) >= Wh(r, a)
    ensures NonNegative(AddContribution(r, address, deltaWh, now))
  {
    var key := Trim(address);
    forall a: string ensures Wh(AddContribution(r, address, deltaWh, now), a) >= Wh(r, a) {
      if key != "" && deltaWh > 0.0 {
        PutLookup(r.wh, key, ToFixed(Wh(r, key) as real + deltaWh), a);
        ToFixedWhole(Wh(r, key));
        ToFixedMonotone(Wh(r, key) as real, Wh(r, key) as real + deltaWh);
      }
    }
  }

  lemma SetNeverLowers(r: CurrentRound, address: string, totalWh: real, at: int,
                       message: string, signature: string, now: int)
    requires NonNegative(r)
    ensures var s := SetContribution(r, address, totalWh, at, message, signature, now);
            NonNegative(s) && forall a: string :: Wh(s, a) >= Wh(r, a)
  {
    var key := Trim(address);
    var s := SetContribution(r, address, totalWh, at, message, signature, now);
    forall a: string ensures Wh(s, a) >= Wh(r, a) {
      PutLookup(r.wh, key, ToFixed(totalWh), a);
      DeleteLookup(r.wh, key, a);
      ToFixedWhole(Wh(r, key));
      if Wh(r, key) as real <= totalWh {
        ToFixedMonotone(Wh(r, key) as real, totalWh);
      }
    }
  }

  // ---- what the calls do ------------------------------------------------------------

  /** Everything the round holds about an address is the same. */
  ghost predicate SameFor(r: CurrentRound, s: CurrentRound, a: string) {
    && Lookup(r.wh, a) == Lookup(s.wh, a)
    && (a in r.updatedAt <==> a in s.updatedAt) && UpdatedAt(r, a) == UpdatedAt(s, a)
    && (a in r.message <==> a in s.message) && (a in r.message ==> r.message[a] == s.message[a])
    && (a in r.signature <==> a in s.signature) && (a in r.signature ==> r.signature[a] == s.signature[a])
  }

  /** A positive amount is added to the trimmed address, to within half a unit and exactly if it is
      whole; nothing else changes. */
  lemma AddAdds(r: CurrentRound, address: string, deltaWh: real, now: int, a: string)
    ensures var s := AddContribution(r, address, deltaWh, now);
            if a != "" && a == Trim(address) && deltaWh > 0.0
            then && -0.5 <= Wh(s, a) as real - (Wh(r, a) as real + deltaWh) <= 0.5
                 && (Whole(deltaWh) ==> Wh(s, a) == Wh(r, a) + deltaWh.Floor)
                 && Keys(s.wh) == (if a in Keys(r.wh) then Keys(r.wh) else Keys(r.wh) + [a])
                 && a in s.updatedAt && UpdatedAt(s, a) == now
                 && s.message == r.message && s.signature == r.signature
            else SameFor(r, s, a)
    ensures AddContribution(r, address, deltaWh, now).id == r.id
  {
    var key := Trim(address);
    var total := Wh(r, key) as real + deltaWh;
    PutLookup(r.wh, key, ToFixed(total), a);
    PutKeys(r.wh, key, ToFixed(total));
    ToFixedError(total);
    if Whole(deltaWh) {
      ToFixedWhole(Wh(r, key) + deltaWh.Floor);
    }
  }

  datatype Delta = Delta(address: string, wh: real, now: int)

  function AddAll(r: CurrentRound, deltas: seq<Delta>): CurrentRound {
    if deltas == [] then r
    else
      var d := deltas[|deltas| - 1];
      AddContribution(AddAll(r, deltas[..|deltas| - 1]), d.address, d.wh, d.now)
  }

  /** The positive amounts reported for an address, and how many. */
  function Reported(deltas: seq<Delta>, a: string): real {
    if deltas == [] then 0.0
    else
      var d := deltas[|deltas| - 1];
      Reported(deltas[..|deltas| - 1], a) + if a != "" && Trim(d.address) == a && d.wh > 0.0 then d.wh else 0.0
  }

  function Reports(deltas: seq<Delta>, a: string): nat {
    if deltas == [] then 0
    else
      var d := deltas[|deltas| - 1];
      Reports(deltas[..|deltas| - 1], a) + if a != "" && Trim(d.address) == a && d.wh > 0.0 then 1 else 0
  }

  /** Additions add up: to within half a unit for each of them, and exactly in whole units. */
  lemma {:induction false} AddsAddUp(r: CurrentRound, deltas: seq<Delta>, a: string)
    ensures var error := Wh(AddAll(r, deltas), a) as real - (Wh(r, a) as real + Reported(deltas, a));
            && -(Reports(deltas, a) as real) / 2.0 <= error <= Reports(deltas, a) as real / 2.0
            && ((forall d :: d in deltas ==> Whole(d.wh)) ==> error == 0.0)
  {
    if deltas != [] {
      var front, d := deltas[..|deltas| - 1], deltas[|deltas| - 1];
      AddsAddUp(r, front, a);
      AddAdds(AddAll(r, front), d.address, d.wh, d.now, a);
    }
  }

  /** A set call touches one address only. */
  lemma SetTouchesOne(r: CurrentRound, address: string, totalWh: real, at: int,
                      message: string, signature: string, now: int, a: string)
    ensures var s := SetContribution(r, address, totalWh, at, message, signature, now);
            s.id == r.id && (a != Trim(address) || a == "" ==> SameFor(r, s, a))
  {
    PutLookup(r.wh, Trim(address), ToFixed(totalWh), a);
    DeleteLookup(r.wh, Trim(address), a);
  }

  /** A positive total is taken if and only if it is not older than the stored one, or brings the first
      signature, and is not smaller; otherwise nothing changes at all. */
  lemma SetTakenIff(r: CurrentRound, address: string, totalWh: real, at: int,
                    message: string, signature: string, now: int)
    requires Trim(address) != "" && totalWh > 0.0
    ensures var key, s := Trim(address), SetContribution(r, address, totalWh, at, message, signature, now);
            var older := 0 < at && at < UpdatedAt(r, key);
            var firstSignature := message != "" && signature != "" && !(key in r.signature && r.signature[key] != "");
            if (!older || firstSignature) && (Wh(r, key) <= 0 || totalWh >= Wh(r, key) as real)
            then && Lookup(s.wh, key) == Some(ToFixed(totalWh)) && key in s.updatedAt
                 && Keys(s.wh) == (if key in Keys(r.wh) then Keys(r.wh) else Keys(r.wh) + [key])
                 && UpdatedAt(s, key) == (if at > 0 then at else now)
                 && (message != "" ==> key in s.message && s.message[key] == message)
                 && (message == "" ==> s.message == r.message)
                 && (signature != "" ==> key in s.signature && s.signature[key] == signature)
                 && (signature == "" ==> s.signature == r.signature)
            else s == r
  {
    PutLookup(r.wh, Trim(address), ToFixed(totalWh), Trim(address));
    PutKeys(r.wh, Trim(address), ToFixed(totalWh));
  }

  /** Without an address nothing happens, nor when a total of nothing is set where there is none. */
  lemma SetNothing(r: CurrentRound, address: string, totalWh: real, at: int,
                   message: string, signature: string, now: int)
    requires Trim(address) == "" || (totalWh <= 0.0 && Trim(address) !in Keys(r.wh))
    ensures SetContribution(r, address, totalWh, at, message, signature, now) == r
  {
    HasIsKey(r.wh, Trim(address));
  }

  /** A total of nothing clears the address in all four objects if and only if it is not older, or brings
      the first signature, and there is no positive total to reduce. */
  lemma SetClearsIff(r: CurrentRound, address: string, totalWh: real, at: int,
                     message: string, signature: string, now: int)
    requires Trim(address) != "" && totalWh <= 0.0 && Trim(address) in Keys(r.wh)
    ensures var key, s := Trim(address), SetContribution(r, address, totalWh, at, message, signature, now);
            var older := 0 < at && at < UpdatedAt(r, key);
            var firstSignature := message != "" && signature != "" && !(key in r.signature && r.signature[key] != "");
            if (!older || firstSignature) && Wh(r, key) <= 0
            then key !in Keys(s.wh) && key !in s.updatedAt && key !in s.message && key !in s.signature
            else s == r
  {
    HasIsKey(r.wh, Trim(address));
    DeleteLookup(r.wh, Trim(address), Trim(address));
    HasIsKey(Delete(r.wh, Trim(address)), Trim(address));
  }

  // ---- the addresses of a round -----------------------------------------------------

  /** Every address once, trimmed and not empty. */
  ghost predicate ProperKeys<V>(o: Obj<V>) {
    DistinctKeys(o) && forall k :: k in Keys(o) ==> k != "" && Trimmed(k)
  }

  lemma PutKeepsKeys(o: Obj<int>, key: string, v: int)
    requires ProperKeys(o) && key != "" && Trimmed(key)
    ensures ProperKeys(Put(o, key, v))
  {
    PutDistinct(o, key, v);
    PutKeys(o, key, v);
  }

  lemma AddKeepsKeys(r: CurrentRound, address: string, deltaWh: real, now: int)
    requires ProperKeys(r.wh)
    ensures ProperKeys(AddContribution(r, address, deltaWh, now).wh)
  {
    var key := Trim(address);
    TrimIsTrimmed(address);
    if key != "" {
      PutKeepsKeys(r.wh, key, ToFixed(Wh(r, key) as real + deltaWh));
    }
  }

  lemma SetKeepsKeys(r: CurrentRound, address: string, totalWh: real, at: int,
                     message: string, signature: string, now: int)
    requires ProperKeys(r.wh)
    ensures ProperKeys(SetContribution(r, address, totalWh, at, message, signature, now).wh)
  {
    var key := Trim(address);
    TrimIsTrimmed(address);
    if key != "" {
      PutKeepsKeys(r.wh, key, ToFixed(totalWh));
      DeleteDistinct(r.wh, key);
    }
  }

  // ---- signed updates in any order --------------------------------------------------

  datatype Update = Update(total: real, at: int, message: string, signature: string)

  predicate Signed(u: Update) {
    u.message != "" && u.signature != "" && u.at > 0 && u.total >= 0.0
  }

  /** What the round holds for one address: nothing, or a total and its timestamp. */
  datatype Slot = Empty | Held(total: int, at: int)

  function SlotOf(r: CurrentRound, a: string): Slot {
    if Has(r.wh, a) then Held(Wh(r, a), UpdatedAt(r, a)) else Empty
  }

  /** The four objects agree on whether the address is present, and its total came signed. */
  predicate SignedSlot(r: CurrentRound, a: string) {
    if Has(r.wh, a) then UpdatedAt(r, a) > 0 && HasSignature(r, a)
    else a !in r.updatedAt && a !in r.signature
  }

  function SlotStep(s: Slot, u: Update): Slot {
    match s
    case Empty => if u.total <= 0.0 then Empty else Held(ToFixed(u.total), u.at)
    case Held(total, at) =>
      if u.at < at || (0 < total && u.total < total as real) then s
      else if u.total <= 0.0 then Empty
      else Held(ToFixed(u.total), u.at)
  }

  /** Delivers signed updates for one address, in the order of the sequence. */
  function Deliver(r: CurrentRound, address: string, us: seq<Update>, now: int): CurrentRound {
    if us == [] then r
    else
      var u := us[|us| - 1];
      SetContribution(Deliver(r, address, us[..|us| - 1], now), address, u.total, u.at, u.message, u.signature, now)
  }

  function SlotRun(s: Slot, us: seq<Update>): Slot {
    if us == [] then s else SlotStep(SlotRun(s, us[..|us| - 1]), us[|us| - 1])
  }

  lemma {:induction false} DeliverIsSlotRun(r: CurrentRound, address: string, us: seq<Update>, now: int)
    requires Trim(address) != "" && SignedSlot(r, Trim(address))
    requires forall u :: u in us ==> Signed(u)
    ensures SlotOf(Deliver(r, address, us, now), Trim(address)) == SlotRun(SlotOf(r, Trim(address)), us)
    ensures SignedSlot(Deliver(r, address, us, now), Trim(address))
  {
    if us != [] {
      var key, front, u := Trim(address), us[..|us| - 1], us[|us| - 1];
      assert forall v :: v in front ==> v in us;
      DeliverIsSlotRun(r, address, front, now);
      SetIsSlotStep(Deliver(r, address, front, now), address, u, now);
    }
  }

  lemma SetIsSlotStep(r: CurrentRound, address: string, u: Update, now: int)
    requires Trim(address) != "" && SignedSlot(r, Trim(address)) && Signed(u)
    ensures var q := SetContribution(r, address, u.total, u.at, u.message, u.signature, now);
            SlotOf(q, Trim(address)) == SlotStep(SlotOf(r, Trim(address)), u) && SignedSlot(q, Trim(address))
  {
    var key := Trim(address);
    PutLookup(r.wh, key, ToFixed(u.total), key);
    DeleteLookup(r.wh, key, key);
  }

  ghost predicate DeliversAll(us: seq<Update>, updates: set<Update>) {
    forall u :: u in us <==> u in updates
  }

  /** Equal timestamps carry equal totals. */
  ghost predicate OneTotalPerTime(updates: set<Update>) {
    forall u, v :: u in updates && v in updates && u.at == v.at ==> u.total == v.total
  }

  predicate IsNewest(w: Update, updates: set<Update>) {
    w in updates && forall u :: u in updates ==> u.at <= w.at
  }

  predicate IsNewestPositive(v: Update, updates: set<Update>) {
    v in updates && v.total > 0.0 && forall u :: u in updates && u.total > 0.0 ==> u.at <= v.at
  }

  /** What is stored once this update is accepted. */
  function Settled(w: Update): Slot {
    if w.total <= 0.0 then Empty else Held(ToFixed(w.total), w.at)
  }

  /** No older total, as stored, exceeds this one as sent. */
  ghost predicate NoOlderAbove(v: Update, updates: set<Update>) {
    forall u :: u in updates && u.at < v.at ==> ToFixed(u.total) as real <= v.total
  }

  /** No zero comes after the update, or it rounds to at least one unit, which zeros cannot clear. */
  predicate ZerosPowerless(v: Update, updates: set<Update>) {
    IsNewest(v, updates) || ToFixed(v.total) >= 1
  }

  /** Every order of delivery, with any repetitions, leaves the same total and timestamp. */
  ghost predicate OrderIrrelevant(updates: set<Update>) {
    forall us, vs :: DeliversAll(us, updates) && DeliversAll(vs, updates) ==> SlotRun(Empty, us) == SlotRun(Empty, vs)
  }

  /** Signed updates with one total per timestamp, and the newest of the positive ones. */
  ghost predicate ProperUpdates(updates: set<Update>, v: Update) {
    (forall u :: u in updates ==> Signed(u)) && OneTotalPerTime(updates) && IsNewestPositive(v, updates)
  }

  lemma {:induction false} SlotRunAppend(s: Slot, us: seq<Update>, vs: seq<Update>)
    ensures SlotRun(s, us + vs) == SlotRun(SlotRun(s, us), vs)
  {
    if vs == [] {
      assert us + vs == us;
    } else {
      SlotRunAppend(s, us, vs[..|vs| - 1]);
      assert (us + vs)[..|us + vs| - 1] == us + vs[..|vs| - 1];
    }
  }

  /** Once the newest positive total is held, no update moves it. */
  lemma {:induction false} NewestStays(us: seq<Update>, v: Update, updates: set<Update>)
    requires ProperUpdates(updates, v) && forall u :: u in us ==> u in updates
    requires ZerosPowerless(v, updates) || forall u :: u in us ==> u.total > 0.0
    ensures SlotRun(Settled(v), us) == Settled(v)
  {
    if us != [] {
      NewestStays(us[..|us| - 1], v, updates);
    }
  }

  /** On the way to the newest positive total nothing is in its way. */
  predicate OnTheWay(s: Slot, v: Update) {
    s == Settled(v) || s == Empty || (s.at < v.at && 0 <= s.total && s.total as real <= v.total)
  }

  lemma TowardsNewest(s: Slot, v: Update, u: Update, updates: set<Update>)
    requires ProperUpdates(updates, v) && NoOlderAbove(v, updates) && ZerosPowerless(v, updates)
    requires OnTheWay(s, v) && u in updates
    ensures OnTheWay(SlotStep(s, u), v)
    ensures u == v || s == Settled(v) ==> SlotStep(s, u) == Settled(v)
  {
    assert u.total > 0.0 ==> u.at <= v.at;
    assert u.at == v.at ==> u.total == v.total;
  }

  lemma {:induction false} NewestWinsRun(us: seq<Update>, v: Update, updates: set<Update>)
    requires ProperUpdates(updates, v) && NoOlderAbove(v, updates) && ZerosPowerless(v, updates)
    requires forall u :: u in us ==> u in updates
    ensures OnTheWay(SlotRun(Empty, us), v)
    ensures v in us ==> SlotRun(Empty, us) == Settled(v)
  {
    if us != [] {
      var front, u := us[..|us| - 1], us[|us| - 1];
      NewestWinsRun(front, v, updates);
      TowardsNewest(SlotRun(Empty, front), v, u, updates);
      assert us == front + [u];
    }
  }

  /** If no older total is above the newest positive one, and zeros are powerless against it, that is
      what every order ends in. */
  lemma NewestWins(updates: set<Update>, v: Update)
    requires ProperUpdates(updates, v) && NoOlderAbove(v, updates) && ZerosPowerless(v, updates)
    ensures forall us :: DeliversAll(us, updates) ==> SlotRun(Empty, us) == Settled(v)
  {
    forall us | DeliversAll(us, updates) ensures SlotRun(Empty, us) == Settled(v) {
      NewestWinsRun(us, v, updates);
    }
  }

  lemma {:induction false} ListOf(updates: set<Update>) returns (us: seq<Update>)
    ensures DeliversAll(us, updates)
    decreases updates
  {
    if updates == {} {
      us := [];
    } else {
      var u :| u in updates;
      us := ListOf(updates - {u});
      us := us + [u];
    }
  }

  /** After an older total stored above the newest positive one, the newest is refused for ever. */
  lemma {:induction false} NewestRefused(us: seq<Update>, s: Slot, v: Update, updates: set<Update>)
    requires ProperUpdates(updates, v) && forall u :: u in us ==> u in updates
    requires s.Held? && s.at < v.at && s.total as real > v.total
    ensures var r := SlotRun(s, us); r.Held? && r.at < v.at && r.total as real > v.total
  {
    if us != [] {
      var front, u := us[..|us| - 1], us[|us| - 1];
      NewestRefused(front, s, v, updates);
      var r := SlotRun(s, front);
      if u.total >= r.total as real {
        ToFixedWhole(r.total);
        ToFixedMonotone(r.total as real, u.total);
      }
    }
  }

  /** An older total that rounds to more than the newest positive one makes the order matter. */
  lemma OlderAboveMatters(updates: set<Update>, u: Update, v: Update)
    requires ProperUpdates(updates, v) && ZerosPowerless(v, updates)
    requires u in updates && u.at < v.at && ToFixed(u.total) as real > v.total
    ensures !OrderIrrelevant(updates)
  {
    var all := ListOf(updates);
    FirstThen(v, all);
    FirstThen(u, all);
    NewestStays(all, v, updates);
    NewestRefused(all, Settled(u), v, updates);
    assert DeliversAll([v] + all, updates) && DeliversAll([u] + all, updates);
  }

  lemma FirstThen(u: Update, us: seq<Update>)
    ensures SlotRun(Empty, [u] + us) == SlotRun(Settled(u), us)
  {
    assert [u][..0] == [];
    SlotRunAppend(Empty, [u], us);
  }

  lemma {:induction false} ZerosLeaveEmpty(us: seq<Update>)
    requires forall u :: u in us ==> u.total <= 0.0
    ensures SlotRun(Empty, us) == Empty
  {
    if us != [] {
      ZerosLeaveEmpty(us[..|us| - 1]);
    }
  }

  /** Zeros, the newest positive total, and then the other positive ones. */
  lemma ZerosFirst(zeros: seq<Update>, v: Update, positives: seq<Update>, updates: set<Update>)
    requires ProperUpdates(updates, v) && forall u :: u in zeros ==> u.total <= 0.0
    requires forall u :: u in positives ==> u in updates && u.total > 0.0
    ensures SlotRun(Empty, zeros + ([v] + positives)) == Settled(v)
  {
    ZerosLeaveEmpty(zeros);
    SlotRunAppend(Empty, zeros, [v] + positives);
    FirstThen(v, positives);
    NewestStays(positives, v, updates);
  }

  lemma ZeroLast(us: seq<Update>, v: Update, z: Update)
    requires SlotRun(Empty, us) == Held(0, v.at) && z.total <= 0.0 && z.at > v.at
    ensures SlotRun(Empty, us + [z]) == Empty
  {
    assert (us + [z])[..|us|] == us;
  }

  lemma SplitDelivers(updates: set<Update>, zeros: seq<Update>, v: Update, positives: seq<Update>)
    requires v in updates && DeliversAll(zeros, set u | u in updates && u.total <= 0.0)
    requires DeliversAll(positives, set u | u in updates && u.total > 0.0)
    ensures DeliversAll(zeros + ([v] + positives), updates)
  {
  }

  /** A zero after a newest positive total that rounds to nothing makes the order matter: delivered
      last it clears the entry, delivered first it does nothing. */
  lemma LateZeroMatters(updates: set<Update>, v: Update, z: Update)
    requires ProperUpdates(updates, v) && ToFixed(v.total) == 0
    requires z in updates && z.at > v.at
    ensures !OrderIrrelevant(updates)
  {
    var zeros := ListOf(set u | u in updates && u.total <= 0.0);
    var positives := ListOf(set u | u in updates && u.total > 0.0);
    SplitDelivers(updates, zeros, v, positives);
    ZerosFirst(zeros, v, positives, updates);
    ZeroCanClear(zeros + ([v] + positives), updates, v, z);
  }

  lemma ZeroCanClear(us: seq<Update>, updates: set<Update>, v: Update, z: Update)
    requires DeliversAll(us, updates) && SlotRun(Empty, us) == Held(0, v.at)
    requires z in updates && z.total <= 0.0 && z.at > v.at
    ensures !OrderIrrelevant(updates)
  {
    ZeroLast(us, v, z);
    assert DeliversAll(us + [z], updates);
  }

  /** The order of delivery is irrelevant exactly when no older total rounds to more than the newest
      positive one was sent with, and no zero comes after that one unless it rounds to a unit. */
  lemma OrderIrrelevantIff(updates: set<Update>, v: Update)
    requires ProperUpdates(updates, v)
    ensures OrderIrrelevant(updates) <==> NoOlderAbove(v, updates) && ZerosPowerless(v, updates)
  {
    if !ZerosPowerless(v, updates) {
      var z :| z in updates && z.at > v.at;
      ToFixedMonotone(0.0, v.total);
      LateZeroMatters(updates, v, z);
    } else if !NoOlderAbove(v, updates) {
      var u :| u in updates && u.at < v.at && ToFixed(u.total) as real > v.total;
      OlderAboveMatters(updates, u, v);
    } else {
      NewestWins(updates, v);
    }
  }

  /** Without a positive total every order ends in nothing. */
  lemma OnlyZeros(updates: set<Update>)
    requires forall u :: u in updates ==> u.total <= 0.0
    ensures forall us :: DeliversAll(us, updates) ==> SlotRun(Empty, us) == Empty
  {
    forall us | DeliversAll(us, updates) ensures SlotRun(Empty, us) == Empty {
      ZerosLeaveEmpty(us);
    }
  }

  /** A later timestamp never carries a smaller total. */
  ghost predicate NeverShrinking(updates: set<Update>) {
    forall u, v :: u in updates && v in updates && u.at <= v.at ==> u.total <= v.total
  }

  /** Of totals that never shrink with time, zeros included, the order is irrelevant exactly when no
      older one rounds to more than the newest was sent with. */
  lemma NeverShrinkingIff(updates: set<Update>, w: Update)
    requires (forall u :: u in updates ==> Signed(u)) && NeverShrinking(updates) && IsNewest(w, updates)
    ensures OrderIrrelevant(updates) <==> NoOlderAbove(w, updates)
    ensures NoOlderAbove(w, updates) ==> forall us :: DeliversAll(us, updates) ==> SlotRun(Empty, us) == Settled(w)
  {
    if w.total > 0.0 {
      OrderIrrelevantIff(updates, w);
      if NoOlderAbove(w, updates) {
        NewestWins(updates, w);
      }
    } else {
      OnlyZeros(updates);
    }
  }

  /** In whole units they converge under every delivery order. */
  lemma WholeUnitsConverge(updates: set<Update>, w: Update)
    requires forall u :: u in updates ==> Signed(u) && Whole(u.total)
    requires NeverShrinking(updates) && IsNewest(w, updates)
    ensures forall us :: DeliversAll(us, updates) ==> SlotRun(Empty, us) == Settled(w)
  {
    forall u | u in updates ensures ToFixed(u.total) as real == u.total {
      ToFixedWhole(u.total.Floor);
    }
    NeverShrinkingIff(updates, w);
  }

  /** The same about the round itself: a round that starts empty ends, for that address, with the
      newest positive update, whatever the order of delivery. */
  lemma DeliveryEndsInNewest(id: int, address: string, us: seq<Update>, now: int, updates: set<Update>, v: Update)
    requires Trim(address) != "" && DeliversAll(us, updates)
    requires ProperUpdates(updates, v) && NoOlderAbove(v, updates) && ZerosPowerless(v, updates)
    ensures SlotOf(Deliver(EmptyRound(id), address, us, now), Trim(address)) == Settled(v)
  {
    DeliverIsSlotRun(EmptyRound(id), address, us, now);
    NewestWins(updates, v);
  }

  /** A later zero is ignored over five units, and over less than half a unit ends differently in the
      two orders. */
  lemma LateZeroExamples()
    ensures var u, d, z := Update(5.0, 3, "m", "s"), Update(0.3, 3, "m", "s"), Update(0.0, 5, "m", "s");
            && SlotRun(Empty, [u, z]) == SlotRun(Empty, [z, u]) == Held(5, 3)
            && SlotRun(Empty, [d, z]) == Empty && SlotRun(Empty, [z, d]) == Held(0, 3)
  {
    var u, d, z := Update(5.0, 3, "m", "s"), Update(0.3, 3, "m", "s"), Update(0.0, 5, "m", "s");
    TwoUpdates(u, z);
    TwoUpdates(z, u);
    TwoUpdates(d, z);
    TwoUpdates(z, d);
  }

  lemma TwoUpdates(u: Update, v: Update)
    ensures SlotRun(Empty, [u, v]) == SlotStep(SlotStep(Empty, u), v)
  {
    assert [u, v] == [u] + [v] && [v][..0] == [];
    FirstThen(u, [v]);
  }

  /** Whole units matter: 1.6 units at time 3 and 1.7 at time 5 end differently in the two orders. */
  lemma FractionsDiverge()
    ensures var u, w := Update(1.6, 3, "m", "s"), Update(1.7, 5, "m", "s");
            SlotRun(Empty, [u, w]) == Held(2, 3) && SlotRun(Empty, [w, u]) == Held(2, 5)
  {
    var u, w := Update(1.6, 3, "m", "s"), Update(1.7, 5, "m", "s");
    TwoUpdates(u, w);
    TwoUpdates(w, u);
  }

  // ---- signed over unsigned ---------------------------------------------------------

  /** A timestamp that came without a signature, however far in the future, cannot keep out a signed
      update of at least the stored total; once the entry is signed, an older one is stale. */
  lemma UnsignedTimestampDoesNotBlock(r: CurrentRound, address: string, total: real, inflated: int, now: int, u: Update)
    requires Trim(address) != "" && !HasSignature(r, Trim(address)) && NonNegative(r)
    requires SetOutcome(r, address, total, inflated, "", "") == Stored
    requires Signed(u) && ToFixed(total) as real <= u.total && 0.0 < u.total
    ensures var s := SetContribution(r, address, total, inflated, "", "", now);
            var t := SetContribution(s, address, u.total, u.at, u.message, u.signature, now);
            && SetOutcome(s, address, u.total, u.at, u.message, u.signature) == Stored
            && Wh(t, Trim(address)) == ToFixed(u.total) && UpdatedAt(t, Trim(address)) == u.at
            && (1 < u.at ==> SetOutcome(t, address, u.total, u.at - 1, u.message, u.signature) == Stale)
  {
    var key := Trim(address);
    PutLookup(r.wh, key, ToFixed(total), key);
    var s := SetContribution(r, address, total, inflated, "", "", now);
    PutLookup(s.wh, key, ToFixed(u.total), key);
  }

  // ---- claims on a reward -----------------------------------------------------------

  function AsReals(o: Obj<int>): Obj<real> {
    seq(|o|, i requires 0 <= i < |o| => Prop(o[i].key, o[i].value as real))
  }

  function SumWh(o: Obj<int>): int {
    if o == [] then 0 else SumWh(o[..|o| - 1]) + ClampNat(o[|o| - 1].value)
  }
}

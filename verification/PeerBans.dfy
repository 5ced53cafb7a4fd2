/** The maps of `createHandlers` (peer-ban-tracking.js) and the functions that update them. Each call
    touches one key; that key moves as `BanWindow` says and every other one stays. */
module PeerBans {
  import opened JsObject
  import opened Text
  import opened BanWindow

  function HitsAt(failures: map<string, seq<nat>>, key: string): seq<nat> {
    if key in failures then failures[key] else []
  }

  function BanAt(bans: map<string, nat>, key: string): Option<nat> {
    if key in bans then Some(bans[key]) else None
  }

  class BanTracker {
    var bannedPeerIdentities: map<string, nat>
    var bannedPeerUrls: map<string, nat>
    var peerIdentityFailures: map<string, seq<nat>>
    var peerUrlFailures: map<string, seq<nat>>

    constructor ()
      ensures forall key :: Url(key) == Peer([], None) && Identity(key) == Peer([], None)
    {
      bannedPeerIdentities := map[];
      bannedPeerUrls := map[];
      peerIdentityFailures := map[];
      peerUrlFailures := map[];
    }

    ghost function Url(key: string): Peer
      reads this
    {
      Peer(HitsAt(peerUrlFailures, key), BanAt(bannedPeerUrls, key))
    }

    ghost function Identity(key: string): Peer
      reads this
    {
      Peer(HitsAt(peerIdentityFailures, key), BanAt(bannedPeerIdentities, key))
    }

    method IsPeerUrlBanned(peerUrl: string, now: nat, pinned: bool) returns (banned: bool)
      modifies this`bannedPeerUrls
      ensures var key := Trim(peerUrl);
              if key == "" then !banned && bannedPeerUrls == old(bannedPeerUrls)
              else banned == IsBanned(old(Url(key)), now, pinned) && Url(key) == Step(old(Url(key)), Query(now, pinned))
      ensures forall k :: k != Trim(peerUrl) ==> Url(k) == old(Url(k))
    {
      var key := Trim(peerUrl);
      if key == "" {
        return false;
      }
      if pinned {
        bannedPeerUrls := bannedPeerUrls - {key};
        return false;
      }
      if key !in bannedPeerUrls {
        return false;
      }
      if bannedPeerUrls[key] <= now {
        bannedPeerUrls := bannedPeerUrls - {key};
        return false;
      }
      return true;
    }

    method IsPeerIdentityBanned(identity: string, now: nat) returns (banned: bool)
      modifies this`bannedPeerIdentities
      ensures var key := Trim(identity);
              if key == "" then !banned && bannedPeerIdentities == old(bannedPeerIdentities)
              else banned == IsBanned(old(Identity(key)), now, false) &&
                   Identity(key) == Step(old(Identity(key)), Query(now, false))
      ensures forall k :: k != Trim(identity) ==> Identity(k) == old(Identity(k))
    {
      var key := Trim(identity);
      if key == "" || key !in bannedPeerIdentities {
        return false;
      }
      if bannedPeerIdentities[key] <= now {
        bannedPeerIdentities := bannedPeerIdentities - {key};
        return false;
      }
      return true;
    }

    method BanPeerUrl(peerUrl: string, now: nat, pinned: bool, durationMs: nat)
      modifies this`bannedPeerUrls
      ensures var key := Trim(peerUrl);
              if key == "" then bannedPeerUrls == old(bannedPeerUrls)
              else Url(key) == Step(old(Url(key)), Ban(now, pinned, durationMs))
      ensures forall k :: k != Trim(peerUrl) ==> BanAt(bannedPeerUrls, k) == old(BanAt(bannedPeerUrls, k))
    {
      var key := Trim(peerUrl);
      if key == "" || pinned {
        return;
      }
      bannedPeerUrls := bannedPeerUrls[key := now + durationMs];
    }

    method BanPeerIdentity(identity: string, now: nat, durationMs: nat)
      modifies this`bannedPeerIdentities
      ensures var key := Trim(identity);
              if key == "" then bannedPeerIdentities == old(bannedPeerIdentities)
              else Identity(key) == Step(old(Identity(key)), Ban(now, false, durationMs))
      ensures forall k :: k != Trim(identity) ==> BanAt(bannedPeerIdentities, k) == old(BanAt(bannedPeerIdentities, k))
    {
      var key := Trim(identity);
      if key == "" {
        return;
      }
      bannedPeerIdentities := bannedPeerIdentities[key := now + durationMs];
    }

    method RecordPeerUrlFailure(peerUrl: string, now: nat, pinned: bool)
      modifies this`peerUrlFailures, this`bannedPeerUrls
      ensures var key := Trim(peerUrl);
              if key == "" then peerUrlFailures == old(peerUrlFailures) && bannedPeerUrls == old(bannedPeerUrls)
              else Url(key) == Step(old(Url(key)), Failure(now, pinned))
      ensures forall k :: k != Trim(peerUrl) ==> Url(k) == old(Url(k))
    {
      var key := Trim(peerUrl);
      if key == "" {
        return;
      }
      TrimIsTrimmed(peerUrl);
      TrimFixed(key);
      var updated := PushWindow(HitsAt(peerUrlFailures, key), now, FAILURE_WINDOW_MS, MAX_STORED);
      peerUrlFailures := peerUrlFailures[key := updated];
      if |updated| >= BAN_THRESHOLD {
        BanPeerUrl(key, now, pinned, BAN_MS);
        peerUrlFailures := peerUrlFailures[key := []];
      }
    }

    method RecordPeerIdentityFailure(identity: string, now: nat)
      modifies this`peerIdentityFailures, this`bannedPeerIdentities
      ensures var key := Trim(identity);
              if key == ""
              then peerIdentityFailures == old(peerIdentityFailures) &&
                   bannedPeerIdentities == old(bannedPeerIdentities)
              else Identity(key) == Step(old(Identity(key)), Failure(now, false))
      ensures forall k :: k != Trim(identity) ==> Identity(k) == old(Identity(k))
    {
      var key := Trim(identity);
      if key == "" {
        return;
      }
      TrimIsTrimmed(identity);
      TrimFixed(key);
      var updated := PushWindow(HitsAt(peerIdentityFailures, key), now, FAILURE_WINDOW_MS, MAX_STORED);
      peerIdentityFailures := peerIdentityFailures[key := updated];
      if |updated| >= BAN_THRESHOLD {
        BanPeerIdentity(key, now, BAN_MS);
        peerIdentityFailures := peerIdentityFailures[key := []];
      }
    }

    /** The part of `forgetPeerUrlState` (peer-networking.js) that concerns the shared failure map. Its
        key is the URL as the peer directory normalises it. */
    method ForgetPeerUrlState(normalizedUrl: string, now: nat)
      modifies this`peerUrlFailures
      ensures normalizedUrl == "" ==> peerUrlFailures == old(peerUrlFailures)
      ensures normalizedUrl != "" ==> Url(normalizedUrl) == Step(old(Url(normalizedUrl)), Forget(now))
      ensures forall k :: k != normalizedUrl ==> Url(k) == old(Url(k))
    {
      if normalizedUrl == "" {
        return;
      }
      peerUrlFailures := peerUrlFailures - {normalizedUrl};
    }

    method RecordPeerUrlSuccess(peerUrl: string, now: nat)
      modifies this`peerUrlFailures
      ensures var key := Trim(peerUrl);
              if key == "" then peerUrlFailures == old(peerUrlFailures)
              else Url(key) == Step(old(Url(key)), Success(now))
      ensures forall k :: k != Trim(peerUrl) ==> Url(k) == old(Url(k))
    {
      var key := Trim(peerUrl);
      if key == "" {
        return;
      }
      var hits := HitsAt(peerUrlFailures, key);
      if |hits| <= 1 {
        peerUrlFailures := peerUrlFailures - {key};
      } else {
        peerUrlFailures := peerUrlFailures[key := hits[|hits| - 1..]];
      }
    }
  }
}

/** Choosing a peer URL (local-subnet-discovery.js): `selectPreferredPeerUrl`, its fold
    `selectDiscoveryPeerUrl`, and `sortPeerUrlsByPreference`. The score of a URL and the relation
    `localeCompare(a, b) <= 0` are parameters. */
module PeerPreference {
  import opened Text

  datatype Order = Order(score: string -> int, le: (string, string) -> bool)

  /** `localeCompare` orders all strings, but may hold distinct ones for equal. */
  ghost predicate TotalPreorder(o: Order) {
    && (forall a, b :: o.le(a, b) || o.le(b, a))
    && (forall a, b, c :: o.le(a, b) && o.le(b, c) ==> o.le(a, c))
  }

  /** `a` does not come after `b`: a higher score, or the same one and no later name. */
  predicate NotAfter(o: Order, a: string, b: string) {
    o.score(a) > o.score(b) || (o.score(a) == o.score(b) && o.le(a, b))
  }

  function SelectPreferred(o: Order, currentUrl: string, candidateUrl: string): string {
    var current, candidate := Trim(currentUrl), Trim(candidateUrl);
    if current == "" then candidate
    else if candidate == "" then current
    else if o.score(candidate) > o.score(current) then candidate
    else if o.score(candidate) < o.score(current) then current
    else if o.le(current, candidate) then current
    else candidate
  }

  function SelectAll(o: Order, urls: seq<string>): string {
    if urls == [] then "" else SelectPreferred(o, SelectAll(o, urls[..|urls| - 1]), urls[|urls| - 1])
  }

  method SelectDiscoveryPeerUrl(o: Order, urls: seq<string>) returns (preferred: string)
    ensures preferred == SelectAll(o, urls)
  {
    preferred := "";
    for i := 0 to |urls|
      invariant preferred == SelectAll(o, urls[..i])
    {
      assert urls[..i + 1][..i] == urls[..i];
      preferred := SelectPreferred(o, preferred, urls[i]);
    }
    assert urls[..|urls|] == urls;
  }

  /** The list that is sorted: trimmed, non-empty, each URL once, where it first occurs. */
  function Distinct(urls: seq<string>): seq<string> {
    if urls == [] then []
    else
      var front, last := Distinct(urls[..|urls| - 1]), Trim(urls[|urls| - 1]);
      if last == "" || last in front then front else front + [last]
  }

  /** `t` is `s` sorted, and URLs that tie keep their order. `Array.prototype.sort` is stable. */
  ghost predicate StableSort(o: Order, s: seq<string>, t: seq<string>) {
    && (forall u :: u in s <==> u in t)
    && (forall i, j :: 0 <= i < j < |t| ==> NotAfter(o, t[i], t[j]))
    && TiesKept(o, s, t)
  }

  ghost predicate TiesKept(o: Order, s: seq<string>, t: seq<string>) {
    forall i, j, k, l :: Tie(o, s, i, j) && 0 <= k < |t| && 0 <= l < |t| && t[k] == s[i] && t[l] == s[j] ==> k < l
  }

  predicate Tie(o: Order, s: seq<string>, i: int, j: int) {
    0 <= i < j < |s| && NotAfter(o, s[i], s[j]) && NotAfter(o, s[j], s[i])
  }

  /** The selected URL comes first of the list, and first among those it ties with. */
  ghost predicate FirstBest(o: Order, s: seq<string>, best: string) {
    if s == [] then best == ""
    else exists i :: 0 <= i < |s| && s[i] == best
                     && (forall j :: 0 <= j < |s| ==> NotAfter(o, best, s[j]))
                     && (forall j :: 0 <= j < i ==> !NotAfter(o, s[j], best))
  }

  lemma {:induction false} DistinctKept(urls: seq<string>)
    ensures forall u :: u in Distinct(urls) ==> u != "" && Trim(u) == u
    ensures forall i, j :: 0 <= i < j < |Distinct(urls)| ==> Distinct(urls)[i] != Distinct(urls)[j]
  {
    if urls != [] {
      DistinctKept(urls[..|urls| - 1]);
      TrimIsTrimmed(urls[|urls| - 1]);
      TrimFixed(Trim(urls[|urls| - 1]));
    }
  }

  lemma BestAppend(o: Order, s: seq<string>, best: string, u: string)
    requires TotalPreorder(o) && FirstBest(o, s, best) && u != "" && Trim(u) == u
    requires s != [] ==> best != "" && Trim(best) == best
    ensures FirstBest(o, s + [u], SelectPreferred(o, best, u))
  {
    var t := s + [u];
    if s == [] {
      assert Trim("") == "";
      assert t[0] == u && NotAfter(o, u, u);
    } else {
      var i :| 0 <= i < |s| && s[i] == best && (forall j :: 0 <= j < |s| ==> NotAfter(o, best, s[j]))
               && (forall j :: 0 <= j < i ==> !NotAfter(o, s[j], best));
      if NotAfter(o, best, u) {
        assert t[i] == best;
        assert forall j :: 0 <= j < |t| ==> NotAfter(o, best, t[j]);
      } else {
        assert t[|s|] == u && NotAfter(o, u, best) && NotAfter(o, u, u);
        forall j | 0 <= j < |t| ensures NotAfter(o, u, t[j]) {
          assert j < |s| ==> NotAfter(o, best, s[j]);
        }
        forall j | 0 <= j < |s| ensures !NotAfter(o, t[j], u) {
          assert NotAfter(o, best, s[j]);
        }
      }
    }
  }

  lemma BestRepeated(o: Order, s: seq<string>, best: string, u: string)
    requires TotalPreorder(o) && FirstBest(o, s, best) && u in s && Trim(u) == u
    requires best != "" && Trim(best) == best && u != ""
    ensures SelectPreferred(o, best, u) == best
  {
  }

  lemma {:induction false} SelectAllIsFirstBest(o: Order, urls: seq<string>)
    requires TotalPreorder(o)
    ensures FirstBest(o, Distinct(urls), SelectAll(o, urls))
    ensures Trim(SelectAll(o, urls)) == SelectAll(o, urls)
    ensures Distinct(urls) != [] ==> SelectAll(o, urls) != ""
  {
    if urls != [] {
      var front, last := urls[..|urls| - 1], urls[|urls| - 1];
      SelectAllIsFirstBest(o, front);
      DistinctKept(front);
      TrimIsTrimmed(last);
      TrimFixed(Trim(last));
      var s, best, u := Distinct(front), SelectAll(o, front), Trim(last);
      assert SelectPreferred(o, best, last) == SelectPreferred(o, best, u);
      if u != "" {
        if u in s {
          BestRepeated(o, s, best, u);
        } else {
          BestAppend(o, s, best, u);
        }
      }
    }
  }

  /** Folding the preference over the URLs picks the head of the sorted list. */
  lemma DiscoveryIsHeadOfSorted(o: Order, urls: seq<string>, sorted: seq<string>)
    requires TotalPreorder(o) && StableSort(o, Distinct(urls), sorted)
    ensures SelectAll(o, urls) == if sorted == [] then "" else sorted[0]
  {
    SelectAllIsFirstBest(o, urls);
    var s, best := Distinct(urls), SelectAll(o, urls);
    assert sorted != [] ==> sorted[0] in sorted;
    assert sorted == [] <==> s == [] by {
      assert s != [] ==> s[0] in sorted;
    }
    if s != [] {
      HeadIsFirstBest(o, s, sorted, best);
    }
  }

  lemma HeadIsFirstBest(o: Order, s: seq<string>, sorted: seq<string>, best: string)
    requires TotalPreorder(o) && StableSort(o, s, sorted) && FirstBest(o, s, best) && s != [] && sorted != []
    ensures best == sorted[0]
  {
    var i :| 0 <= i < |s| && s[i] == best && (forall j :: 0 <= j < |s| ==> NotAfter(o, best, s[j]))
             && (forall j :: 0 <= j < i ==> !NotAfter(o, s[j], best));
    assert s[i] in sorted;
    var k :| 0 <= k < |sorted| && sorted[k] == best;
    assert sorted[0] in s;
    var j :| 0 <= j < |s| && s[j] == sorted[0];
    assert NotAfter(o, s[j], best);
    assert Tie(o, s, i, j) ==> k < 0;
    assert i == j;
  }

  // ---- sorting ----------------------------------------------------------------------

  /** Insertion behind everything that does not come after. */
  function Insert(o: Order, t: seq<string>, u: string): seq<string> {
    if t == [] || NotAfter(o, t[|t| - 1], u) then t + [u] else Insert(o, t[..|t| - 1], u) + [t[|t| - 1]]
  }

  function Sorted(o: Order, s: seq<string>): seq<string> {
    if s == [] then [] else Insert(o, Sorted(o, s[..|s| - 1]), s[|s| - 1])
  }

  ghost predicate InOrder(o: Order, t: seq<string>) {
    forall i, j :: 0 <= i < j < |t| ==> NotAfter(o, t[i], t[j])
  }

  lemma NotAfterTransitive(o: Order, a: string, b: string, c: string)
    requires TotalPreorder(o) && NotAfter(o, a, b) && NotAfter(o, b, c)
    ensures NotAfter(o, a, c)
  {
  }

  /** The place of an inserted URL. */
  ghost predicate PlacedAt(o: Order, t: seq<string>, u: string, p: nat) {
    && p <= |t| && Insert(o, t, u) == t[..p] + [u] + t[p..]
    && (forall k :: 0 <= k < p ==> NotAfter(o, t[k], u))
    && (forall k :: p <= k < |t| ==> !NotAfter(o, t[k], u))
  }

  lemma {:induction false} InsertPlaces(o: Order, t: seq<string>, u: string) returns (p: nat)
    requires TotalPreorder(o) && InOrder(o, t)
    ensures PlacedAt(o, t, u, p)
  {
    if t == [] || NotAfter(o, t[|t| - 1], u) {
      p := |t|;
      forall k | 0 <= k < |t| ensures NotAfter(o, t[k], u) {
        if k < |t| - 1 {
          NotAfterTransitive(o, t[k], t[|t| - 1], u);
        }
      }
      assert t[..p] + [u] + t[p..] == t + [u];
    } else {
      var front := t[..|t| - 1];
      p := InsertPlaces(o, front, u);
      assert front[..p] == t[..p] && front[p..] + [t[|t| - 1]] == t[p..];
      assert front[..p] + [u] + front[p..] + [t[|t| - 1]] == t[..p] + [u] + t[p..];
    }
  }

  lemma InsertInOrder(o: Order, t: seq<string>, u: string, p: nat)
    requires TotalPreorder(o) && InOrder(o, t) && PlacedAt(o, t, u, p)
    ensures InOrder(o, Insert(o, t, u))
  {
    var r := Insert(o, t, u);
    forall i, j | 0 <= i < j < |r| ensures NotAfter(o, r[i], r[j]) {
      assert i != p ==> r[i] == t[if i < p then i else i - 1];
      assert j != p ==> r[j] == t[if j < p then j else j - 1];
    }
  }

  /** Where the URLs of the inserted list come from. */
  lemma InsertedAt(o: Order, t: seq<string>, u: string, p: nat, k: nat)
    requires PlacedAt(o, t, u, p) && k <= |t|
    ensures Insert(o, t, u)[k] == if k < p then t[k] else if k == p then u else t[k - 1]
  {
  }

  /** Appending a new URL and inserting it keeps ties in order. */
  lemma InsertStable(o: Order, s: seq<string>, t: seq<string>, u: string, p: nat)
    requires StableSort(o, s, t) && PlacedAt(o, t, u, p) && u !in s
    ensures TiesKept(o, s + [u], Insert(o, t, u))
  {
    var r, all := Insert(o, t, u), s + [u];
    forall i, j, k, l | Tie(o, all, i, j) && 0 <= k < |r| && 0 <= l < |r| && r[k] == all[i] && r[l] == all[j]
      ensures k < l
    {
      InsertTie(o, s, t, u, p, i, j, k, l);
    }
  }

  lemma InsertTie(o: Order, s: seq<string>, t: seq<string>, u: string, p: nat, i: nat, j: nat, k: nat, l: nat)
    requires StableSort(o, s, t) && PlacedAt(o, t, u, p) && u !in s
    requires Tie(o, s + [u], i, j) && k <= |t| && l <= |t|
    requires Insert(o, t, u)[k] == (s + [u])[i] && Insert(o, t, u)[l] == (s + [u])[j]
    ensures k < l
  {
    InsertedAt(o, t, u, p, k);
    InsertedAt(o, t, u, p, l);
    forall x | 0 <= x < |t| ensures t[x] != u {
      assert t[x] in t;
    }
    assert s[i] in s;
    if j < |s| {
      assert s[j] in s && Tie(o, s, i, j);
    }
  }

  lemma InsertKeepsAll(o: Order, t: seq<string>, u: string, p: nat)
    requires PlacedAt(o, t, u, p)
    ensures |Insert(o, t, u)| == |t| + 1 && forall v :: v in Insert(o, t, u) <==> v in t || v == u
  {
    assert t == t[..p] + t[p..];
  }

  /** Every list of distinct URLs has a stable sort. */
  lemma {:induction false} SortedIsStable(o: Order, s: seq<string>)
    requires TotalPreorder(o) && forall i, j :: 0 <= i < j < |s| ==> s[i] != s[j]
    ensures StableSort(o, s, Sorted(o, s))
  {
    if s != [] {
      var front, u := s[..|s| - 1], s[|s| - 1];
      SortedIsStable(o, front);
      var t := Sorted(o, front);
      var p := InsertPlaces(o, t, u);
      assert s == front + [u] && u !in front;
      InsertKeepsAll(o, t, u, p);
      InsertInOrder(o, t, u, p);
      InsertStable(o, front, t, u, p);
    }
  }

  /** So there is a sorted list, and the selected URL is its head. */
  lemma SortedListHasHead(o: Order, urls: seq<string>)
    requires TotalPreorder(o)
    ensures StableSort(o, Distinct(urls), Sorted(o, Distinct(urls)))
    ensures SelectAll(o, urls) == if Distinct(urls) == [] then "" else Sorted(o, Distinct(urls))[0]
  {
    DistinctKept(urls);
    SortedIsStable(o, Distinct(urls));
    DiscoveryIsHeadOfSorted(o, urls, Sorted(o, Distinct(urls)));
    assert Distinct(urls) != [] ==> Distinct(urls)[0] in Sorted(o, Distinct(urls));
  }

  // ---- the best of the list ---------------------------------------------------------

  /** The selected URL is one of the list, trimmed, with the highest score of all; among those of this
      score it is not after any other by name. It is empty if and only if all are blank. */
  lemma SelectedIsBest(o: Order, urls: seq<string>)
    requires TotalPreorder(o)
    ensures var best := SelectAll(o, urls);
            && (best == "" <==> forall i :: 0 <= i < |urls| ==> Trim(urls[i]) == "")
            && (best != "" ==> exists i :: 0 <= i < |urls| && Trim(urls[i]) == best)
            && forall i :: 0 <= i < |urls| && Trim(urls[i]) != "" ==>
                 && o.score(Trim(urls[i])) <= o.score(best)
                 && (o.score(Trim(urls[i])) == o.score(best) ==> o.le(best, Trim(urls[i])))
  {
    SelectAllIsFirstBest(o, urls);
    DistinctKept(urls);
    forall i | 0 <= i < |urls| && Trim(urls[i]) != "" ensures Trim(urls[i]) in Distinct(urls) {
      DistinctHolds(urls, i);
    }
    if Distinct(urls) != [] {
      DistinctFrom(urls, SelectAll(o, urls));
    }
  }

  lemma {:induction false} DistinctHolds(urls: seq<string>, i: nat)
    requires i < |urls| && Trim(urls[i]) != ""
    ensures Trim(urls[i]) in Distinct(urls)
  {
    if i < |urls| - 1 {
      DistinctHolds(urls[..|urls| - 1], i);
    }
  }

  lemma {:induction false} DistinctFrom(urls: seq<string>, u: string)
    ensures u in Distinct(urls) ==> exists i :: 0 <= i < |urls| && Trim(urls[i]) == u
  {
    if urls != [] {
      var front := urls[..|urls| - 1];
      DistinctFrom(front, u);
      assert forall i :: 0 <= i < |front| ==> front[i] == urls[i];
    }
  }
}

/** The pure selection helpers of the draw: removing committed winners from the
    pool (`removeWinners`), the blacklist eligibility filter
    (`getAvailParticipantsForPrize`) and the duplicate check (`verifyWinners`). */
module Selection {
  import opened Model

  // ---------------------------------------------------------------------------
  // removeWinners
  // ---------------------------------------------------------------------------

  /** The entries of `origin` whose ID no winner carries, in `origin`'s order. */
  function Without(origin: seq<Participant>, winners: seq<Participant>): (r: seq<Participant>)
    ensures multiset(r) <= multiset(origin)
    ensures forall p | p in r :: !HasId(winners, p.id)
  {
    if origin == [] then []
    else
      var init, p := origin[..|origin| - 1], origin[|origin| - 1];
      assert origin == init + [p];
      Without(init, winners) + (if HasId(winners, p.id) then [] else [p])
  }

  /** An entry survives exactly when it is in `origin` and no winner carries its ID. */
  lemma {:induction false} WithoutMembers(origin: seq<Participant>, winners: seq<Participant>, p: Participant)
    ensures p in Without(origin, winners) <==> p in origin && !HasId(winners, p.id)
  {
    if origin != [] {
      var init := origin[..|origin| - 1];
      assert origin == init + [origin[|origin| - 1]];
      WithoutMembers(init, winners, p);
    }
  }

  /** Removal works entry by entry and keeps the order: it distributes over concatenation. */
  lemma {:induction false} WithoutConcat(a: seq<Participant>, b: seq<Participant>, winners: seq<Participant>)
    ensures Without(a + b, winners) == Without(a, winners) + Without(b, winners)
  {
    if b == [] {
      assert a + b == a;
    } else {
      var init := b[..|b| - 1];
      assert (a + b)[..|a + b| - 1] == a + init;
      WithoutConcat(a, init, winners);
    }
  }

  /** How many copies of `x` survive: none if a winner carries its ID, all of them otherwise. */
  lemma {:induction false} WithoutCount(origin: seq<Participant>, winners: seq<Participant>, x: Participant)
    ensures multiset(Without(origin, winners))[x] == if HasId(winners, x.id) then 0 else multiset(origin)[x]
  {
    if origin != [] {
      var init := origin[..|origin| - 1];
      assert origin == init + [origin[|origin| - 1]];
      WithoutCount(init, winners, x);
    }
  }

  /** When the pool's IDs are unique and the winners were taken from it, removal takes
      out exactly the winners: what is left and the winners together make up the pool. */
  lemma ExactlyWinnersRemoved(origin: seq<Participant>, winners: seq<Participant>)
    requires UniqueIds(multiset(origin))
    requires multiset(winners) <= multiset(origin)
    ensures multiset(Without(origin, winners)) + multiset(winners) == multiset(origin)
  {
    var left := multiset(Without(origin, winners));
    forall x ensures left[x] + multiset(winners)[x] == multiset(origin)[x] {
      WithoutCount(origin, winners, x);
      if HasId(winners, x.id) {
        var w :| w in winners && w.id == x.id;
        assert w in multiset(origin);
      }
    }
    assert left + multiset(winners) == multiset(origin);
  }

  /** The inner loop of `removeWinners`: a scan of the winners for an ID. */
  method FindId(winners: seq<Participant>, id: string) returns (found: bool)
    ensures found <==> HasId(winners, id)
  {
    found := false;
    for j := 0 to |winners|
      invariant forall t | 0 <= t < j :: winners[t].id != id
    {
      if id == winners[j].id {
        return true;
      }
    }
  }

  /** `removeWinners`: the loop over `origin` with an inner search of the winners by ID. */
  method RemoveWinners(origin: seq<Participant>, winners: seq<Participant>) returns (updated: seq<Participant>)
    ensures updated == Without(origin, winners)
    ensures forall p :: p in updated <==> p in origin && !HasId(winners, p.id)
  {
    updated := [];
    for k := 0 to |origin|
      invariant updated == Without(origin[..k], winners)
    {
      var p := origin[k];
      var found := FindId(winners, p.id);
      assert origin[..k + 1][..k] == origin[..k];
      assert Without(origin[..k + 1], winners)
          == Without(origin[..k], winners) + (if HasId(winners, p.id) then [] else [p]);
      if !found {
        updated := updated + [p];
      }
    }
    assert origin[..|origin|] == origin;
    forall p ensures p in updated <==> p in origin && !HasId(winners, p.id) {
      WithoutMembers(origin, winners, p);
    }
  }

  // ---------------------------------------------------------------------------
  // getAvailParticipantsForPrize
  // ---------------------------------------------------------------------------

  /** Some blacklist rule that applies to prize `prizeIndex` lists `id`; a rule applies
      only to prizes whose index is greater than its MaxPrizeIndex. */
  predicate Barred(prizeIndex: int, id: string, blacklists: seq<Blacklist>)
  {
    exists t | 0 <= t < |blacklists| :: blacklists[t].maxPrizeIndex < prizeIndex && id in blacklists[t].ids
  }

  /** The entries of `origin` that no applicable rule bars, in `origin`'s order. */
  function Eligibles(prizeIndex: int, origin: seq<Participant>, blacklists: seq<Blacklist>): (r: seq<Participant>)
    ensures multiset(r) <= multiset(origin)
    ensures forall p | p in r :: !Barred(prizeIndex, p.id, blacklists)
  {
    if origin == [] then []
    else
      var init, p := origin[..|origin| - 1], origin[|origin| - 1];
      assert origin == init + [p];
      Eligibles(prizeIndex, init, blacklists) + (if Barred(prizeIndex, p.id, blacklists) then [] else [p])
  }

  /** What `getAvailParticipantsForPrize` returns: `origin` itself when it or the rule list
      is empty, otherwise the eligible entries. */
  function ForPrize(prizeIndex: int, origin: seq<Participant>, blacklists: seq<Blacklist>): seq<Participant>
  {
    if |origin| <= 0 then origin
    else if |blacklists| <= 0 then origin
    else Eligibles(prizeIndex, origin, blacklists)
  }

  lemma {:induction false} EligiblesMembers(prizeIndex: int, origin: seq<Participant>, blacklists: seq<Blacklist>, p: Participant)
    ensures p in Eligibles(prizeIndex, origin, blacklists) <==> p in origin && !Barred(prizeIndex, p.id, blacklists)
  {
    if origin != [] {
      var init := origin[..|origin| - 1];
      assert origin == init + [origin[|origin| - 1]];
      EligiblesMembers(prizeIndex, init, blacklists, p);
    }
  }

  /** With no rule, nobody is barred and the filter keeps all of `origin`. */
  lemma {:induction false} EligiblesNoRules(prizeIndex: int, origin: seq<Participant>)
    ensures Eligibles(prizeIndex, origin, []) == origin
  {
    if origin != [] {
      var init := origin[..|origin| - 1];
      assert origin == init + [origin[|origin| - 1]];
      EligiblesNoRules(prizeIndex, init);
    }
  }

  /** The two early returns of `getAvailParticipantsForPrize` agree with the filter. */
  lemma ForPrizeIsFilter(prizeIndex: int, origin: seq<Participant>, blacklists: seq<Blacklist>)
    ensures ForPrize(prizeIndex, origin, blacklists) == Eligibles(prizeIndex, origin, blacklists)
  {
    if |blacklists| <= 0 {
      assert blacklists == [];
      EligiblesNoRules(prizeIndex, origin);
    }
  }

  /** A participant is dropped iff an applicable rule lists its ID. */
  lemma ForPrizeMembers(prizeIndex: int, origin: seq<Participant>, blacklists: seq<Blacklist>, p: Participant)
    ensures p in ForPrize(prizeIndex, origin, blacklists) <==> p in origin && !Barred(prizeIndex, p.id, blacklists)
  {
    ForPrizeIsFilter(prizeIndex, origin, blacklists);
    EligiblesMembers(prizeIndex, origin, blacklists, p);
  }

  /** The filter keeps the order of `origin`: it distributes over concatenation. */
  lemma {:induction false} EligiblesConcat(prizeIndex: int, a: seq<Participant>, b: seq<Participant>, blacklists: seq<Blacklist>)
    ensures Eligibles(prizeIndex, a + b, blacklists) == Eligibles(prizeIndex, a, blacklists) + Eligibles(prizeIndex, b, blacklists)
  {
    if b == [] {
      assert a + b == a;
    } else {
      var init := b[..|b| - 1];
      assert (a + b)[..|a + b| - 1] == a + init;
      EligiblesConcat(prizeIndex, a, init, blacklists);
    }
  }

  lemma {:induction false} EligiblesSameBars(prizeIndex: int, origin: seq<Participant>, bl1: seq<Blacklist>, bl2: seq<Blacklist>)
    requires forall p | p in origin :: Barred(prizeIndex, p.id, bl1) == Barred(prizeIndex, p.id, bl2)
    ensures Eligibles(prizeIndex, origin, bl1) == Eligibles(prizeIndex, origin, bl2)
  {
    if origin != [] {
      var init := origin[..|origin| - 1];
      assert origin == init + [origin[|origin| - 1]];
      EligiblesSameBars(prizeIndex, init, bl1, bl2);
    }
  }

  /** The boundary: a rule whose MaxPrizeIndex is at or above the prize index changes nothing. */
  lemma RuleAtOrAboveIgnored(prizeIndex: int, origin: seq<Participant>, blacklists: seq<Blacklist>, rule: Blacklist)
    requires prizeIndex <= rule.maxPrizeIndex
    ensures ForPrize(prizeIndex, origin, blacklists + [rule]) == ForPrize(prizeIndex, origin, blacklists)
  {
    var extended := blacklists + [rule];
    forall p | p in origin ensures Barred(prizeIndex, p.id, extended) == Barred(prizeIndex, p.id, blacklists) {
      if Barred(prizeIndex, p.id, extended) {
        var t :| 0 <= t < |extended| && extended[t].maxPrizeIndex < prizeIndex && p.id in extended[t].ids;
        assert t < |blacklists| && extended[t] == blacklists[t];
      }
      if Barred(prizeIndex, p.id, blacklists) {
        var t :| 0 <= t < |blacklists| && blacklists[t].maxPrizeIndex < prizeIndex && p.id in blacklists[t].ids;
        assert extended[t] == blacklists[t];
      }
    }
    ForPrizeIsFilter(prizeIndex, origin, extended);
    ForPrizeIsFilter(prizeIndex, origin, blacklists);
    EligiblesSameBars(prizeIndex, origin, extended, blacklists);
  }

  /** The innermost loop of `getAvailParticipantsForPrize`: a scan of one rule's IDs. */
  method ListsId(ids: seq<string>, id: string) returns (found: bool)
    ensures found <==> id in ids
  {
    found := false;
    for m := 0 to |ids|
      invariant id !in ids[..m]
    {
      if id == ids[m] {
        return true;
      }
      assert ids[..m + 1] == ids[..m] + [ids[m]];
    }
    assert ids[..|ids|] == ids;
  }

  /** The loop over the rules for one participant: rules at or above the prize index
      are skipped, and the scan stops at the first rule that lists the ID. */
  method BarredByRules(prizeIndex: int, id: string, blacklists: seq<Blacklist>) returns (found: bool)
    ensures found <==> Barred(prizeIndex, id, blacklists)
  {
    found := false;
    for j := 0 to |blacklists|
      invariant forall t | 0 <= t < j :: !(blacklists[t].maxPrizeIndex < prizeIndex && id in blacklists[t].ids)
    {
      var blacklist := blacklists[j];
      if prizeIndex <= blacklist.maxPrizeIndex {
        continue;
      }
      found := ListsId(blacklist.ids, id);
      if found {
        return;
      }
    }
  }

  /** `getAvailParticipantsForPrize`: the early returns, then the loop over participants
      and rules. The Go function's error result is always nil and is not modelled. */
  method AvailParticipantsForPrize(prizeIndex: int, origin: seq<Participant>, blacklists: seq<Blacklist>)
    returns (updated: seq<Participant>)
    ensures updated == ForPrize(prizeIndex, origin, blacklists)
    ensures forall p :: p in updated <==> p in origin && !Barred(prizeIndex, p.id, blacklists)
  {
    forall p ensures p in ForPrize(prizeIndex, origin, blacklists) <==> p in origin && !Barred(prizeIndex, p.id, blacklists) {
      ForPrizeMembers(prizeIndex, origin, blacklists, p);
    }
    if |origin| <= 0 {
      return origin;
    }
    if |blacklists| <= 0 {
      return origin;
    }
    updated := [];
    for k := 0 to |origin|
      invariant updated == Eligibles(prizeIndex, origin[..k], blacklists)
    {
      var p := origin[k];
      var found := BarredByRules(prizeIndex, p.id, blacklists);
      assert origin[..k + 1][..k] == origin[..k];
      assert Eligibles(prizeIndex, origin[..k + 1], blacklists)
          == Eligibles(prizeIndex, origin[..k], blacklists) + (if Barred(prizeIndex, p.id, blacklists) then [] else [p]);
      if !found {
        updated := updated + [p];
      }
    }
    assert origin[..|origin|] == origin;
  }

  // ---------------------------------------------------------------------------
  // verifyWinners
  // ---------------------------------------------------------------------------

  /** `verifyWinners`: fills a map keyed by ID and fails on the first ID seen twice. */
  method VerifyWinners(winners: seq<Participant>) returns (valid: bool)
    ensures valid <==> IdsDistinct(winners)
  {
    var m: map<string, Participant> := map[];
    for k := 0 to |winners|
      invariant m.Keys == set t | 0 <= t < k :: winners[t].id
      invariant IdsDistinct(winners[..k])
    {
      var p := winners[k];
      if p.id in m {
        var t :| 0 <= t < k && winners[t].id == p.id;
        assert winners[t].id == winners[k].id;
        return false;
      }
      m := m[p.id := p];
    }
    assert winners[..|winners|] == winners;
    return true;
  }
}

/** The samplers: `_getWinners` (validate, filter, draw without replacement, check for
    duplicates) and `round` (the same draw without the filter).

    Each call to `rand.Intn(len)` is modelled by a supplied random source `rng`: the
    k-th pick of a draw (counting from 0) takes index `rng(k) % len`, which is always
    in range, and every in-range index is the pick for some source. The draw works on
    its own copy of the candidate list. */
module Sampler {
  import opened Model
  import opened Selection

  /** `pool` with the entry at `idx` taken out, the rest in order. */
  function RemoveAt(pool: seq<Participant>, idx: nat): (r: seq<Participant>)
    requires idx < |pool|
    ensures |r| == |pool| - 1
  {
    pool[..idx] + pool[idx + 1..]
  }

  /** Exactly the entry at `idx` leaves the pool. */
  lemma RemoveAtBag(pool: seq<Participant>, idx: nat)
    requires idx < |pool|
    ensures multiset(RemoveAt(pool, idx)) + multiset{pool[idx]} == multiset(pool)
  {
    assert pool == pool[..idx] + [pool[idx]] + pool[idx + 1..];
  }

  /** The `n` picks of the sampling loop, starting at pick number `k`: each pick moves
      one entry of what is left of the pool to the winners. Returns the winners, in
      pick order, and what is left of the pool. */
  function Draw(pool: seq<Participant>, n: nat, rng: nat -> nat, k: nat): (r: (seq<Participant>, seq<Participant>))
    requires n <= |pool|
    ensures |r.0| == n && |r.1| == |pool| - n
    decreases n
  {
    if n == 0 then ([], pool)
    else
      var idx := rng(k) % |pool|;
      var rest := Draw(RemoveAt(pool, idx), n - 1, rng, k + 1);
      ([pool[idx]] + rest.0, rest.1)
  }

  /** Drawing from a pool whose IDs are unique yields ID-distinct winners, so the
      duplicate check after the loop never fires on such a pool. */
  lemma DrawFromUniqueIsDistinct(pool: seq<Participant>, n: nat, rng: nat -> nat)
    requires n <= |pool|
    requires UniqueIds(multiset(pool))
    ensures IdsDistinct(Draw(pool, n, rng, 0).0)
  {
    var d := Draw(pool, n, rng, 0);
    DrawTakesFromPool(pool, n, rng);
    SubBagUnique(multiset(d.0), multiset(pool));
    UniqueIsDistinct(d.0);
  }

  /** The sampling loop shared by `_getWinners` and `round`: `n` times, pick an index
      into the working list, append that entry to the winners and remove it. */
  method Sample(pool: seq<Participant>, n: nat, rng: nat -> nat) returns (winners: seq<Participant>)
    requires n <= |pool|
    ensures winners == Draw(pool, n, rng, 0).0
    ensures |winners| == n && multiset(winners) <= multiset(pool)
  {
    var avail := pool;
    winners := [];
    for i := 0 to n
      invariant |avail| == |pool| - i
      invariant Draw(pool, n, rng, 0).0 == winners + Draw(avail, n - i, rng, i).0
    {
      var idx := rng(i) % |avail|;
      DrawStep(avail, n - i, rng, i, winners);
      winners := winners + [avail[idx]];
      avail := RemoveAt(avail, idx);
    }
    DrawTakesFromPool(pool, n, rng);
  }

  /** One pick of the sampling loop, seen from the winners drawn so far. */
  lemma DrawStep(avail: seq<Participant>, m: nat, rng: nat -> nat, k: nat, winners: seq<Participant>)
    requires 0 < m <= |avail|
    ensures var idx := rng(k) % |avail|;
            winners + Draw(avail, m, rng, k).0 == (winners + [avail[idx]]) + Draw(RemoveAt(avail, idx), m - 1, rng, k + 1).0
  {
  }

  /** The inductive step of `DrawSplitsPool`: if the picks after the first keep the
      bag of what the first pick left, the whole draw keeps the bag of the pool. */
  lemma DrawStepBag(pool: seq<Participant>, n: nat, rng: nat -> nat, k: nat)
    requires 0 < n <= |pool|
    requires var rest := Draw(RemoveAt(pool, rng(k) % |pool|), n - 1, rng, k + 1);
             multiset(rest.0) + multiset(rest.1) == multiset(RemoveAt(pool, rng(k) % |pool|))
    ensures multiset(Draw(pool, n, rng, k).0) + multiset(Draw(pool, n, rng, k).1) == multiset(pool)
  {
    var idx := rng(k) % |pool|;
    RemoveAtBag(pool, idx);
    var e := Draw(RemoveAt(pool, idx), n - 1, rng, k + 1);
    assert multiset([pool[idx]] + e.0) == multiset{pool[idx]} + multiset(e.0);
  }

  /** A draw moves entries from the pool to the winners: together, the winners and
      what is left are the pool. */
  lemma {:induction false} DrawSplitsPool(pool: seq<Participant>, n: nat, rng: nat -> nat, k: nat)
    requires n <= |pool|
    ensures multiset(Draw(pool, n, rng, k).0) + multiset(Draw(pool, n, rng, k).1) == multiset(pool)
    decreases n
  {
    if n > 0 {
      DrawSplitsPool(RemoveAt(pool, rng(k) % |pool|), n - 1, rng, k + 1);
      DrawStepBag(pool, n, rng, k);
    }
  }

  /** The winners of a draw are `n` entries of the pool, each taken from its own position. */
  lemma DrawTakesFromPool(pool: seq<Participant>, n: nat, rng: nat -> nat)
    requires n <= |pool|
    ensures |Draw(pool, n, rng, 0).0| == n && multiset(Draw(pool, n, rng, 0).0) <= multiset(pool)
  {
    DrawSplitsPool(pool, n, rng, 0);
  }

  /** What `_getWinners` returns for a prize index, the candidates and the blacklists. */
  function DrawForPrize(prizes: seq<Prize>, prizeIndex: int, availables: seq<Participant>,
                        blacklists: seq<Blacklist>, rng: nat -> nat): Result<seq<Participant>>
  {
    if |prizes| <= 0 then Err(NoPrizes)
    else if prizeIndex < 0 || prizeIndex > |prizes| - 1 then Err(PrizeIndexError)
    else if prizes[prizeIndex].num <= 0 then Err(NoPrizesForIndex(prizeIndex))
    else if |availables| <= 0 then Err(NoParticipants)
    else
      var pool := ForPrize(prizeIndex, availables, blacklists);
      if |pool| <= 0 then Err(NoParticipantsForIndex(prizeIndex))
      else
        var winners := Draw(pool, Min(prizes[prizeIndex].num, |pool|), rng, 0).0;
        if !IdsDistinct(winners) then Err(InvalidWinners) else Ok(winners)
  }

  /** The prize is drawable: there is a prize at `prizeIndex` and its Num is positive. */
  predicate Drawable(prizes: seq<Prize>, prizeIndex: int)
  {
    0 <= prizeIndex < |prizes| && prizes[prizeIndex].num > 0
  }

  /** A successful draw: the prize was drawable, there were eligible candidates, and
      the winners are min(Num, eligible count) ID-distinct eligible candidates taken
      from distinct positions of the filtered list. */
  lemma DrawForPrizeWinners(prizes: seq<Prize>, prizeIndex: int, availables: seq<Participant>,
                            blacklists: seq<Blacklist>, rng: nat -> nat)
    requires DrawForPrize(prizes, prizeIndex, availables, blacklists, rng).Ok?
    ensures var winners := DrawForPrize(prizes, prizeIndex, availables, blacklists, rng).value;
            var pool := ForPrize(prizeIndex, availables, blacklists);
            && Drawable(prizes, prizeIndex)
            && |winners| == Min(prizes[prizeIndex].num, |pool|)
            && multiset(winners) <= multiset(pool)
            && IdsDistinct(winners)
            && forall p | p in winners :: p in availables && !Barred(prizeIndex, p.id, blacklists)
  {
    var winners := DrawForPrize(prizes, prizeIndex, availables, blacklists, rng).value;
    var pool := ForPrize(prizeIndex, availables, blacklists);
    DrawTakesFromPool(pool, Min(prizes[prizeIndex].num, |pool|), rng);
    forall p | p in winners ensures p in availables && !Barred(prizeIndex, p.id, blacklists) {
      assert p in multiset(pool);
      ForPrizeMembers(prizeIndex, availables, blacklists, p);
    }
  }

  /** On a candidate list with unique IDs, a drawable prize with at least one eligible
      candidate is always drawn successfully, whatever the random picks. */
  lemma DrawForPrizeSucceeds(prizes: seq<Prize>, prizeIndex: int, availables: seq<Participant>,
                             blacklists: seq<Blacklist>, rng: nat -> nat)
    requires Drawable(prizes, prizeIndex)
    requires ForPrize(prizeIndex, availables, blacklists) != []
    requires UniqueIds(multiset(availables))
    ensures DrawForPrize(prizes, prizeIndex, availables, blacklists, rng).Ok?
  {
    var pool := ForPrize(prizeIndex, availables, blacklists);
    ForPrizeIsFilter(prizeIndex, availables, blacklists);
    SubBagUnique(multiset(pool), multiset(availables));
    DrawFromUniqueIsDistinct(pool, Min(prizes[prizeIndex].num, |pool|), rng);
  }

  /** `_getWinners`: the five guards, the eligibility filter, the clamped draw and the
      duplicate check. The Go error branch after the filter is unreachable (the filter
      never fails) and is not modelled. */
  method GetWinnersForPrize(prizes: seq<Prize>, prizeIndex: int, availables: seq<Participant>,
                            blacklists: seq<Blacklist>, rng: nat -> nat) returns (r: Result<seq<Participant>>)
    ensures r == DrawForPrize(prizes, prizeIndex, availables, blacklists, rng)
    ensures |prizes| <= 0 ==> r == Err(NoPrizes)
    ensures |prizes| > 0 && (prizeIndex < 0 || prizeIndex >= |prizes|) ==> r == Err(PrizeIndexError)
    ensures 0 <= prizeIndex < |prizes| && prizes[prizeIndex].num <= 0 ==> r == Err(NoPrizesForIndex(prizeIndex))
    ensures Drawable(prizes, prizeIndex) && availables == [] ==> r == Err(NoParticipants)
    ensures Drawable(prizes, prizeIndex) && availables != [] && ForPrize(prizeIndex, availables, blacklists) == []
            ==> r == Err(NoParticipantsForIndex(prizeIndex))
    ensures r.Ok? ==> |r.value| == Min(prizes[prizeIndex].num, |ForPrize(prizeIndex, availables, blacklists)|)
    ensures r.Ok? ==> multiset(r.value) <= multiset(ForPrize(prizeIndex, availables, blacklists))
    ensures r.Ok? ==> IdsDistinct(r.value)
  {
    if |prizes| <= 0 {
      return Err(NoPrizes);
    }
    if prizeIndex < 0 || prizeIndex > |prizes| - 1 {
      return Err(PrizeIndexError);
    }
    var n := prizes[prizeIndex].num;
    if n <= 0 {
      return Err(NoPrizesForIndex(prizeIndex));
    }
    if |availables| <= 0 {
      return Err(NoParticipants);
    }
    var updatedAvailables := AvailParticipantsForPrize(prizeIndex, availables, blacklists);
    var m := |updatedAvailables|;
    if m <= 0 {
      return Err(NoParticipantsForIndex(prizeIndex));
    }
    if m < n {
      n := m;
    }
    var winners := Sample(updatedAvailables, n, rng);
    var valid := VerifyWinners(winners);
    if !valid {
      return Err(InvalidWinners);
    }
    r := Ok(winners);
  }

  /** `round`: the draw without the blacklist filter. */
  method Round(prizeNum: int, availables: seq<Participant>, rng: nat -> nat) returns (r: Result<seq<Participant>>)
    ensures prizeNum <= 0 ==> r == Err(IncorrectPrizeNumber)
    ensures prizeNum > 0 && availables == [] ==> r == Err(NoParticipants)
    ensures prizeNum > 0 && availables != [] ==> r == Ok(Draw(availables, Min(prizeNum, |availables|), rng, 0).0)
    ensures r.Ok? ==> |r.value| == Min(prizeNum, |availables|) && multiset(r.value) <= multiset(availables)
  {
    if prizeNum <= 0 {
      return Err(IncorrectPrizeNumber);
    }
    var m := |availables|;
    if m <= 0 {
      return Err(NoParticipants);
    }
    var n := prizeNum;
    if m < n {
      n := m;
    }
    var winners := Sample(availables, n, rng);
    r := Ok(winners);
  }
}

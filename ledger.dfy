/** The winner ledger (`winnerMap`) and the available pool (`availParticipants`) as
    values: the partition of the roster they are meant to keep, and what one draw
    session (return the old winners, run the ticks, commit) does to them. */
module Ledger {
  import opened Model
  import opened Selection
  import opened Sampler

  /** The committed winners of a prize index: the ledger entry, or none if absent. */
  function Prior(ledger: map<int, seq<Participant>>, prizeIndex: int): seq<Participant>
  {
    if prizeIndex in ledger then ledger[prizeIndex] else []
  }

  /** All committed winners of all prize indexes, as one bag. */
  ghost function LedgerBag(ledger: map<int, seq<Participant>>): multiset<Participant>
    decreases |ledger|
  {
    if forall i :: i !in ledger then multiset{}
    else
      var i :| i in ledger;
      assert (ledger - {i}).Keys == ledger.Keys - {i};
      multiset(ledger[i]) + LedgerBag(ledger - {i})
  }

  /** The bag can be taken apart at any prize index. */
  lemma LedgerBagRemove(ledger: map<int, seq<Participant>>, prizeIndex: int)
    requires prizeIndex in ledger
    ensures LedgerBag(ledger) == multiset(ledger[prizeIndex]) + LedgerBag(ledger - {prizeIndex})
    decreases |ledger|
  {
    var j :| j in ledger && LedgerBag(ledger) == multiset(ledger[j]) + LedgerBag(ledger - {j});
    if j != prizeIndex {
      assert (ledger - {j}).Keys == ledger.Keys - {j};
      assert (ledger - {prizeIndex}).Keys == ledger.Keys - {prizeIndex};
      LedgerBagRemove(ledger - {j}, prizeIndex);
      LedgerBagRemove(ledger - {prizeIndex}, j);
      assert ledger - {j} - {prizeIndex} == ledger - {prizeIndex} - {j};
    }
  }

  /** Replacing one entry of the ledger replaces its share of the bag. */
  lemma LedgerBagUpdate(ledger: map<int, seq<Participant>>, prizeIndex: int, winners: seq<Participant>)
    ensures LedgerBag(ledger) == multiset(Prior(ledger, prizeIndex)) + LedgerBag(ledger - {prizeIndex})
    ensures LedgerBag(ledger[prizeIndex := winners]) == multiset(winners) + LedgerBag(ledger - {prizeIndex})
  {
    if prizeIndex in ledger {
      LedgerBagRemove(ledger, prizeIndex);
    } else {
      assert ledger - {prizeIndex} == ledger;
    }
    LedgerBagRemove(ledger[prizeIndex := winners], prizeIndex);
    assert ledger[prizeIndex := winners] - {prizeIndex} == ledger - {prizeIndex};
  }

  /** The pool and the ledger split the roster: every roster entry is in exactly one
      of them, once, and the roster's IDs are unique. */
  ghost predicate Partition(roster: seq<Participant>, pool: seq<Participant>, ledger: map<int, seq<Participant>>)
  {
    UniqueIds(multiset(roster)) && multiset(pool) + LedgerBag(ledger) == multiset(roster)
  }

  /** Before any draw, the whole roster is the pool and the ledger is empty: a
      partition whenever the roster's IDs are distinct. */
  lemma FullPoolPartition(roster: seq<Participant>)
    requires IdsDistinct(roster)
    ensures Partition(roster, roster, map[])
  {
    DistinctIsUnique(roster);
    assert LedgerBag(map[]) == multiset{};
  }

  /** Every non-empty ledger entry belongs to a drawable prize and holds only
      participants eligible for it. */
  ghost predicate LedgerDrawable(prizes: seq<Prize>, blacklists: seq<Blacklist>, ledger: map<int, seq<Participant>>)
  {
    forall i | i in ledger && ledger[i] != [] ::
      Drawable(prizes, i) && forall p | p in ledger[i] :: !Barred(i, p.id, blacklists)
  }

  /** The outcome of a draw session whose tick loop ran the ticks `ticks` (one random
      source each) before it saw the cancellation. Every tick draws afresh from the same
      candidate list and replaces the previous tick's winners; the first tick that fails
      ends the session with its error. Cancelled before the first tick, the session has
      no winners. */
  function RunTicks(prizes: seq<Prize>, prizeIndex: int, availables: seq<Participant>,
                    blacklists: seq<Blacklist>, ticks: seq<nat -> nat>): Result<seq<Participant>>
  {
    if ticks == [] then Ok([])
    else
      match RunTicks(prizes, prizeIndex, availables, blacklists, ticks[..|ticks| - 1])
      case Err(e) => Err(e)
      case Ok(_) => DrawForPrize(prizes, prizeIndex, availables, blacklists, ticks[|ticks| - 1])
  }

  /** A session that ends well commits no winners, or the winners of a successful last tick. */
  lemma RunTicksWinners(prizes: seq<Prize>, prizeIndex: int, availables: seq<Participant>,
                        blacklists: seq<Blacklist>, ticks: seq<nat -> nat>)
    requires RunTicks(prizes, prizeIndex, availables, blacklists, ticks).Ok?
    ensures var winners := RunTicks(prizes, prizeIndex, availables, blacklists, ticks).value;
            winners == [] || DrawForPrize(prizes, prizeIndex, availables, blacklists, ticks[|ticks| - 1]) == Ok(winners)
  {
  }

  /** Once a tick has failed, the session's outcome is that failure. */
  lemma {:induction false} RunTicksStopsAtError(prizes: seq<Prize>, prizeIndex: int, availables: seq<Participant>,
                                               blacklists: seq<Blacklist>, ticks: seq<nat -> nat>, k: nat)
    requires k <= |ticks|
    requires RunTicks(prizes, prizeIndex, availables, blacklists, ticks[..k]).Err?
    ensures RunTicks(prizes, prizeIndex, availables, blacklists, ticks)
         == RunTicks(prizes, prizeIndex, availables, blacklists, ticks[..k])
    decreases |ticks| - k
  {
    if k < |ticks| {
      assert ticks[..k + 1][..k] == ticks[..k];
      RunTicksStopsAtError(prizes, prizeIndex, availables, blacklists, ticks, k + 1);
    } else {
      assert ticks[..k] == ticks;
    }
  }

  /** No tick fails when every draw is bound to succeed. */
  lemma {:induction false} RunTicksSucceeds(prizes: seq<Prize>, prizeIndex: int, availables: seq<Participant>,
                                            blacklists: seq<Blacklist>, ticks: seq<nat -> nat>)
    requires Drawable(prizes, prizeIndex)
    requires ForPrize(prizeIndex, availables, blacklists) != []
    requires UniqueIds(multiset(availables))
    ensures RunTicks(prizes, prizeIndex, availables, blacklists, ticks).Ok?
  {
    if ticks != [] {
      RunTicksSucceeds(prizes, prizeIndex, availables, blacklists, ticks[..|ticks| - 1]);
      DrawForPrizeSucceeds(prizes, prizeIndex, availables, blacklists, ticks[|ticks| - 1]);
    }
  }

  /** With the old winners returned, the pool and the rest of the ledger make up the
      roster, so the pool's IDs are unique. */
  lemma ReturnedPoolIsUnique(roster: seq<Participant>, pool: seq<Participant>,
                             ledger: map<int, seq<Participant>>, prizeIndex: int)
    requires Partition(roster, pool, ledger)
    ensures multiset(pool + Prior(ledger, prizeIndex)) + LedgerBag(ledger - {prizeIndex}) == multiset(roster)
    ensures UniqueIds(multiset(pool + Prior(ledger, prizeIndex)))
  {
    LedgerBagUpdate(ledger, prizeIndex, []);
    SubBagUnique(multiset(pool + Prior(ledger, prizeIndex)), multiset(roster));
  }

  /** The winners of a session that ends well come from the candidate list, are
      eligible for the prize, and there are winners only if the prize is drawable. */
  lemma SessionWinners(prizes: seq<Prize>, prizeIndex: int, availables: seq<Participant>,
                       blacklists: seq<Blacklist>, ticks: seq<nat -> nat>)
    requires RunTicks(prizes, prizeIndex, availables, blacklists, ticks).Ok?
    ensures var winners := RunTicks(prizes, prizeIndex, availables, blacklists, ticks).value;
            && multiset(winners) <= multiset(availables)
            && (winners != [] ==> Drawable(prizes, prizeIndex))
            && forall p | p in winners :: !Barred(prizeIndex, p.id, blacklists)
  {
    var winners := RunTicks(prizes, prizeIndex, availables, blacklists, ticks).value;
    RunTicksWinners(prizes, prizeIndex, availables, blacklists, ticks);
    if winners != [] {
      DrawForPrizeWinners(prizes, prizeIndex, availables, blacklists, ticks[|ticks| - 1]);
      ForPrizeIsFilter(prizeIndex, availables, blacklists);
    }
  }

  /** Committing winners taken from the returned pool keeps the partition: the prize's
      entry becomes those winners and exactly they leave the pool. */
  lemma CommitKeepsPartition(roster: seq<Participant>, pool: seq<Participant>,
                             ledger: map<int, seq<Participant>>, prizeIndex: int, winners: seq<Participant>)
    requires Partition(roster, pool, ledger)
    requires multiset(winners) <= multiset(pool + Prior(ledger, prizeIndex))
    ensures Partition(roster, Without(pool + Prior(ledger, prizeIndex), winners), ledger[prizeIndex := winners])
  {
    var returned := pool + Prior(ledger, prizeIndex);
    ReturnedPoolIsUnique(roster, pool, ledger, prizeIndex);
    LedgerBagUpdate(ledger, prizeIndex, winners);
    ExactlyWinnersRemoved(returned, winners);
    var others := LedgerBag(ledger - {prizeIndex});
    calc {
      multiset(Without(returned, winners)) + LedgerBag(ledger[prizeIndex := winners]);
      multiset(Without(returned, winners)) + multiset(winners) + others;
      multiset(returned) + others;
      multiset(roster);
    }
  }

  /** Committing the winners of a successful session keeps every non-empty ledger
      entry drawable and eligible. */
  lemma CommitKeepsDrawable(prizes: seq<Prize>, blacklists: seq<Blacklist>, availables: seq<Participant>,
                            ledger: map<int, seq<Participant>>, prizeIndex: int, ticks: seq<nat -> nat>)
    requires LedgerDrawable(prizes, blacklists, ledger)
    requires RunTicks(prizes, prizeIndex, availables, blacklists, ticks).Ok?
    ensures LedgerDrawable(prizes, blacklists,
                           ledger[prizeIndex := RunTicks(prizes, prizeIndex, availables, blacklists, ticks).value])
  {
    SessionWinners(prizes, prizeIndex, availables, blacklists, ticks);
  }

  /** A session can fail only on a prize that had no old winners: old winners are
      eligible for their prize and come back to a pool with unique IDs, so every tick
      would succeed. */
  lemma FailureOnlyWithoutPrior(prizes: seq<Prize>, blacklists: seq<Blacklist>, roster: seq<Participant>,
                                pool: seq<Participant>, ledger: map<int, seq<Participant>>,
                                prizeIndex: int, ticks: seq<nat -> nat>)
    requires Partition(roster, pool, ledger)
    requires LedgerDrawable(prizes, blacklists, ledger)
    requires Prior(ledger, prizeIndex) != []
    ensures RunTicks(prizes, prizeIndex, pool + Prior(ledger, prizeIndex), blacklists, ticks).Ok?
  {
    var returned := pool + Prior(ledger, prizeIndex);
    ReturnedPoolIsUnique(roster, pool, ledger, prizeIndex);
    var p := Prior(ledger, prizeIndex)[0];
    assert p in returned;
    ForPrizeMembers(prizeIndex, returned, blacklists, p);
    RunTicksSucceeds(prizes, prizeIndex, returned, blacklists, ticks);
  }

  /** The state the failure path of a session leaves behind when the prize had old
      winners: they were returned to the pool and are still in the ledger, so the pool
      and the ledger no longer partition the roster. `FailureOnlyWithoutPrior` shows
      that a consistent state never takes this path. */
  lemma FailureWithPriorDoubleCounts(roster: seq<Participant>, pool: seq<Participant>,
                                     ledger: map<int, seq<Participant>>, prizeIndex: int)
    requires Partition(roster, pool, ledger)
    requires Prior(ledger, prizeIndex) != []
    ensures !Partition(roster, pool + Prior(ledger, prizeIndex), ledger)
  {
    var prior := Prior(ledger, prizeIndex);
    assert multiset(pool + prior) + LedgerBag(ledger) == multiset(roster) + multiset(prior);
    assert prior[0] in multiset(prior);
    assert (multiset(roster) + multiset(prior))[prior[0]] > multiset(roster)[prior[0]];
  }

  /** One draw session keeps the pool and the ledger a partition of the roster.
      The old winners of the prize go back to the pool; on success the prize's ledger
      entry becomes the session's winners and they leave the pool; a session that fails
      commits nothing, and can only fail when the prize had no old winners, so no
      participant is left both in the pool and in the ledger. */
  lemma SessionKeepsPartition(prizes: seq<Prize>, blacklists: seq<Blacklist>, roster: seq<Participant>,
                              pool: seq<Participant>, ledger: map<int, seq<Participant>>,
                              prizeIndex: int, ticks: seq<nat -> nat>)
    requires Partition(roster, pool, ledger)
    requires LedgerDrawable(prizes, blacklists, ledger)
    ensures var returned := pool + Prior(ledger, prizeIndex);
            var r := RunTicks(prizes, prizeIndex, returned, blacklists, ticks);
            && (r.Ok? ==> && Partition(roster, Without(returned, r.value), ledger[prizeIndex := r.value])
                          && LedgerDrawable(prizes, blacklists, ledger[prizeIndex := r.value]))
            && (r.Err? ==> Prior(ledger, prizeIndex) == [] && Partition(roster, returned, ledger))
  {
    var returned := pool + Prior(ledger, prizeIndex);
    if Prior(ledger, prizeIndex) != [] {
      FailureOnlyWithoutPrior(prizes, blacklists, roster, pool, ledger, prizeIndex, ticks);
    } else {
      assert returned == pool;
    }
    var r := RunTicks(prizes, prizeIndex, returned, blacklists, ticks);
    if r.Ok? {
      SessionWinners(prizes, prizeIndex, returned, blacklists, ticks);
      CommitKeepsPartition(roster, pool, ledger, prizeIndex, r.value);
      CommitKeepsDrawable(prizes, blacklists, returned, ledger, prizeIndex, ticks);
    }
  }
}

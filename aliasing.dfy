/** The sampling loop of `_getWinners` as the Go code runs it when no blacklist is
    configured. `getAvailParticipantsForPrize` then hands back the global
    `availParticipants` slice itself, and each `append(s[0:idx], s[idx+1:]...)` shifts
    cells inside the global list's backing array. The winners are the ones a private
    copy would give, but the global pool is left with duplicated entries, which the
    commit does not repair. The rest of the model draws from a private copy. */
module Aliasing {
  import opened Model
  import opened Selection
  import opened Sampler
  import opened Ledger

  /** One in-place removal on a slice made of the first `len` cells of `backing`: the
      cells after `idx` move one to the left and the slice's old last cell keeps its value. */
  function ShiftOut(backing: seq<Participant>, len: nat, idx: nat): (r: seq<Participant>)
    requires idx < len <= |backing|
    ensures |r| == |backing|
  {
    backing[..idx] + backing[idx + 1..len] + backing[len - 1..]
  }

  /** The working slice after the removal is the private copy's list after the pick,
      and the cells past it are left as they were. */
  lemma ShiftOutSlices(backing: seq<Participant>, len: nat, idx: nat)
    requires idx < len <= |backing|
    ensures ShiftOut(backing, len, idx)[..len - 1] == RemoveAt(backing[..len], idx)
    ensures ShiftOut(backing, len, idx)[len - 1..] == backing[len - 1..]
  {
  }

  /** The `n` picks of the loop on the shared backing array, starting at pick number `k`
      with a working slice of length `len`: the winners, and the backing array after. */
  function AliasedDraw(backing: seq<Participant>, len: nat, n: nat, rng: nat -> nat, k: nat)
    : (r: (seq<Participant>, seq<Participant>))
    requires n <= len <= |backing|
    ensures |r.1| == |backing|
    decreases n
  {
    if n == 0 then ([], backing)
    else
      var idx := rng(k) % len;
      var rest := AliasedDraw(ShiftOut(backing, len, idx), len - 1, n - 1, rng, k + 1);
      ([backing[idx]] + rest.0, rest.1)
  }

  /** The first pick on the shared array, spelled out. */
  lemma AliasedDrawUnfold(backing: seq<Participant>, len: nat, n: nat, rng: nat -> nat, k: nat)
    requires 0 < n <= len <= |backing|
    ensures var idx := rng(k) % len;
            AliasedDraw(backing, len, n, rng, k).0
            == [backing[idx]] + AliasedDraw(ShiftOut(backing, len, idx), len - 1, n - 1, rng, k + 1).0
  {
  }

  /** The first pick from a private copy, spelled out. */
  lemma DrawUnfold(pool: seq<Participant>, n: nat, rng: nat -> nat, k: nat)
    requires 0 < n <= |pool|
    ensures var idx := rng(k) % |pool|;
            Draw(pool, n, rng, k).0 == [pool[idx]] + Draw(RemoveAt(pool, idx), n - 1, rng, k + 1).0
  {
  }

  /** Sharing the array does not change who wins: the winners are those of a draw from
      a private copy of the working slice. */
  lemma {:induction false} AliasedDrawWinners(backing: seq<Participant>, len: nat, n: nat, rng: nat -> nat, k: nat,
                                              copy: seq<Participant>)
    requires n <= len <= |backing|
    requires copy == backing[..len]
    ensures AliasedDraw(backing, len, n, rng, k).0 == Draw(copy, n, rng, k).0
    decreases n
  {
    if n > 0 {
      var idx := rng(k) % len;
      var shifted := ShiftOut(backing, len, idx);
      var tail := RemoveAt(copy, idx);
      ShiftOutSlices(backing, len, idx);
      AliasedDrawWinners(shifted, len - 1, n - 1, rng, k + 1, tail);
      AliasedDrawUnfold(backing, len, n, rng, k);
      DrawUnfold(copy, n, rng, k);
    }
  }

  /** The random source whose every pick is index 0. */
  function FirstIndex(k: nat): nat
  {
    0
  }

  /** Roster A, B, all available, no blacklist, one prize with Num 1 and a session of
      one tick that picks index 0: the tick wins A, as a private copy would, but leaves
      the global pool as [B, B]. */
  lemma AliasedTickDuplicates(a: Participant, b: Participant)
    ensures AliasedDraw([a, b], 2, 1, FirstIndex, 0) == ([a], [b, b])
  {
    assert ShiftOut([a, b], 2, 0) == [b, b];
    assert AliasedDraw([b, b], 1, 0, FirstIndex, 1) == ([], [b, b]);
    var tick := AliasedDraw([a, b], 2, 1, FirstIndex, 0);
    assert tick.0 == [a] + AliasedDraw([b, b], 1, 0, FirstIndex, 1).0;
    assert [a] + [] == [a];
  }

  /** The commit removes only the winner's ID: both copies of B stay in the pool. */
  lemma CommitKeepsDuplicates(a: Participant, b: Participant)
    requires a.id != b.id
    ensures Without([b, b], [a]) == [b, b]
  {
    assert Without([b], [a]) == [b];
    assert Without([b, b], [a]) == Without([b], [a]) + [b];
  }

  /** A pool that holds some participant twice is never part of a partition: the
      roster holds each participant once. */
  lemma DuplicateBreaksPartition(roster: seq<Participant>, pool: seq<Participant>,
                                 ledger: map<int, seq<Participant>>, p: Participant)
    requires multiset(pool)[p] >= 2
    ensures !Partition(roster, pool, ledger)
  {
    assert (multiset(pool) + LedgerBag(ledger))[p] >= 2;
  }

  /** The commit after a tick that won A and left the pool [B, B]: B stays twice in the
      pool beside A in the ledger. */
  lemma CommitAfterTickBreaks(a: Participant, b: Participant, tick: (seq<Participant>, seq<Participant>))
    requires a.id != b.id
    requires tick == ([a], [b, b])
    ensures !Partition([a, b], Without(tick.1, tick.0), map[0 := tick.0])
  {
    CommitKeepsDuplicates(a, b);
    assert multiset([b, b])[b] == 2;
    DuplicateBreaksPartition([a, b], [b, b], map[0 := [a]], b);
  }

  /** Before the session: the roster [A, B] all available and an empty ledger. */
  lemma PairPartition(a: Participant, b: Participant)
    requires a.id != b.id
    ensures Partition([a, b], [a, b], map[])
  {
    FullPoolPartition([a, b]);
  }

  /** The session of `AliasedTickDuplicates`, continued, for any two participants with
      different IDs: before it the pool [A, B] and an empty ledger partition the roster;
      its commit records the tick's winners and removes them from the pool the tick left
      behind, so B is counted twice and the partition is lost. */
  lemma AliasedCommitBreaksPartition(a: Participant, b: Participant)
    requires a.id != b.id
    ensures Partition([a, b], [a, b], map[])
    ensures var tick := AliasedDraw([a, b], 2, 1, FirstIndex, 0);
            !Partition([a, b], Without(tick.1, tick.0), map[0 := tick.0])
  {
    PairPartition(a, b);
    AliasedTickDuplicates(a, b);
    CommitAfterTickBreaks(a, b, AliasedDraw([a, b], 2, 1, FirstIndex, 0));
  }
}

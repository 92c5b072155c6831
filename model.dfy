/** Entities of the lottery server's draw logic: participants, prizes, blacklist
    rules, the errors a draw can report, and ID-distinctness. */
module Model {

  /** One row of the participants roster: an ID that identifies the person and a display name. */
  datatype Participant = Participant(id: string, name: string)

  /** A prize tier: its position in the configured list is its prize index. */
  datatype Prize = Prize(name: string, num: int)

  /** Participants listed in `ids` may not win any prize whose index is greater than `maxPrizeIndex`. */
  datatype Blacklist = Blacklist(maxPrizeIndex: int, ids: seq<string>)

  /** The errors returned by `_getWinners` and `round`. */
  datatype DrawError =
    | NoPrizes                      // the configuration lists no prize
    | PrizeIndexError               // prize index outside [0, number of prizes)
    | NoPrizesForIndex(index: int)  // the prize's Num is not positive
    | NoParticipants                // the candidate list is empty
    | NoParticipantsForIndex(index: int) // nobody is left once the blacklists are applied
    | InvalidWinners                // the drawn winners share an ID
    | IncorrectPrizeNumber          // `round` was asked for a non-positive count

  datatype Result<T> = Ok(value: T) | Err(error: DrawError)

  function Min(a: int, b: int): int
  {
    if a < b then a else b
  }

  /** Some participant in `ps` carries `id`. */
  predicate HasId(ps: seq<Participant>, id: string)
  {
    exists p | p in ps :: p.id == id
  }

  /** No two positions of `ps` carry the same ID. */
  predicate IdsDistinct(ps: seq<Participant>)
  {
    forall a, b | 0 <= a < b < |ps| :: ps[a].id != ps[b].id
  }

  /** Every participant in the bag occurs once, and no two of them share an ID. */
  ghost predicate UniqueIds(bag: multiset<Participant>)
  {
    && (forall p | p in bag :: bag[p] == 1)
    && (forall p, q | p in bag && q in bag && p.id == q.id :: p == q)
  }

  lemma SubBagUnique(small: multiset<Participant>, big: multiset<Participant>)
    requires small <= big && UniqueIds(big)
    ensures UniqueIds(small)
  {
    forall p | p in small ensures small[p] == 1 {
      assert p in big;
    }
  }

  lemma {:induction false} DistinctIsUnique(ps: seq<Participant>)
    requires IdsDistinct(ps)
    ensures UniqueIds(multiset(ps))
  {
    if ps != [] {
      var init, last := ps[..|ps| - 1], ps[|ps| - 1];
      assert ps == init + [last];
      assert IdsDistinct(init) by {
        forall a, b | 0 <= a < b < |init| ensures init[a].id != init[b].id {
          assert init[a] == ps[a] && init[b] == ps[b];
        }
      }
      DistinctIsUnique(init);
      forall j | 0 <= j < |init| ensures init[j].id != last.id {
        assert init[j] == ps[j];
      }
      assert last !in init;
    }
  }

  lemma {:induction false} UniqueIsDistinct(ps: seq<Participant>)
    requires UniqueIds(multiset(ps))
    ensures IdsDistinct(ps)
  {
    forall a, b | 0 <= a < b < |ps| ensures ps[a].id != ps[b].id {
      assert ps == ps[..b] + [ps[b]] + ps[b + 1..];
      assert ps[a] in multiset(ps[..b]);
      assert multiset(ps)[ps[b]] >= 1 + multiset(ps[..b])[ps[b]];
    }
  }

  /** A sequence has pairwise-distinct IDs exactly when its bag of entries has unique IDs. */
  lemma DistinctIffUnique(ps: seq<Participant>)
    ensures IdsDistinct(ps) <==> UniqueIds(multiset(ps))
  {
    if IdsDistinct(ps) {
      DistinctIsUnique(ps);
    }
    if UniqueIds(multiset(ps)) {
      UniqueIsDistinct(ps);
    }
  }
}

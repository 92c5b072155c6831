/** The server's global draw state and the operations that change it in place:
    the dispatcher's rules for `start`, `stop` and `get_winners` (`processAction`,
    `getWinners`) and the draw session run for a `start` (the goroutine `start`). */
module Session {
  import opened Model
  import opened Selection
  import opened Sampler
  import opened Ledger

  /** A decoded operator command. */
  datatype Action = Action(name: string, prizeIndex: int)

  /** What the dispatcher answers at once. A started draw answers later, from its session. */
  datatype Response =
    | PrizesResponse(prizes: seq<Prize>)
    | WinnersResponse(winners: seq<Participant>)
    | DrawSpawned(prizeIndex: int)
    | NoResponse

  /** The global state of lottery.go. `cancelMap` holds the prize indexes whose draw
      has been started and not yet stopped (the Go map's values are the cancel functions
      of the contexts in `ctxMap`); `ctxMap` maps a prize index to its latest draw
      context, `true` once that context has been cancelled. */
  class Lottery {
    const prizes: seq<Prize>
    const blacklists: seq<Blacklist>
    const participants: seq<Participant>
    var availParticipants: seq<Participant>
    var winnerMap: map<int, seq<Participant>>
    var cancelMap: set<int>
    var ctxMap: map<int, bool>

    /** Every running draw has a context, and that context is not cancelled yet. */
    ghost predicate Valid()
      reads this
    {
      forall i | i in cancelMap :: i in ctxMap && !ctxMap[i]
    }

    /** The pool and the ledger partition the roster, and every committed entry was
        drawn for a drawable prize from eligible participants. */
    ghost predicate Consistent()
      reads this
    {
      Partition(participants, availParticipants, winnerMap) && LedgerDrawable(prizes, blacklists, winnerMap)
    }

    /** The state once the roster and configuration are loaded: everyone is available. */
    constructor (prizes: seq<Prize>, blacklists: seq<Blacklist>, participants: seq<Participant>)
      ensures this.prizes == prizes && this.blacklists == blacklists && this.participants == participants
      ensures availParticipants == participants && winnerMap == map[]
      ensures cancelMap == {} && ctxMap == map[]
      ensures Valid()
      ensures IdsDistinct(participants) ==> Consistent()
    {
      this.prizes := prizes;
      this.blacklists := blacklists;
      this.participants := participants;
      availParticipants := participants;
      winnerMap := map[];
      cancelMap := {};
      ctxMap := map[];
      new;
      if IdsDistinct(participants) {
        FullPoolPartition(participants);
      }
    }

    /** `getWinners`: the committed winners of the prize index, none if there is no entry. */
    method GetWinners(prizeIndex: int) returns (winners: seq<Participant>)
      ensures prizeIndex in winnerMap ==> winners == winnerMap[prizeIndex]
      ensures prizeIndex !in winnerMap ==> winners == []
    {
      winners := [];
      if prizeIndex in winnerMap {
        winners := winnerMap[prizeIndex];
      }
    }

    /** The `start` case of `processAction`: ignored while a draw for the same prize index
        is registered; otherwise registers a fresh context and spawns the session. */
    method StartAction(prizeIndex: int) returns (spawned: bool)
      requires Valid()
      modifies this
      ensures Valid()
      ensures spawned <==> prizeIndex !in old(cancelMap)
      ensures cancelMap == old(cancelMap) + {prizeIndex}
      ensures ctxMap == if spawned then old(ctxMap)[prizeIndex := false] else old(ctxMap)
      ensures availParticipants == old(availParticipants) && winnerMap == old(winnerMap)
    {
      if prizeIndex in cancelMap {
        return false;
      }
      cancelMap := cancelMap + {prizeIndex};
      ctxMap := ctxMap[prizeIndex := false];
      spawned := true;
    }

    /** The `stop` case of `processAction`: ignored when no draw is registered for the
        prize index; otherwise cancels its context and unregisters it. The context stays
        in `ctxMap`. Stopping does not wait for the session to commit. */
    method StopAction(prizeIndex: int) returns (stopped: bool)
      requires Valid()
      modifies this
      ensures Valid()
      ensures stopped <==> prizeIndex in old(cancelMap)
      ensures cancelMap == old(cancelMap) - {prizeIndex}
      ensures ctxMap == if stopped then old(ctxMap)[prizeIndex := true] else old(ctxMap)
      ensures ctxMap.Keys == old(ctxMap).Keys
      ensures availParticipants == old(availParticipants) && winnerMap == old(winnerMap)
    {
      if prizeIndex !in cancelMap {
        return false;
      }
      stopped := true;
      if prizeIndex in ctxMap {
        ctxMap := ctxMap[prizeIndex := true];
        cancelMap := cancelMap - {prizeIndex};
      }
    }

    /** `processAction` after decoding: answers the two queries, applies the `start` and
        `stop` rules, and ignores any other name. */
    method ProcessAction(action: Action) returns (response: Response)
      requires Valid()
      modifies this
      ensures Valid()
      ensures availParticipants == old(availParticipants) && winnerMap == old(winnerMap)
      ensures action.name == "get_prizes" ==> response == PrizesResponse(prizes)
      ensures action.name == "get_winners" ==> response == WinnersResponse(Prior(winnerMap, action.prizeIndex))
      ensures action.name == "start" ==>
                && cancelMap == old(cancelMap) + {action.prizeIndex}
                && (response == DrawSpawned(action.prizeIndex) <==> action.prizeIndex !in old(cancelMap))
      ensures action.name == "start" ==>
                ctxMap == if action.prizeIndex in old(cancelMap) then old(ctxMap) else old(ctxMap)[action.prizeIndex := false]
      ensures action.name == "stop" ==>
                && cancelMap == old(cancelMap) - {action.prizeIndex}
                && ctxMap == (if action.prizeIndex in old(cancelMap) then old(ctxMap)[action.prizeIndex := true] else old(ctxMap))
                && ctxMap.Keys == old(ctxMap).Keys
                && response == NoResponse
      ensures action.name !in {"start", "stop"} ==> cancelMap == old(cancelMap) && ctxMap == old(ctxMap)
    {
      response := NoResponse;
      match action.name
      case "get_prizes" =>
        response := PrizesResponse(prizes);
      case "get_winners" =>
        var winners := GetWinners(action.prizeIndex);
        response := WinnersResponse(winners);
      case "start" =>
        var spawned := StartAction(action.prizeIndex);
        if spawned {
          response := DrawSpawned(action.prizeIndex);
        }
      case "stop" =>
        var _ := StopAction(action.prizeIndex);
      case _ =>
    }

    /** The first step of `start`: the prize's old winners, if it has a ledger entry,
        are appended to the pool. The ledger keeps the entry. */
    method ReturnOldWinners(prizeIndex: int)
      modifies this
      ensures availParticipants == old(availParticipants) + Prior(winnerMap, prizeIndex)
      ensures winnerMap == old(winnerMap) && cancelMap == old(cancelMap) && ctxMap == old(ctxMap)
    {
      if prizeIndex in winnerMap {
        availParticipants := availParticipants + winnerMap[prizeIndex];
      }
    }

    /** The commit of `start` once its context is cancelled: the prize's ledger entry
        becomes `winners`, and the participants carrying their IDs leave the pool. */
    method Commit(prizeIndex: int, winners: seq<Participant>)
      modifies this
      ensures winnerMap == old(winnerMap)[prizeIndex := winners]
      ensures availParticipants == Without(old(availParticipants), winners)
      ensures cancelMap == old(cancelMap) && ctxMap == old(ctxMap)
    {
      winnerMap := winnerMap[prizeIndex := winners];
      availParticipants := RemoveWinners(availParticipants, winners);
    }

    /** The draw session of `start`: the prize's old winners go back to the pool; then
        the ticks the session ran before it saw the cancellation, each drawing the prize's
        winners afresh from the pool; then the commit of the last tick's winners (none if
        cancelled before the first tick) to the ledger, and their removal from the pool.
        A failing tick ends the session with its error and commits nothing. */
    method Start(prizeIndex: int, ticks: seq<nat -> nat>) returns (r: Result<seq<Participant>>)
      modifies this
      ensures cancelMap == old(cancelMap) && ctxMap == old(ctxMap)
      ensures r == RunTicks(prizes, prizeIndex, old(availParticipants) + Prior(old(winnerMap), prizeIndex), blacklists, ticks)
      ensures r.Ok? ==> && winnerMap == old(winnerMap)[prizeIndex := r.value]
                        && availParticipants == Without(old(availParticipants) + Prior(old(winnerMap), prizeIndex), r.value)
      ensures r.Err? ==> && winnerMap == old(winnerMap)
                         && availParticipants == old(availParticipants) + Prior(old(winnerMap), prizeIndex)
      ensures old(Consistent()) ==> Consistent()
    {
      ghost var wasConsistent := Consistent();
      ghost var pool, ledger := availParticipants, winnerMap;
      ReturnOldWinners(prizeIndex);
      r := RunTickLoop(prizes, prizeIndex, availParticipants, blacklists, ticks);
      if r.Ok? {
        Commit(prizeIndex, r.value);
      }
      if wasConsistent {
        SessionKeepsPartition(prizes, blacklists, participants, pool, ledger, prizeIndex, ticks);
      }
    }
  }

  /** The tick loop of a draw session: every tick draws the prize's winners afresh from
      `availables` and replaces the previous tick's; a failing tick ends the loop. */
  method RunTickLoop(prizes: seq<Prize>, prizeIndex: int, availables: seq<Participant>,
                     blacklists: seq<Blacklist>, ticks: seq<nat -> nat>) returns (r: Result<seq<Participant>>)
    ensures r == RunTicks(prizes, prizeIndex, availables, blacklists, ticks)
  {
    var winners: seq<Participant> := [];
    for k := 0 to |ticks|
      invariant RunTicks(prizes, prizeIndex, availables, blacklists, ticks[..k]) == Ok(winners)
    {
      var tick := GetWinnersForPrize(prizes, prizeIndex, availables, blacklists, ticks[k]);
      assert ticks[..k + 1][..k] == ticks[..k];
      if tick.Err? {
        RunTicksStopsAtError(prizes, prizeIndex, availables, blacklists, ticks, k + 1);
        return tick;
      }
      winners := tick.value;
    }
    assert ticks[..|ticks|] == ticks;
    r := Ok(winners);
  }
}

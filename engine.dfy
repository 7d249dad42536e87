/** The live-session engine of App.tsx as one object: the React state (App.tsx:154-187) as
    fields, and each handler as a method that replaces the state it sets. Fresh ids, the
    clock and the persisted roster are inputs; notifications are reported as results. */
module Engine {
  import opened Wrappers
  import opened Domain
  import opened Records
  import opened Counters
  import Courts
  import opened Board
  import Matches
  import opened Roster
  import opened RosterInvariant
  import Billing

  datatype ImportMode = Replace | Merge

  /** `createInitialCourtGameTypes`: every court starts as doubles. */
  method InitialCourtGameTypes() returns (types: map<CourtIndex, GameType>)
    ensures forall c: CourtIndex :: c in types && types[c] == Doubles
  {
    types := map[];
    var i := 0;
    while i < NUM_COURTS
      invariant 0 <= i <= NUM_COURTS
      invariant forall c: CourtIndex :: c < i ==> c in types && types[c] == Doubles
    {
      types := types[i := Doubles];
      i := i + 1;
    }
  }

  /** The archived record of a session: the player details, the summary totals without the
      paid total, the decided matches, and the placeholder game type. */
  function Archive(id: string, date: string, players: seq<Player>, drinks: seq<CatalogItem>, foods: seq<CatalogItem>,
                   wins: Record, losses: Record, fees: Record, matches: seq<Match>): (s: Session)
    ensures s.players == Billing.PlayerDetailsOf(players, drinks, foods, wins, losses, fees)
    ensures s.matches == matches && s.gameType == DoublesSession
    ensures s.summary.grandTotal == s.summary.totalCourtFee + s.summary.totalDrinksCost + s.summary.totalFoodCost +
                                    s.summary.totalShuttlecockCost + Billing.AdjustmentSum(players)
    ensures s.summary.totalCourtFee == Billing.CourtFeeSum(players)
    ensures s.id == id && s.date == date
    ensures s.summary.totalDrinksCost == Billing.Sum(s.players, Billing.DrinksCol)
    ensures s.summary.totalFoodCost == Billing.Sum(s.players, Billing.FoodCol)
    ensures s.summary.totalShuttlecockCost == Billing.Sum(s.players, Billing.ShuttlecockCol)
    ensures s.summary.grandTotal == Billing.Sum(s.players, Billing.TotalCol)
  {
    var live := Billing.LiveSummaryOf(players, drinks, foods, wins, losses, fees);
    Billing.GrandTotalSplits(players, drinks, foods, wins, losses, fees);
    Billing.TotalCourtFeeIsSum(players);
    Session(id, date, Billing.PlayerDetailsOf(players, drinks, foods, wins, losses, fees), DoublesSession,
            SessionSummary(live.totalCourtFee, live.totalDrinksCost, live.totalFoodCost,
                           live.totalShuttlecockCost, live.grandTotal),
            matches)
  }

  /** Auto-filling the waiting queue of a roster with unique ids keeps the board exclusive. */
  lemma AutoFillExclusive(players: seq<Player>, m: Assignments, types: map<CourtIndex, GameType>)
    requires UniqueIds(players) && Exclusive(m)
    ensures Exclusive(Fill(m, OrderFrom(types, 0), Ids(Unassigned(players, m))))
  {
    UnassignedQueue(players, m);
    FillExclusive(m, OrderFrom(types, 0), Ids(Unassigned(players, m)));
  }

  class SessionEngine {
    var players: seq<Player>
    var assignments: Assignments
    var playerWins: Record
    var playerLosses: Record
    var playerShuttlecockFees: Record
    var currentMatches: seq<Match>
    var matchesPlayed: int
    var activeMatch: Option<ActiveMatch>
    var courtGameTypes: map<CourtIndex, GameType>
    var sessions: seq<Session>
    var drinks: seq<CatalogItem>
    var foods: seq<CatalogItem>
    /** The persisted roster (`localStorage[players]`); None while nothing is stored. */
    var stored: Option<seq<Identity>>

    /** The engine invariant: the roster invariant, slot exclusivity, a well-formed pending
        match, one decided match per counted match, and a persisted roster with unique ids. */
    predicate Valid()
      reads this`players, this`assignments, this`activeMatch, this`matchesPlayed, this`currentMatches, this`stored
    {
      RosterOk(players) && Exclusive(assignments) &&
      (activeMatch.Some? ==> Matches.WellFormed(activeMatch.value)) &&
      matchesPlayed == |currentMatches| &&
      (stored.Some? ==> UniqueIds(Reloaded(stored.value)))
    }

    /** The live totals shown while the session runs. */
    function CurrentSummary(): LiveSummary
      reads this
    {
      Billing.LiveSummaryOf(players, drinks, foods, playerWins, playerLosses, playerShuttlecockFees)
    }

    /** The state after the loading effect: the initial roster from storage, the stored
        history and catalogs (default drinks and foods when none are stored), an empty board. */
    constructor (stored: Option<seq<Identity>>, id1: PlayerId, id2: PlayerId, history: seq<Session>,
                 storedDrinks: Option<seq<CatalogItem>>, storedFoods: Option<seq<CatalogItem>>)
      requires stored.Some? ==> UniqueIds(Reloaded(stored.value))
      requires id1 != id2 && id1 != GUEST_PLAYER_ID && id2 != GUEST_PLAYER_ID
      ensures Valid()
      ensures players == InitialPlayers(stored, id1, id2) && this.stored == stored
      ensures assignments == map[] && playerWins == [] && playerLosses == [] && playerShuttlecockFees == []
      ensures currentMatches == [] && matchesPlayed == 0 && activeMatch == None
      ensures forall c: CourtIndex :: c in courtGameTypes && courtGameTypes[c] == Doubles
      ensures sessions == history
      ensures drinks == storedDrinks.GetOr(DEFAULT_DRINKS) && foods == storedFoods.GetOr(DEFAULT_FOODS)
    {
      var types := InitialCourtGameTypes();
      players := InitialPlayers(stored, id1, id2);
      assignments := map[];
      playerWins, playerLosses, playerShuttlecockFees := [], [], [];
      currentMatches, matchesPlayed, activeMatch := [], 0, None;
      courtGameTypes := types;
      sessions := history;
      drinks, foods := storedDrinks.GetOr(DEFAULT_DRINKS), storedFoods.GetOr(DEFAULT_FOODS);
      this.stored := stored;
      InitialPlayersOk(stored, id1, id2);
    }

    /** `handleAssignPlayer`. */
    method AssignPlayer(playerId: PlayerId, slot: Slot)
      requires Valid()
      modifies this`assignments
      ensures Valid()
      ensures assignments == Assign(old(assignments), playerId, slot)
      ensures forall s :: s in assignments && assignments[s] == Some(playerId) <==> s == slot
    {
      AssignPlacesOnce(assignments, playerId, slot);
      assignments := Assign(assignments, playerId, slot);
    }

    /** `handleUnassign`: the slot becomes null, every other slot is unchanged. */
    method Unassign(slot: Slot)
      requires Valid()
      modifies this`assignments
      ensures Valid()
      ensures assignments == old(assignments)[slot := None]
    {
      assignments := assignments[slot := None];
    }

    /** `handleAutoAssign`: false (a notice, nothing changes) when nobody is waiting; otherwise
        the waiting players, in roster order, fill the open slots in visit order. */
    method AutoAssign() returns (filled: bool)
      requires Valid()
      modifies this`assignments
      ensures Valid()
      ensures filled <==> Unassigned(players, old(assignments)) != []
      ensures assignments == Fill(old(assignments), OrderFrom(courtGameTypes, 0), Ids(Unassigned(players, old(assignments))))
    {
      var queue := Ids(Unassigned(players, assignments));
      if queue == [] {
        FillDone(assignments, courtGameTypes, 0, []);
        return false;
      }
      AutoFillExclusive(players, assignments, courtGameTypes);
      assignments := AutoFill(assignments, courtGameTypes, queue);
      filled := true;
    }

    /** `handleSetCourtGameType`: the court's type is stored; switching to singles vacates
        the court's A-1 and B-1 seats. */
    method SetCourtGameType(c: CourtIndex, gt: GameType)
      requires Valid()
      modifies this`courtGameTypes, this`assignments
      ensures Valid()
      ensures courtGameTypes == old(courtGameTypes)[c := gt]
      ensures assignments == if gt == Singles then DowngradeToSingles(old(assignments), c) else old(assignments)
    {
      courtGameTypes := courtGameTypes[c := gt];
      if gt == Singles {
        assignments := DowngradeToSingles(assignments, c);
      }
    }

    /** `handleAddPlayer` with a fresh id; a blank name changes nothing. */
    method AddPlayer(id: PlayerId, name: string)
      requires Valid() && !HasId(players, id)
      modifies this`players, this`stored
      ensures Valid()
      ensures players == Roster.AddPlayer(old(players), id, name)
      ensures stored == if players == old(players) then old(stored) else Some(Storable(players))
    {
      AddPlayerOk(players, id, name);
      var updated := Roster.AddPlayer(players, id, name);
      if updated != players {
        StoreRoster(updated);
      }
    }

    /** The new roster is set and persisted (`localStorage` holds its identities). */
    method StoreRoster(updated: seq<Player>)
      requires Valid() && RosterOk(updated)
      modifies this`players, this`stored
      ensures Valid()
      ensures players == updated && stored == Some(Storable(updated))
    {
      StoredUnique(updated);
      players := updated;
      stored := Some(Storable(updated));
    }

    /** `handleRemovePlayer`: the player leaves the roster and the persisted list, their
        wins, losses and fees are deleted, and every slot that held them becomes null. */
    method RemovePlayer(id: PlayerId)
      requires Valid() && id != GUEST_PLAYER_ID
      modifies this`players, this`stored, this`playerWins, this`playerLosses, this`playerShuttlecockFees, this`assignments
      ensures Valid()
      ensures players == Roster.RemovePlayer(old(players), id) && stored == Some(Storable(players))
      ensures playerWins == Delete(old(playerWins), id) && playerLosses == Delete(old(playerLosses), id)
      ensures playerShuttlecockFees == Delete(old(playerShuttlecockFees), id)
      ensures assignments == ClearPlayer(old(assignments), id)
    {
      RemovePlayerOk(players, id);
      StoreRoster(Roster.RemovePlayer(players, id));
      playerLosses := Delete(playerLosses, id);
      playerWins := Delete(playerWins, id);
      playerShuttlecockFees := Delete(playerShuttlecockFees, id);
      assignments := NullOut(assignments, id);
    }

    /** `handleUpdatePlayerInfo`. */
    method UpdatePlayerInfo(id: PlayerId, name: string, phone: string)
      requires Valid()
      modifies this`players, this`stored
      ensures Valid()
      ensures players == UpdateInfo(old(players), id, name, phone) && stored == Some(Storable(players))
    {
      UpdateInfoOk(players, id, name, phone);
      StoreRoster(UpdateInfo(players, id, name, phone));
    }

    /** `handleImportPlayers` with one fresh id per row. Returns how many players were added;
        a merge with no new name adds none and changes nothing. */
    method ImportPlayers(rows: seq<ImportRow>, mode: ImportMode, ids: seq<PlayerId>) returns (added: nat)
      requires Valid() && |ids| == |rows| && FreshIds(players, ids)
      modifies this`players, this`stored, this`assignments, this`playerWins, this`playerLosses, this`playerShuttlecockFees
      ensures Valid()
      ensures mode == Replace ==>
        players == ImportReplace(old(players), rows, ids) && stored == Some(Storable(players)) &&
        assignments == map[] && playerWins == [] && playerLosses == [] && playerShuttlecockFees == [] &&
        added == |rows|
      ensures mode == Merge ==>
        assignments == old(assignments) && playerWins == old(playerWins) && playerLosses == old(playerLosses) &&
        playerShuttlecockFees == old(playerShuttlecockFees) && added == |MergeRows(old(players), rows)| &&
        match ImportMerge(old(players), rows, ids)
        case None => players == old(players) && stored == old(stored)
        case Some(ps) => players == ps && stored == Some(Storable(players))
    {
      if mode == Replace {
        ReplaceRoster(rows, ids);
        added := |rows|;
      } else {
        added := MergeRoster(rows, ids);
      }
    }

    /** The replace mode: the file's rows become the roster after the guest entry, and the
        board and the tallies start over. */
    method ReplaceRoster(rows: seq<ImportRow>, ids: seq<PlayerId>)
      requires Valid() && |ids| == |rows| && FreshIds(players, ids)
      modifies this`players, this`stored, this`assignments, this`playerWins, this`playerLosses, this`playerShuttlecockFees
      ensures Valid()
      ensures players == ImportReplace(old(players), rows, ids) && stored == Some(Storable(players))
      ensures assignments == map[] && playerWins == [] && playerLosses == [] && playerShuttlecockFees == []
    {
      ImportReplaceOk(players, rows, ids);
      var ps := ImportReplace(players, rows, ids);
      StoredUnique(ps);
      players := ps;
      assignments := map[];
      playerLosses, playerWins, playerShuttlecockFees := [], [], [];
      stored := Some(Storable(ps));
    }

    /** The merge mode: rows whose name is new join the roster; returns how many did. */
    method MergeRoster(rows: seq<ImportRow>, ids: seq<PlayerId>) returns (added: nat)
      requires Valid() && |ids| == |rows| && FreshIds(players, ids)
      modifies this`players, this`stored
      ensures Valid()
      ensures added == |MergeRows(old(players), rows)|
      ensures match ImportMerge(old(players), rows, ids)
        case None => players == old(players) && stored == old(stored)
        case Some(ps) => players == ps && stored == Some(Storable(players))
    {
      ImportMergeOk(players, rows, ids);
      var merged := ImportMerge(players, rows, ids);
      added := |MergeRows(players, rows)|;
      if merged.Some? {
        StoreRoster(merged.value);
      }
    }

    /** `handleUpdateDrink`. */
    method UpdateDrink(id: PlayerId, drinkId: string, amount: int)
      requires Valid()
      modifies this`players
      ensures Valid()
      ensures players == Roster.UpdateDrink(old(players), id, drinkId, amount)
    {
      UpdateDrinkOk(players, id, drinkId, amount);
      players := Roster.UpdateDrink(players, id, drinkId, amount);
    }

    /** `handleUpdateFood`. */
    method UpdateFood(id: PlayerId, foodId: string, amount: int)
      requires Valid()
      modifies this`players
      ensures Valid()
      ensures players == Roster.UpdateFood(old(players), id, foodId, amount)
    {
      UpdateFoodOk(players, id, foodId, amount);
      players := Roster.UpdateFood(players, id, foodId, amount);
    }

    /** `handleUpdateQuantity`. */
    method UpdateQuantity(id: PlayerId, amount: int)
      requires Valid()
      modifies this`players
      ensures Valid()
      ensures players == Roster.UpdateQuantity(old(players), id, amount)
    {
      UpdateQuantityOk(players, id, amount);
      players := Roster.UpdateQuantity(players, id, amount);
    }

    /** `handleUpdatePlayerAdjustment`. */
    method UpdateAdjustment(id: PlayerId, amount: int, reason: string)
      requires Valid()
      modifies this`players
      ensures Valid()
      ensures players == SetAdjustment(old(players), id, amount, reason)
    {
      SetAdjustmentOk(players, id, amount, reason);
      players := SetAdjustment(players, id, amount, reason);
    }

    /** `handleTogglePaid`. */
    method TogglePaid(id: PlayerId)
      requires Valid()
      modifies this`players
      ensures Valid()
      ensures players == Roster.TogglePaid(old(players), id)
    {
      TogglePaidOk(players, id);
      players := Roster.TogglePaid(players, id);
    }

    /** `handleMarkAllPaid`: afterwards everything billed counts as paid. */
    method MarkAllPaid()
      requires Valid()
      modifies this`players
      ensures Valid()
      ensures players == Roster.MarkAllPaid(old(players))
      ensures CurrentSummary().totalPaid == CurrentSummary().grandTotal
    {
      MarkAllPaidOk(players);
      players := Roster.MarkAllPaid(players);
      Billing.MarkAllPaidSettles(old(players), drinks, foods, playerWins, playerLosses, playerShuttlecockFees);
    }

    /** `handleUpdateDrinks` / `handleUpdateFoods`: the edited catalog replaces the current one. */
    method SetDrinks(items: seq<CatalogItem>)
      requires Valid()
      modifies this`drinks
      ensures Valid() && drinks == items
    {
      drinks := items;
    }

    method SetFoods(items: seq<CatalogItem>)
      requires Valid()
      modifies this`foods
      ensures Valid() && foods == items
    {
      foods := items;
    }

    /** `handleEndMatch`: false (a notice, nothing changes) unless both teams have a player;
        otherwise the pending match snapshots both teams in seat order. */
    method EndMatch(c: CourtIndex) returns (ended: bool)
      requires Valid()
      modifies this`activeMatch
      ensures Valid()
      ensures ended <==> Courts.IsMatchEndableFixed(assignments, c, Courts.GameTypeOf(courtGameTypes, c))
      ensures activeMatch == if ended then Matches.EndMatch(players, assignments, courtGameTypes, c) else old(activeMatch)
    {
      var r := Matches.EndMatch(players, assignments, courtGameTypes, c);
      Matches.EndMatchWellFormed(players, assignments, courtGameTypes, c);
      ended := r.Some?;
      if ended {
        activeMatch := r;
      }
    }

    /** `handleConfirmMatchResult`. Without a pending match nothing happens. Otherwise the
        court's seats are vacated and the pending match is cleared; a draw records nothing
        else, a win adds a win per winner, a loss and a fee share per loser, the decided
        match, and one to the match count. */
    method ConfirmResult(outcome: Outcome)
      requires Valid()
      modifies this`assignments, this`activeMatch, this`playerWins, this`playerLosses,
               this`playerShuttlecockFees, this`currentMatches, this`matchesPlayed
      ensures Valid()
      ensures old(activeMatch).None? ==>
        assignments == old(assignments) && activeMatch == old(activeMatch) && playerWins == old(playerWins) &&
        playerLosses == old(playerLosses) && playerShuttlecockFees == old(playerShuttlecockFees) &&
        currentMatches == old(currentMatches) && matchesPlayed == old(matchesPlayed)
      ensures old(activeMatch).Some? ==>
        var am := old(activeMatch).value;
        activeMatch == None &&
        assignments == VacateAll(old(assignments), CourtSlots(am.courtIndex, am.gameType)) &&
        match outcome
        case Draw =>
          playerWins == old(playerWins) && playerLosses == old(playerLosses) &&
          playerShuttlecockFees == old(playerShuttlecockFees) &&
          currentMatches == old(currentMatches) && matchesPlayed == old(matchesPlayed)
        case Won(t) =>
          playerWins == Bump(old(playerWins), Matches.MemberIds(Matches.Winners(am, t)), 1) &&
          playerLosses == Bump(old(playerLosses), Matches.MemberIds(Matches.Losers(am, t)), 1) &&
          playerShuttlecockFees == Matches.FeesAfter(old(playerShuttlecockFees), Matches.MemberIds(Matches.Losers(am, t))) &&
          currentMatches == old(currentMatches) + [Matches.Decided(am, t)] &&
          matchesPlayed == old(matchesPlayed) + 1
    {
      if activeMatch.None? {
        return;
      }
      var am := activeMatch.value;
      assignments := VacateSlots(assignments, CourtSlots(am.courtIndex, am.gameType));
      if outcome.Draw? {
        activeMatch := None;
        return;
      }
      RecordWin(am, outcome.team);
      activeMatch := None;
    }

    /** The tallies of a decided match: a win per winner, a loss and a fee share per loser,
        the match appended to the log and counted. */
    method RecordWin(am: ActiveMatch, t: Team)
      requires matchesPlayed == |currentMatches|
      modifies this`playerWins, this`playerLosses, this`playerShuttlecockFees, this`currentMatches, this`matchesPlayed
      ensures matchesPlayed == |currentMatches|
      ensures playerWins == Bump(old(playerWins), Matches.MemberIds(Matches.Winners(am, t)), 1)
      ensures playerLosses == Bump(old(playerLosses), Matches.MemberIds(Matches.Losers(am, t)), 1)
      ensures playerShuttlecockFees == Matches.FeesAfter(old(playerShuttlecockFees), Matches.MemberIds(Matches.Losers(am, t)))
      ensures currentMatches == old(currentMatches) + [Matches.Decided(am, t)]
      ensures matchesPlayed == old(matchesPlayed) + 1
    {
      var winnerIds := Matches.MemberIds(Matches.Winners(am, t));
      var loserIds := Matches.MemberIds(Matches.Losers(am, t));
      matchesPlayed := matchesPlayed + 1;
      playerWins := Increment(playerWins, winnerIds, 1);
      playerLosses := Increment(playerLosses, loserIds, 1);
      if |loserIds| > 0 {
        playerShuttlecockFees := Increment(playerShuttlecockFees, loserIds, Matches.FeeShare(|loserIds|));
      }
      currentMatches := currentMatches + [Matches.Decided(am, t)];
    }

    /** `handleSaveSession` with the new session's id and date and two fresh fallback ids: the
        session is archived and the per-session state starts over from the persisted roster.
        The pending match and the court types are kept. The notice for a session without
        player details cannot occur: the guest entry is always on the roster. */
    method SaveSession(id: string, date: string, id1: PlayerId, id2: PlayerId)
      requires Valid()
      requires id1 != id2 && id1 != GUEST_PLAYER_ID && id2 != GUEST_PLAYER_ID
      modifies this`sessions, this`players, this`assignments, this`matchesPlayed, this`playerWins,
               this`playerLosses, this`playerShuttlecockFees, this`currentMatches
      ensures Valid()
      ensures sessions == old(sessions) + [Archive(id, date, old(players), drinks, foods, old(playerWins),
                                                   old(playerLosses), old(playerShuttlecockFees), old(currentMatches))]
      ensures |sessions[|sessions| - 1].players| >= 1
      ensures players == InitialPlayers(stored, id1, id2)
      ensures assignments == map[] && matchesPlayed == 0 && currentMatches == []
      ensures playerWins == [] && playerLosses == [] && playerShuttlecockFees == []
    {
      sessions := sessions + [Archive(id, date, players, drinks, foods, playerWins, playerLosses,
                                      playerShuttlecockFees, currentMatches)];
      StartOver(id1, id2);
    }

    /** The per-session state after an archive: the roster reloaded from storage, an empty
        board, no tallies and no decided matches. */
    method StartOver(id1: PlayerId, id2: PlayerId)
      requires Valid()
      requires id1 != id2 && id1 != GUEST_PLAYER_ID && id2 != GUEST_PLAYER_ID
      modifies this`players, this`assignments, this`matchesPlayed, this`playerWins,
               this`playerLosses, this`playerShuttlecockFees, this`currentMatches
      ensures Valid()
      ensures players == InitialPlayers(stored, id1, id2)
      ensures assignments == map[] && matchesPlayed == 0 && currentMatches == []
      ensures playerWins == [] && playerLosses == [] && playerShuttlecockFees == []
    {
      InitialPlayersOk(stored, id1, id2);
      players := InitialPlayers(stored, id1, id2);
      assignments := map[];
      matchesPlayed := 0;
      playerLosses, playerWins, playerShuttlecockFees := [], [], [];
      currentMatches := [];
    }
  }
}

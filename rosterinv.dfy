/** The roster invariant the session engine keeps (App.tsx:89-129, 419-592): the guest heads
    the list and is the only guest, ids are unique, every head count is at least one, and
    every consumption record holds distinct keys with positive counts. Each roster
    operation preserves it. */
module RosterInvariant {
  import opened Wrappers
  import opened Domain
  import opened Records
  import opened Consumption
  import opened Roster
  import JsText
  import Sequences

  /** One entry's per-session data is well kept. */
  predicate EntryOk(p: Player) {
    p.quantity >= 1 &&
    UniqueKeys(p.consumedDrinks) && AllPositive(p.consumedDrinks) &&
    UniqueKeys(p.consumedFoods) && AllPositive(p.consumedFoods)
  }

  predicate RosterOk(players: seq<Player>) {
    GuestFirst(players) && UniqueIds(players) && forall p :: p in players ==> EntryOk(p)
  }

  /** Fresh ids: pairwise distinct and used by no roster entry. */
  predicate FreshIds(players: seq<Player>, ids: seq<PlayerId>) {
    (forall i, j :: 0 <= i < j < |ids| ==> ids[i] != ids[j]) &&
    forall k :: 0 <= k < |ids| ==> !HasId(players, ids[k])
  }

  lemma AppendUnique(a: seq<Player>, b: seq<Player>)
    requires UniqueIds(a) && UniqueIds(b)
    requires forall i, j :: 0 <= i < |a| && 0 <= j < |b| ==> a[i].id != b[j].id
    ensures UniqueIds(a + b)
  {
    forall i, j | 0 <= i < j < |a + b| ensures (a + b)[i].id != (a + b)[j].id {
      if j < |a| {
      } else if i < |a| {
        assert (a + b)[j] == b[j - |a|];
      } else {
        assert (a + b)[i] == b[i - |a|] && (a + b)[j] == b[j - |a|];
      }
    }
  }

  /** Appending regular entries with fresh, distinct ids keeps the invariant. */
  lemma AppendFresh(players: seq<Player>, added: seq<Player>)
    requires RosterOk(players) && UniqueIds(added)
    requires forall q :: q in added ==> !q.isGuest && EntryOk(q) && !HasId(players, q.id)
    ensures RosterOk(players + added)
  {
    var all := players + added;
    forall i, j | 0 <= i < |players| && 0 <= j < |added| ensures players[i].id != added[j].id {
      assert added[j] in added;
    }
    AppendUnique(players, added);
    forall k | 1 <= k < |all| ensures !all[k].isGuest && all[k].id != GUEST_PLAYER_ID {
      if k >= |players| {
        assert all[k] == added[k - |players|] && all[k] in added;
        assert players[0].id == GUEST_PLAYER_ID;
      }
    }
  }

  /** `handleAddPlayer` with a fresh id keeps the invariant. */
  lemma AddPlayerOk(players: seq<Player>, id: PlayerId, name: string)
    requires RosterOk(players) && !HasId(players, id)
    ensures RosterOk(AddPlayer(players, id, name))
  {
    if JsText.Trim(name) != [] {
      AppendFresh(players, [Regular(id, JsText.Trim(name), Some(""))]);
    }
  }

  lemma TailUnique(players: seq<Player>)
    requires UniqueIds(players) && players != []
    ensures UniqueIds(players[1..])
    ensures forall q :: q in players[1..] ==> q.id != players[0].id
  {
    var rest := players[1..];
    forall i, j | 0 <= i < j < |rest| ensures rest[i].id != rest[j].id {
      assert rest[i] == players[i + 1] && rest[j] == players[j + 1];
    }
    forall q | q in rest ensures q.id != players[0].id {
      var j :| 0 <= j < |rest| && rest[j] == q;
      assert players[j + 1] == q;
    }
  }

  lemma ConsUnique(p: Player, rest: seq<Player>)
    requires UniqueIds(rest) && forall q :: q in rest ==> q.id != p.id
    ensures UniqueIds([p] + rest)
  {
    forall j | 0 <= j < |rest| ensures p.id != rest[j].id {
      assert rest[j] in rest;
    }
    AppendUnique([p], rest);
  }

  /** The filter of `handleRemovePlayer` keeps ids unique. */
  lemma {:induction false} RemoveUnique(players: seq<Player>, id: PlayerId)
    requires UniqueIds(players)
    ensures UniqueIds(RemovePlayer(players, id))
  {
    if players != [] {
      TailUnique(players);
      RemoveUnique(players[1..], id);
      if players[0].id != id {
        ConsUnique(players[0], RemovePlayer(players[1..], id));
      }
    }
  }

  /** Removing a regular player keeps the invariant (the guest is never offered for removal). */
  lemma RemovePlayerOk(players: seq<Player>, id: PlayerId)
    requires RosterOk(players) && id != GUEST_PLAYER_ID
    ensures RosterOk(RemovePlayer(players, id))
  {
    RemoveUnique(players, id);
    var rest := RemovePlayer(players[1..], id);
    assert RemovePlayer(players, id) == [players[0]] + rest;
    forall k | 1 <= k < |rest| + 1 ensures !([players[0]] + rest)[k].isGuest && ([players[0]] + rest)[k].id != GUEST_PLAYER_ID {
      assert ([players[0]] + rest)[k] == rest[k - 1] && rest[k - 1] in rest;
      var j :| 0 <= j < |players| - 1 && players[1..][j] == rest[k - 1];
      assert players[j + 1] == rest[k - 1];
    }
  }

  /** A per-player update that keeps ids, guest flags and well-kept entries keeps the invariant. */
  lemma SameShapeOk(a: seq<Player>, b: seq<Player>)
    requires RosterOk(a) && SameShape(a, b)
    requires forall k :: 0 <= k < |b| ==> EntryOk(b[k])
    ensures RosterOk(b)
  {
    forall p | p in b ensures EntryOk(p) {
      var k :| 0 <= k < |b| && b[k] == p;
    }
  }

  lemma UpdateInfoOk(players: seq<Player>, id: PlayerId, name: string, phone: string)
    requires RosterOk(players)
    ensures RosterOk(UpdateInfo(players, id, name, phone))
  {
    forall k | 0 <= k < |players| ensures EntryOk(players[k]) { assert players[k] in players; }
    SameShapeOk(players, UpdateInfo(players, id, name, phone));
  }

  /** A drink change keeps every drink record with distinct keys and positive counts. */
  lemma UpdateDrinkOk(players: seq<Player>, id: PlayerId, drinkId: string, amount: int)
    requires RosterOk(players)
    ensures RosterOk(UpdateDrink(players, id, drinkId, amount))
  {
    forall k | 0 <= k < |players| ensures EntryOk(UpdateDrink(players, id, drinkId, amount)[k]) {
      assert players[k] in players;
      UpdateConsumptionKeepsShape(players[k].consumedDrinks, drinkId, amount);
    }
    SameShapeOk(players, UpdateDrink(players, id, drinkId, amount));
  }

  lemma UpdateFoodOk(players: seq<Player>, id: PlayerId, foodId: string, amount: int)
    requires RosterOk(players)
    ensures RosterOk(UpdateFood(players, id, foodId, amount))
  {
    forall k | 0 <= k < |players| ensures EntryOk(UpdateFood(players, id, foodId, amount)[k]) {
      assert players[k] in players;
      UpdateConsumptionKeepsShape(players[k].consumedFoods, foodId, amount);
    }
    SameShapeOk(players, UpdateFood(players, id, foodId, amount));
  }

  /** The guest's head count stays at least one. */
  lemma UpdateQuantityOk(players: seq<Player>, id: PlayerId, amount: int)
    requires RosterOk(players)
    ensures RosterOk(UpdateQuantity(players, id, amount))
  {
    forall k | 0 <= k < |players| ensures EntryOk(UpdateQuantity(players, id, amount)[k]) {
      assert players[k] in players;
    }
    SameShapeOk(players, UpdateQuantity(players, id, amount));
  }

  lemma SetAdjustmentOk(players: seq<Player>, id: PlayerId, amount: int, reason: string)
    requires RosterOk(players)
    ensures RosterOk(SetAdjustment(players, id, amount, reason))
  {
    forall k | 0 <= k < |players| ensures EntryOk(SetAdjustment(players, id, amount, reason)[k]) {
      assert players[k] in players;
    }
    SameShapeOk(players, SetAdjustment(players, id, amount, reason));
  }

  lemma TogglePaidOk(players: seq<Player>, id: PlayerId)
    requires RosterOk(players)
    ensures RosterOk(TogglePaid(players, id))
  {
    forall k | 0 <= k < |players| ensures EntryOk(TogglePaid(players, id)[k]) {
      assert players[k] in players;
    }
    SameShapeOk(players, TogglePaid(players, id));
  }

  lemma MarkAllPaidOk(players: seq<Player>)
    requires RosterOk(players)
    ensures RosterOk(MarkAllPaid(players))
  {
    forall k | 0 <= k < |players| ensures EntryOk(MarkAllPaid(players)[k]) {
      assert players[k] in players;
    }
    SameShapeOk(players, MarkAllPaid(players));
  }

  /** On a roster headed by its only guest, the guest is found first. */
  lemma GuestPrefixIsHead(players: seq<Player>)
    requires GuestFirst(players)
    ensures GuestPrefix(players) == [players[0]]
  {
  }

  /** Appending regular entries that carry the fresh ids, in order, keeps the invariant. */
  lemma AppendFreshIds(players: seq<Player>, added: seq<Player>, ids: seq<PlayerId>)
    requires RosterOk(players) && FreshIds(players, ids) && |added| <= |ids|
    requires forall k :: 0 <= k < |added| ==> added[k].id == ids[k] && !added[k].isGuest && EntryOk(added[k])
    ensures RosterOk(players + added)
  {
    forall q | q in added ensures !q.isGuest && EntryOk(q) && !HasId(players, q.id) {
      var k :| 0 <= k < |added| && added[k] == q;
    }
    AppendFresh(players, added);
  }

  /** The guest alone is a roster with the invariant, and fresh ids are fresh for it. */
  lemma HeadOk(players: seq<Player>, ids: seq<PlayerId>)
    requires RosterOk(players) && FreshIds(players, ids)
    ensures RosterOk([players[0]]) && FreshIds([players[0]], ids)
  {
    assert players[0] in players;
    forall k | 0 <= k < |ids| ensures !HasId([players[0]], ids[k]) {
      assert !HasId(players, ids[k]);
      assert players[0].id != ids[k];
    }
  }

  /** Import in 'replace' mode with fresh ids keeps the invariant. */
  lemma ImportReplaceOk(players: seq<Player>, rows: seq<ImportRow>, ids: seq<PlayerId>)
    requires RosterOk(players) && |ids| == |rows| && FreshIds(players, ids)
    ensures RosterOk(ImportReplace(players, rows, ids))
  {
    GuestPrefixIsHead(players);
    HeadOk(players, ids);
    var ps := ImportReplace(players, rows, ids);
    var news := ps[1..];
    assert ps == [players[0]] + news;
    assert forall k :: 0 <= k < |news| ==> news[k] == ps[1 + k];
    AppendFreshIds([players[0]], news, ids);
  }

  lemma {:induction false} RegularsOfRegulars(players: seq<Player>)
    requires forall k :: 0 <= k < |players| ==> !players[k].isGuest
    ensures Regulars(players) == players
  {
    if players != [] {
      RegularsOfRegulars(players[1..]);
    }
  }

  /** On a roster headed by its only guest, a merge keeps the roster as it is. */
  lemma KeptIsRoster(players: seq<Player>)
    requires GuestFirst(players)
    ensures Kept(players) == players
  {
    GuestPrefixIsHead(players);
    RegularsOfRegulars(players[1..]);
    assert Regulars(players) == Regulars(players[1..]);
  }

  /** Import in 'merge' mode with fresh ids keeps the invariant. */
  lemma ImportMergeOk(players: seq<Player>, rows: seq<ImportRow>, ids: seq<PlayerId>)
    requires RosterOk(players) && |ids| >= |rows| && FreshIds(players, ids)
    ensures ImportMerge(players, rows, ids).Some? ==> RosterOk(ImportMerge(players, rows, ids).value)
  {
    var kept := MergeRows(players, rows);
    if kept != [] {
      KeptIsRoster(players);
      MergedOk(players, kept, ids);
    }
  }

  /** Fresh players appended to a roster with the invariant keep it. */
  lemma MergedOk(players: seq<Player>, kept: seq<ImportRow>, ids: seq<PlayerId>)
    requires RosterOk(players) && |ids| >= |kept| && FreshIds(players, ids)
    ensures RosterOk(players + MergedPlayers(kept, ids))
  {
    MergedPlayersOk(kept, ids);
    AppendFreshIds(players, MergedPlayers(kept, ids), ids);
  }

  /** Every merged player is a regular entry with its fresh id and the invariant's counts. */
  lemma MergedPlayersOk(kept: seq<ImportRow>, ids: seq<PlayerId>)
    requires |ids| >= |kept|
    ensures var added := MergedPlayers(kept, ids);
      forall k :: 0 <= k < |added| ==> added[k].id == ids[k] && !added[k].isGuest && EntryOk(added[k])
  {
    var added := MergedPlayers(kept, ids);
    forall k | 0 <= k < |added| ensures added[k].id == ids[k] && !added[k].isGuest && EntryOk(added[k]) {
      MergedPlayerOk(kept[k], ids[k]);
    }
  }

  lemma MergedPlayerOk(row: ImportRow, id: PlayerId)
    ensures var p := MergedPlayer(row, id); p.id == id && !p.isGuest && EntryOk(p)
  {
    var p := MergedPlayer(row, id);
    assert p.consumedDrinks == [] && p.consumedFoods == [] && p.quantity == 1;
  }

  /** `createInitialPlayers` yields a roster with the invariant, provided the persisted list
      has unique ids and the two fallback ids are distinct and not the guest's. */
  lemma InitialPlayersOk(stored: Option<seq<Identity>>, id1: PlayerId, id2: PlayerId)
    requires stored.Some? ==> UniqueIds(Reloaded(stored.value))
    requires id1 != id2 && id1 != GUEST_PLAYER_ID && id2 != GUEST_PLAYER_ID
    ensures RosterOk(InitialPlayers(stored, id1, id2))
  {
    var ps := InitialPlayers(stored, id1, id2);
    if stored.Some? {
      var rest := Reloaded(stored.value);
      assert ps == [GUEST] + rest;
      forall q | q in rest ensures q.id != GUEST.id { }
      ConsUnique(GUEST, rest);
      forall k | 1 <= k < |ps| ensures !ps[k].isGuest && ps[k].id != GUEST_PLAYER_ID {
        assert ps[k] == rest[k - 1] && rest[k - 1] in rest;
      }
    }
  }

  /** What a roster with the invariant persists reloads with unique ids. */
  lemma StoredUnique(players: seq<Player>)
    requires RosterOk(players)
    ensures UniqueIds(Reloaded(Storable(players)))
  {
    var rest := players[1..];
    assert Storable(players) == Storable(rest);
    forall k | 0 <= k < |rest| ensures !rest[k].isGuest && rest[k].id != GUEST_PLAYER_ID {
      assert rest[k] == players[k + 1];
    }
    ReloadKeepsIdentities(rest);
    var r := Reloaded(Storable(rest));
    forall i, j | 0 <= i < j < |r| ensures r[i].id != r[j].id {
      assert IdentityOf(r[i]) == IdentityOf(rest[i]) && IdentityOf(r[j]) == IdentityOf(rest[j]);
      assert rest[i] == players[i + 1] && rest[j] == players[j + 1];
    }
  }
}

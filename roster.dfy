/** The roster operations of the session engine (App.tsx:89-129, 419-592): pure
    functions from the player list (and what the handler receives) to the new list. */
module Roster {
  import opened Wrappers
  import opened Domain
  import opened Records
  import JsText
  import opened Consumption
  import Sequences

  const NO_ADJUSTMENT: Adjustment := Adjustment(0, "")
  const DEFAULT_NAME_1: string := "Người chơi 1"
  const DEFAULT_NAME_2: string := "Người chơi 2"

  /** The walk-in guest entry that heads every roster. */
  const GUEST: Player := Player(GUEST_PLAYER_ID, GUEST_PLAYER_NAME, None, [], [], true, 1, NO_ADJUSTMENT, false)

  /** A regular player as every creation path builds it: nothing consumed, one head,
      no adjustment, unpaid. */
  function Regular(id: PlayerId, name: string, phone: Option<string>): Player {
    Player(id, name, phone, [], [], false, 1, NO_ADJUSTMENT, false)
  }

  /** The per-session part of a player is at its initial value. */
  predicate SessionReset(p: Player) {
    p.consumedDrinks == [] && p.consumedFoods == [] && p.quantity == 1 && p.adjustment == NO_ADJUSTMENT && !p.isPaid
  }

  /** The regular players of a persisted list: guest-id entries dropped, session data reset. */
  function Reloaded(stored: seq<Identity>): (ps: seq<Player>)
    ensures |ps| <= |stored|
    ensures forall p :: p in ps ==> !p.isGuest && p.id != GUEST_PLAYER_ID && SessionReset(p)
  {
    if stored == [] then []
    else
      var rest := Reloaded(stored[1..]);
      if stored[0].id == GUEST_PLAYER_ID then rest
      else [Regular(stored[0].id, stored[0].name, stored[0].phone)] + rest
  }

  /** `createInitialPlayers`: the guest, then either the persisted regular players or, when
      nothing is stored (or it cannot be read), two default players with the given fresh ids. */
  function InitialPlayers(stored: Option<seq<Identity>>, id1: PlayerId, id2: PlayerId): (ps: seq<Player>)
    ensures |ps| >= 1 && ps[0] == GUEST
    ensures stored.Some? ==> ps[1..] == Reloaded(stored.value)
    ensures stored.None? ==> ps[1..] == [Regular(id1, DEFAULT_NAME_1, Some("")), Regular(id2, DEFAULT_NAME_2, Some(""))]
  {
    match stored
    case Some(s) => [GUEST] + Reloaded(s)
    case None => [GUEST, Regular(id1, DEFAULT_NAME_1, Some("")), Regular(id2, DEFAULT_NAME_2, Some(""))]
  }

  /** `savePlayersToStorage`: the `{id, name, phone}` of every non-guest player, in order. */
  function Storable(players: seq<Player>): (ids: seq<Identity>)
    ensures |ids| <= |players|
  {
    if players == [] then []
    else
      var rest := Storable(players[1..]);
      if players[0].isGuest then rest
      else [Identity(players[0].id, players[0].name, players[0].phone)] + rest
  }

  /** Saving keeps roster order: saving a concatenation saves each part. */
  lemma {:induction false} StorableAppend(a: seq<Player>, b: seq<Player>)
    ensures Storable(a + b) == Storable(a) + Storable(b)
    decreases |a|
  {
    if a == [] {
      assert a + b == b;
    } else {
      assert (a + b)[0] == a[0];
      assert (a + b)[1..] == a[1..] + b;
      StorableAppend(a[1..], b);
    }
  }

  /** Reloading keeps stored order: reloading a concatenation reloads each part. */
  lemma {:induction false} ReloadedAppend(a: seq<Identity>, b: seq<Identity>)
    ensures Reloaded(a + b) == Reloaded(a) + Reloaded(b)
    decreases |a|
  {
    if a == [] {
      assert a + b == b;
    } else {
      assert (a + b)[0] == a[0];
      assert (a + b)[1..] == a[1..] + b;
      ReloadedAppend(a[1..], b);
    }
  }

  function IdentityOf(p: Player): Identity {
    Identity(p.id, p.name, p.phone)
  }

  /** The roster shape the engine maintains: the guest first, and the guest id and flag on
      no other entry. */
  predicate GuestFirst(players: seq<Player>) {
    |players| >= 1 && players[0].isGuest && players[0].id == GUEST_PLAYER_ID &&
    forall k :: 1 <= k < |players| ==> !players[k].isGuest && players[k].id != GUEST_PLAYER_ID
  }

  /** Persisting and reloading keeps every regular player's identity, in order, and resets
      the session data. */
  lemma {:induction false} ReloadKeepsIdentities(players: seq<Player>)
    requires forall k :: 0 <= k < |players| ==> !players[k].isGuest && players[k].id != GUEST_PLAYER_ID
    ensures |Reloaded(Storable(players))| == |players|
    ensures forall k :: 0 <= k < |players| ==>
      IdentityOf(Reloaded(Storable(players))[k]) == IdentityOf(players[k]) && SessionReset(Reloaded(Storable(players))[k])
  {
    if players != [] {
      ReloadKeepsIdentities(players[1..]);
      var p := players[0];
      assert Storable(players) == [IdentityOf(p)] + Storable(players[1..]);
      assert Reloaded(Storable(players)) == [Regular(p.id, p.name, p.phone)] + Reloaded(Storable(players[1..]));
    }
  }

  /** Regular players whose session data is at its initial value survive a save and a
      reload unchanged. */
  lemma {:induction false} ReloadFresh(players: seq<Player>)
    requires forall k :: 0 <= k < |players| ==> !players[k].isGuest && players[k].id != GUEST_PLAYER_ID
    requires forall k :: 0 <= k < |players| ==> SessionReset(players[k])
    ensures Reloaded(Storable(players)) == players
  {
    if players != [] {
      var p, tail := players[0], players[1..];
      assert forall k :: 0 <= k < |tail| ==> tail[k] == players[k + 1];
      ReloadFresh(tail);
      assert Storable(players) == [IdentityOf(p)] + Storable(tail);
      assert Regular(p.id, p.name, p.phone) == p;
      assert players == [p] + tail;
    }
  }

  /** A whole roster as the engine keeps it (the guest, then regular players) survives a save
      and a reload unchanged once its session data is reset. */
  lemma SessionRosterRoundTrip(regulars: seq<Player>, id1: PlayerId, id2: PlayerId)
    requires forall k :: 0 <= k < |regulars| ==>
      !regulars[k].isGuest && regulars[k].id != GUEST_PLAYER_ID && SessionReset(regulars[k])
    ensures InitialPlayers(Some(Storable([GUEST] + regulars)), id1, id2) == [GUEST] + regulars
  {
    StorableSkipsGuest(regulars);
    ReloadFresh(regulars);
  }

  lemma StorableSkipsGuest(regulars: seq<Player>)
    ensures Storable([GUEST] + regulars) == Storable(regulars)
  {
    assert ([GUEST] + regulars)[1..] == regulars;
  }

  /** `handleAddPlayer`: a blank name is ignored, otherwise a regular player with the trimmed
      name, an empty phone and the fresh id is appended. */
  function AddPlayer(players: seq<Player>, id: PlayerId, name: string): (ps: seq<Player>)
    ensures JsText.Trim(name) == [] ==> ps == players
    ensures JsText.Trim(name) != [] ==> ps == players + [Regular(id, JsText.Trim(name), Some(""))]
  {
    var t := JsText.Trim(name);
    if t == [] then players else players + [Regular(id, t, Some(""))]
  }

  /** `players.filter(p => p.id !== id)`. */
  function RemovePlayer(players: seq<Player>, id: PlayerId): (ps: seq<Player>)
    ensures |ps| <= |players|
    ensures forall p :: p in ps <==> p in players && p.id != id
  {
    if players == [] then []
    else
      var rest := RemovePlayer(players[1..], id);
      assert forall p :: p in players <==> p == players[0] || p in players[1..];
      if players[0].id == id then rest else [players[0]] + rest
  }

  /** Removing an id nobody has changes nothing. */
  lemma {:induction false} RemoveAbsent(players: seq<Player>, id: PlayerId)
    requires forall p :: p in players ==> p.id != id
    ensures RemovePlayer(players, id) == players
  {
    if players != [] {
      assert players[0] in players;
      assert forall p :: p in players[1..] ==> p in players;
      RemoveAbsent(players[1..], id);
    }
  }

  /** Adding a player and then removing them gives the roster back, when the id is fresh. */
  lemma {:induction false} AddThenRemove(players: seq<Player>, id: PlayerId, name: string)
    requires forall p :: p in players ==> p.id != id
    ensures RemovePlayer(AddPlayer(players, id, name), id) == players
  {
    if JsText.Trim(name) == [] {
      RemoveAbsent(players, id);
    } else {
      RemoveAppend(players, Regular(id, JsText.Trim(name), Some("")), id);
      RemoveAbsent(players, id);
    }
  }

  lemma {:induction false} RemoveAppend(players: seq<Player>, q: Player, id: PlayerId)
    requires q.id == id
    ensures RemovePlayer(players + [q], id) == RemovePlayer(players, id)
  {
    if players == [] {
      assert [] + [q] == [q];
    } else {
      assert (players + [q])[1..] == players[1..] + [q];
      RemoveAppend(players[1..], q, id);
    }
  }

  /** Removal keeps roster order: removing from a concatenation removes from each part. */
  lemma {:induction false} RemovePlayerAppend(a: seq<Player>, b: seq<Player>, id: PlayerId)
    ensures RemovePlayer(a + b, id) == RemovePlayer(a, id) + RemovePlayer(b, id)
    decreases |a|
  {
    if a == [] {
      assert a + b == b;
    } else {
      assert (a + b)[0] == a[0];
      assert (a + b)[1..] == a[1..] + b;
      RemovePlayerAppend(a[1..], b, id);
    }
  }

  /** `handleUpdatePlayerInfo`: the player with the id gets the new name and phone. */
  function UpdateInfo(players: seq<Player>, id: PlayerId, name: string, phone: string): (ps: seq<Player>)
    ensures |ps| == |players|
    ensures forall k :: 0 <= k < |ps| ==>
      ps[k] == if players[k].id == id then players[k].(name := name, phone := Some(phone)) else players[k]
  {
    seq(|players|, k requires 0 <= k < |players| =>
      if players[k].id == id then players[k].(name := name, phone := Some(phone)) else players[k])
  }

  /** A row handed to the import handler. */
  datatype ImportRow = ImportRow(name: string, phone: Option<string>)

  /** `players.find(p => p.isGuest)`. */
  function FindGuest(players: seq<Player>): (g: Option<Player>)
    ensures g.Some? ==> g.value in players && g.value.isGuest
    ensures g.None? ==> forall p :: p in players ==> !p.isGuest
    ensures forall i :: 0 <= i < |players| && players[i].isGuest && NoGuestBefore(players, i) ==> g == Some(players[i])
  {
    if players == [] then None
    else if players[0].isGuest then Some(players[0])
    else
      var g := FindGuest(players[1..]);
      assert forall i | 0 <= i < |players| && players[i].isGuest && NoGuestBefore(players, i) :: g == Some(players[i]) by {
        forall i | 0 <= i < |players| && players[i].isGuest && NoGuestBefore(players, i)
          ensures g == Some(players[i])
        {
          assert i != 0;
          assert players[1..][i - 1] == players[i];
          assert NoGuestBefore(players[1..], i - 1);
        }
      }
      g
  }

  /** No entry before index `i` is the guest. */
  predicate NoGuestBefore(players: seq<Player>, i: int)
    requires 0 <= i <= |players|
  {
    forall j :: 0 <= j < i ==> !players[j].isGuest
  }

  /** The guest entry kept ahead of the imported players, when the roster has one. */
  function GuestPrefix(players: seq<Player>): (r: seq<Player>)
    ensures |r| <= 1
    ensures r == [] <==> forall p :: p in players ==> !p.isGuest
    ensures r != [] ==> r[0] in players && r[0].isGuest
  {
    match FindGuest(players)
    case Some(g) => [g]
    case None => []
  }

  /** Import in 'replace' mode: the guest (as it is) followed by one fresh regular player per
      row, in file order, with the row's name as given and its phone or ''. */
  function ImportReplace(players: seq<Player>, rows: seq<ImportRow>, ids: seq<PlayerId>): (ps: seq<Player>)
    requires |ids| == |rows|
    ensures |ps| == |GuestPrefix(players)| + |rows|
    ensures ps[..|GuestPrefix(players)|] == GuestPrefix(players)
    ensures forall k :: 0 <= k < |rows| ==>
      ps[|GuestPrefix(players)| + k] == Regular(ids[k], rows[k].name, Some(rows[k].phone.GetOr("")))
  {
    GuestPrefix(players) + seq(|rows|, k requires 0 <= k < |rows| => Regular(ids[k], rows[k].name, Some(rows[k].phone.GetOr(""))))
  }

  /** `players.filter(p => !p.isGuest)`. */
  function Regulars(players: seq<Player>): (ps: seq<Player>)
    ensures forall p :: p in ps <==> p in players && !p.isGuest
  {
    if players == [] then []
    else
      var rest := Regulars(players[1..]);
      assert forall p :: p in players <==> p == players[0] || p in players[1..];
      if players[0].isGuest then rest else [players[0]] + rest
  }

  /** The regular part keeps roster order and repeats: it distributes over concatenation. */
  lemma {:induction false} RegularsAppend(a: seq<Player>, b: seq<Player>)
    ensures Regulars(a + b) == Regulars(a) + Regulars(b)
    decreases |a|
  {
    if a == [] {
      assert a + b == b;
    } else {
      assert (a + b)[0] == a[0];
      assert (a + b)[1..] == a[1..] + b;
      RegularsAppend(a[1..], b);
    }
  }

  /** The comparison key of the merge: trimmed, lower-cased. */
  function NameKey(name: string): (k: string)
    ensures |k| == |JsText.Trim(name)|
    ensures k == [] <==> JsText.AllSpace(name)
  {
    JsText.BlankIffAllSpace(name);
    JsText.ToLower(JsText.Trim(name))
  }

  /** Padding around a name does not change its key. */
  lemma NameKeyIgnoresPadding(name: string)
    ensures NameKey(JsText.Trim(name)) == NameKey(name)
  {
    JsText.TrimIdempotent(name);
  }

  /** The key ignores letter case beyond ASCII: "Đức" and "đức" are one name. */
  lemma NameKeyVietnamese()
    ensures NameKey("\U{0110}\U{1EE9}c") == NameKey("\U{0111}\U{1EE9}c")
  {
    var upper, lower := "\U{0110}\U{1EE9}c", "\U{0111}\U{1EE9}c";
    JsText.TrimOfTrimmed(upper);
    JsText.TrimOfTrimmed(lower);
    JsText.ToLowerDuc();
  }

  function ExistingNames(regulars: seq<Player>): set<string> {
    set p | p in regulars :: NameKey(p.name)
  }

  /** A row the merge keeps: its trimmed name is not blank and no existing player has it. */
  predicate IsNewRow(row: ImportRow, existing: set<string>) {
    JsText.Trim(row.name) != [] && NameKey(row.name) !in existing
  }

  function NewRows(rows: seq<ImportRow>, existing: set<string>): (kept: seq<ImportRow>)
    ensures |kept| <= |rows|
    ensures forall r :: r in kept <==> r in rows && IsNewRow(r, existing)
  {
    if rows == [] then []
    else
      var rest := NewRows(rows[1..], existing);
      assert forall r :: r in rows <==> r == rows[0] || r in rows[1..];
      if IsNewRow(rows[0], existing) then [rows[0]] + rest else rest
  }

  /** The merge filter keeps file order: filtering a concatenation filters each part. */
  lemma {:induction false} NewRowsAppend(a: seq<ImportRow>, b: seq<ImportRow>, existing: set<string>)
    ensures NewRows(a + b, existing) == NewRows(a, existing) + NewRows(b, existing)
    decreases |a|
  {
    if a == [] {
      assert a + b == b;
    } else {
      assert (a + b)[0] == a[0];
      assert (a + b)[1..] == a[1..] + b;
      NewRowsAppend(a[1..], b, existing);
    }
  }

  /** One more row at the end adds itself exactly when it is new: the merge count is the
      number of new rows, counted one row at a time. */
  lemma NewRowsSnoc(rows: seq<ImportRow>, row: ImportRow, existing: set<string>)
    ensures NewRows(rows + [row], existing) ==
            NewRows(rows, existing) + (if IsNewRow(row, existing) then [row] else [])
    ensures |NewRows(rows + [row], existing)| ==
            |NewRows(rows, existing)| + (if IsNewRow(row, existing) then 1 else 0)
  {
    NewRowsAppend(rows, [row], existing);
  }

  /** When every row is new, all of them are added, in file order and with repeats: the
      filter compares against the roster only, not against earlier rows of the file. */
  lemma {:induction false} NewRowsAllNew(rows: seq<ImportRow>, existing: set<string>)
    requires forall k :: 0 <= k < |rows| ==> IsNewRow(rows[k], existing)
    ensures NewRows(rows, existing) == rows
  {
    if rows != [] {
      var tail := rows[1..];
      assert forall k :: 0 <= k < |tail| ==> IsNewRow(tail[k], existing) by {
        forall k | 0 <= k < |tail| ensures tail[k] == rows[k + 1] { }
      }
      NewRowsAllNew(tail, existing);
      assert NewRows(rows, existing) == [rows[0]] + tail by {
        assert IsNewRow(rows[0], existing);
      }
      Sequences.HeadTail(rows);
    }
  }

  /** The player a merged row becomes: trimmed name, trimmed phone or ''. */
  function MergedPlayer(row: ImportRow, id: PlayerId): (p: Player)
    ensures p.id == id && !p.isGuest && SessionReset(p)
    ensures p.name == JsText.Trim(row.name) && p.phone.Some?
    ensures row.phone.Some? ==> p.phone.value == JsText.Trim(row.phone.value)
    ensures row.phone.None? ==> p.phone.value == []
  {
    Regular(id, JsText.Trim(row.name), Some(JsText.Trim(row.phone.GetOr(""))))
  }

  /** The rows a merge adds. */
  function MergeRows(players: seq<Player>, rows: seq<ImportRow>): (kept: seq<ImportRow>)
    ensures |kept| <= |rows|
    ensures forall r :: r in kept <==> r in rows && JsText.Trim(r.name) != [] && NameKey(r.name) !in ExistingNames(Regulars(players))
  {
    NewRows(rows, ExistingNames(Regulars(players)))
  }

  /** A merge adds the new rows of a file in file order, each file part contributing its own:
      the "added" count of a merge is the sum over its rows. */
  lemma MergeRowsAppend(players: seq<Player>, a: seq<ImportRow>, b: seq<ImportRow>)
    ensures MergeRows(players, a + b) == MergeRows(players, a) + MergeRows(players, b)
    ensures |MergeRows(players, a + b)| == |MergeRows(players, a)| + |MergeRows(players, b)|
  {
    NewRowsAppend(a, b, ExistingNames(Regulars(players)));
  }

  /** What a merge keeps at the head of the roster: the guest, then the regular players. */
  function Kept(players: seq<Player>): seq<Player> {
    GuestPrefix(players) + Regulars(players)
  }

  /** Import in 'merge' mode: None (a notice, roster unchanged) when no row is new; otherwise
      the guest, the existing regular players unchanged and in order, then one fresh player
      per new row. Rows repeating each other are all kept. */
  function ImportMerge(players: seq<Player>, rows: seq<ImportRow>, ids: seq<PlayerId>): (r: Option<seq<Player>>)
    requires |ids| >= |rows|
    ensures r.None? <==> MergeRows(players, rows) == []
    ensures r.Some? ==> |r.value| == |Kept(players)| + |MergeRows(players, rows)|
    ensures r.Some? ==> r.value[..|Kept(players)|] == Kept(players)
    ensures r.Some? ==> r.value[|Kept(players)|..] == MergedPlayers(MergeRows(players, rows), ids)
  {
    var kept := MergeRows(players, rows);
    if kept == [] then None else Some(Kept(players) + MergedPlayers(kept, ids))
  }

  function MergedPlayers(kept: seq<ImportRow>, ids: seq<PlayerId>): (ps: seq<Player>)
    requires |ids| >= |kept|
    ensures |ps| == |kept| && forall k :: 0 <= k < |kept| ==> ps[k] == MergedPlayer(kept[k], ids[k])
  {
    seq(|kept|, k requires 0 <= k < |kept| => MergedPlayer(kept[k], ids[k]))
  }

  /** Every player a merge adds has a non-blank trimmed name that no previous regular player
      had, compared case-insensitively. */
  lemma MergeAddsOnlyNewNames(players: seq<Player>, rows: seq<ImportRow>, ids: seq<PlayerId>)
    requires |ids| >= |rows|
    ensures var r := ImportMerge(players, rows, ids);
      r.Some? ==> forall k :: |Kept(players)| <= k < |r.value| ==>
        r.value[k].name != [] && JsText.Trimmed(r.value[k].name) &&
        forall p :: p in players && !p.isGuest ==> NameKey(p.name) != JsText.ToLower(r.value[k].name)
  {
    var r := ImportMerge(players, rows, ids);
    if r.Some? {
      var pre := |Kept(players)|;
      var kept := MergeRows(players, rows);
      forall k | pre <= k < |r.value|
        ensures r.value[k].name != [] && JsText.Trimmed(r.value[k].name)
        ensures forall p :: p in players && !p.isGuest ==> NameKey(p.name) != JsText.ToLower(r.value[k].name)
      {
        var row := kept[k - pre];
        assert row in kept;
        Sequences.DropIndex(r.value, pre, k);
        NewNameUnused(players, row);
      }
    }
  }

  /** A row the merge keeps has a non-blank trimmed name whose key no regular player has. */
  lemma NewNameUnused(players: seq<Player>, row: ImportRow)
    requires JsText.Trim(row.name) != [] && NameKey(row.name) !in ExistingNames(Regulars(players))
    ensures forall p :: p in players && !p.isGuest ==> NameKey(p.name) != JsText.ToLower(JsText.Trim(row.name))
  {
    forall p | p in players && !p.isGuest
      ensures NameKey(p.name) != JsText.ToLower(JsText.Trim(row.name))
    {
      assert p in Regulars(players);
      assert NameKey(p.name) in ExistingNames(Regulars(players));
    }
  }

  /** Apply a consumption change to the drinks of the player with the id. */
  function UpdateDrink(players: seq<Player>, id: PlayerId, drinkId: string, amount: int): (ps: seq<Player>)
    ensures |ps| == |players|
    ensures forall k :: 0 <= k < |ps| ==> ps[k] == if players[k].id == id
      then players[k].(consumedDrinks := UpdateConsumption(players[k].consumedDrinks, drinkId, amount)) else players[k]
  {
    seq(|players|, k requires 0 <= k < |players| => if players[k].id == id
      then players[k].(consumedDrinks := UpdateConsumption(players[k].consumedDrinks, drinkId, amount)) else players[k])
  }

  function UpdateFood(players: seq<Player>, id: PlayerId, foodId: string, amount: int): (ps: seq<Player>)
    ensures |ps| == |players|
    ensures forall k :: 0 <= k < |ps| ==> ps[k] == if players[k].id == id
      then players[k].(consumedFoods := UpdateConsumption(players[k].consumedFoods, foodId, amount)) else players[k]
  {
    seq(|players|, k requires 0 <= k < |players| => if players[k].id == id
      then players[k].(consumedFoods := UpdateConsumption(players[k].consumedFoods, foodId, amount)) else players[k])
  }

  /** `quantity || 1`. */
  function QuantityOr1(q: int): (n: int)
    ensures q != 0 ==> n == q
    ensures q == 0 ==> n == 1
  {
    if q == 0 then 1 else q
  }

  /** `Math.max(1, (quantity || 1) + amount)`. */
  function NextQuantity(q: int, amount: int): (n: int)
    ensures n >= 1
    ensures QuantityOr1(q) + amount >= 1 ==> n == QuantityOr1(q) + amount
    ensures QuantityOr1(q) + amount < 1 ==> n == 1
  {
    if QuantityOr1(q) + amount > 1 then QuantityOr1(q) + amount else 1
  }

  /** `handleUpdateQuantity`: only the guest entry with the id changes its head count. */
  function UpdateQuantity(players: seq<Player>, id: PlayerId, amount: int): (ps: seq<Player>)
    ensures |ps| == |players|
    ensures forall k :: 0 <= k < |ps| ==> ps[k] == if players[k].id == id && players[k].isGuest
      then players[k].(quantity := NextQuantity(players[k].quantity, amount)) else players[k]
  {
    seq(|players|, k requires 0 <= k < |players| => if players[k].id == id && players[k].isGuest
      then players[k].(quantity := NextQuantity(players[k].quantity, amount)) else players[k])
  }

  /** The guest's head count never drops below one, and '+' followed by '-' restores it. */
  lemma QuantityUndo(q: int)
    requires q >= 1
    ensures NextQuantity(NextQuantity(q, 1), -1) == q
    ensures NextQuantity(q, -1) >= 1
  {
  }

  function SetAdjustment(players: seq<Player>, id: PlayerId, amount: int, reason: string): (ps: seq<Player>)
    ensures |ps| == |players|
    ensures forall k :: 0 <= k < |ps| ==> ps[k] == if players[k].id == id
      then players[k].(adjustment := Adjustment(amount, reason)) else players[k]
  {
    seq(|players|, k requires 0 <= k < |players| => if players[k].id == id
      then players[k].(adjustment := Adjustment(amount, reason)) else players[k])
  }

  function TogglePaid(players: seq<Player>, id: PlayerId): (ps: seq<Player>)
    ensures |ps| == |players|
    ensures forall k :: 0 <= k < |ps| ==> ps[k] == if players[k].id == id
      then players[k].(isPaid := !players[k].isPaid) else players[k]
  {
    seq(|players|, k requires 0 <= k < |players| => if players[k].id == id
      then players[k].(isPaid := !players[k].isPaid) else players[k])
  }

  /** Toggling twice is the identity. */
  lemma TogglePaidTwice(players: seq<Player>, id: PlayerId)
    ensures TogglePaid(TogglePaid(players, id), id) == players
  {
  }

  function MarkAllPaid(players: seq<Player>): (ps: seq<Player>)
    ensures |ps| == |players|
    ensures forall k :: 0 <= k < |ps| ==> ps[k] == players[k].(isPaid := true)
  {
    seq(|players|, k requires 0 <= k < |players| => players[k].(isPaid := true))
  }

  /** Marking everyone paid a second time changes nothing. */
  lemma MarkAllPaidIdempotent(players: seq<Player>)
    ensures MarkAllPaid(MarkAllPaid(players)) == MarkAllPaid(players)
  {
  }

  /** No two roster entries share an id. */
  predicate UniqueIds(players: seq<Player>) {
    forall i, j :: 0 <= i < j < |players| ==> players[i].id != players[j].id
  }

  predicate HasId(players: seq<Player>, id: PlayerId) {
    exists i :: 0 <= i < |players| && players[i].id == id
  }

  /** None of the per-player updates changes the order, the ids or the guest flags of the roster. */
  predicate SameShape(a: seq<Player>, b: seq<Player>) {
    |a| == |b| && forall k :: 0 <= k < |a| ==> a[k].id == b[k].id && a[k].isGuest == b[k].isGuest
  }
}

/** The billing derivation of the session engine (App.tsx:266-326): per-player costs
    (`playerDetails`), the head count the court fee is charged for (`playerCountForFee`)
    and the session totals (`summary`). Everything is pure. */
module Billing {
  import opened Wrappers
  import opened Domain
  import opened Records
  import opened Counters
  import Roster
  import Matches
  import Consumption

  /** `items.find(d => d.id === id)`: the first item with the id. */
  function FindItem(items: seq<CatalogItem>, id: string): (r: Option<CatalogItem>)
    ensures r.None? <==> forall i :: 0 <= i < |items| ==> items[i].id != id
    ensures r.Some? ==> exists i :: 0 <= i < |items| && items[i] == r.value && r.value.id == id &&
                                    forall j :: 0 <= j < i ==> items[j].id != id
  {
    if items == [] then None
    else if items[0].id == id then Some(items[0])
    else
      var rest := FindItem(items[1..], id);
      assert forall i :: 1 <= i < |items| ==> items[i] == items[1..][i - 1];
      rest
  }

  /** The price of the catalog item with the id; an id missing from the catalog costs 0. */
  function UnitPrice(items: seq<CatalogItem>, id: string): int {
    match FindItem(items, id)
    case Some(item) => item.price
    case None => 0
  }

  /** `drink ? drink.price * Number(quantity) : 0` for one `[drinkId, quantity]` entry. */
  function LineCost(items: seq<CatalogItem>, e: Entry): int {
    UnitPrice(items, e.key) * e.value
  }

  /** The `reduce` over `Object.entries(consumed)`, summing the line costs. */
  function ItemsCost(items: seq<CatalogItem>, r: Record): int {
    if r == [] then 0 else LineCost(items, r[0]) + ItemsCost(items, r[1..])
  }

  /** Assigning a count to a key moves the cost by the unit price times the change. */
  lemma {:induction false} ItemsCostPut(items: seq<CatalogItem>, r: Record, k: string, v: int)
    ensures ItemsCost(items, Put(r, k, v)) ==
            ItemsCost(items, r) - UnitPrice(items, k) * GetOr0(r, k) + UnitPrice(items, k) * v
  {
    if r != [] && r[0].key != k {
      ItemsCostPut(items, r[1..], k, v);
      assert ([r[0]] + Put(r[1..], k, v))[1..] == Put(r[1..], k, v);
    } else if r != [] {
      assert ([Entry(k, v)] + r[1..])[1..] == r[1..];
    }
  }

  /** Deleting a key that is absent changes nothing. */
  lemma {:induction false} DeleteAbsent(r: Record, k: string)
    requires !HasKey(r, k)
    ensures Delete(r, k) == r
  {
    if r != [] {
      assert !HasKey(r[1..], k) by {
        forall i | 0 <= i < |r| - 1 ensures r[1..][i].key != k { assert r[1..][i] == r[i + 1]; }
      }
      DeleteAbsent(r[1..], k);
    }
  }

  /** Deleting a key of a record with distinct keys drops exactly its line cost. */
  lemma {:induction false} ItemsCostDelete(items: seq<CatalogItem>, r: Record, k: string)
    requires UniqueKeys(r)
    ensures ItemsCost(items, Delete(r, k)) == ItemsCost(items, r) - UnitPrice(items, k) * GetOr0(r, k)
  {
    if r != [] {
      assert UniqueKeys(r[1..]) by {
        forall i, j | 0 <= i < j < |r| - 1 ensures r[1..][i].key != r[1..][j].key {
          assert r[1..][i] == r[i + 1] && r[1..][j] == r[j + 1];
        }
      }
      if r[0].key == k {
        assert !HasKey(r[1..], k) by {
          forall i | 0 <= i < |r| - 1 ensures r[1..][i].key != k { assert r[1..][i] == r[i + 1]; }
        }
        DeleteAbsent(r[1..], k);
      } else {
        ItemsCostDelete(items, r[1..], k);
        assert ([r[0]] + Delete(r[1..], k))[1..] == Delete(r[1..], k);
      }
    }
  }

  /** A consumption change moves the player's cost for that catalog by the unit price
      times the change of the stored count. */
  lemma ItemsCostUpdate(items: seq<CatalogItem>, r: Record, itemId: string, amount: int)
    requires UniqueKeys(r)
    ensures ItemsCost(items, Consumption.UpdateConsumption(r, itemId, amount)) ==
            ItemsCost(items, r) - UnitPrice(items, itemId) * GetOr0(r, itemId) +
            UnitPrice(items, itemId) * GetOr0(Consumption.UpdateConsumption(r, itemId, amount), itemId)
  {
    if GetOr0(r, itemId) + amount <= 0 {
      ItemsCostCleared(items, r, itemId, amount);
    } else {
      ItemsCostCounted(items, r, itemId, amount);
    }
  }

  lemma ItemsCostCleared(items: seq<CatalogItem>, r: Record, itemId: string, amount: int)
    requires UniqueKeys(r) && GetOr0(r, itemId) + amount <= 0
    ensures ItemsCost(items, Consumption.UpdateConsumption(r, itemId, amount)) ==
            ItemsCost(items, r) - UnitPrice(items, itemId) * GetOr0(r, itemId)
  {
    assert Consumption.UpdateConsumption(r, itemId, amount) == Delete(r, itemId);
    ItemsCostDelete(items, r, itemId);
  }

  lemma ItemsCostCounted(items: seq<CatalogItem>, r: Record, itemId: string, amount: int)
    requires GetOr0(r, itemId) + amount > 0
    ensures ItemsCost(items, Consumption.UpdateConsumption(r, itemId, amount)) ==
            ItemsCost(items, r) - UnitPrice(items, itemId) * GetOr0(r, itemId) +
            UnitPrice(items, itemId) * (GetOr0(r, itemId) + amount)
  {
    assert Consumption.UpdateConsumption(r, itemId, amount) == Put(r, itemId, GetOr0(r, itemId) + amount);
    ItemsCostPut(items, r, itemId, GetOr0(r, itemId) + amount);
  }

  /** The heads one roster entry pays court fee for: `quantity || 1` for the guest, one otherwise. */
  function Heads(p: Player): int {
    if p.isGuest then Roster.QuantityOr1(p.quantity) else 1
  }

  /** `courtFee`: COURT_FEE times `quantity || 1` for the guest, COURT_FEE otherwise. */
  function CourtFee(p: Player): int {
    if p.isGuest then COURT_FEE * Roster.QuantityOr1(p.quantity) else COURT_FEE
  }

  /** One element of `playerDetails`. */
  function Details(p: Player, drinks: seq<CatalogItem>, foods: seq<CatalogItem>,
                   wins: Record, losses: Record, fees: Record): (d: PlayerDetails)
    ensures d.player == p
    ensures d.totalCost == CourtFee(p) + d.drinksCost + d.foodCost + d.shuttlecockCost + p.adjustment.amount
    ensures d.drinksCost == ItemsCost(drinks, p.consumedDrinks) && d.foodCost == ItemsCost(foods, p.consumedFoods)
    ensures d.shuttlecockCost == GetOr0(fees, p.id)
    ensures d.wins == GetOr0(wins, p.id) && d.losses == GetOr0(losses, p.id)
  {
    var drinksCost := ItemsCost(drinks, p.consumedDrinks);
    var foodCost := ItemsCost(foods, p.consumedFoods);
    var shuttlecockCost := GetOr0(fees, p.id);
    PlayerDetails(p, CourtFee(p) + drinksCost + foodCost + shuttlecockCost + p.adjustment.amount,
                  GetOr0(wins, p.id), GetOr0(losses, p.id), drinksCost, foodCost, shuttlecockCost)
  }

  /** `playerDetails`: one entry per roster entry, in roster order. */
  function PlayerDetailsOf(players: seq<Player>, drinks: seq<CatalogItem>, foods: seq<CatalogItem>,
                           wins: Record, losses: Record, fees: Record): (ds: seq<PlayerDetails>)
    ensures |ds| == |players|
    ensures forall k :: 0 <= k < |ds| ==> ds[k] == Details(players[k], drinks, foods, wins, losses, fees)
  {
    if players == [] then []
    else [Details(players[0], drinks, foods, wins, losses, fees)] +
         PlayerDetailsOf(players[1..], drinks, foods, wins, losses, fees)
  }

  /** `playerCountForFee`: the `reduce` over the roster adding each entry's heads. */
  function PlayerCountForFee(players: seq<Player>): int {
    if players == [] then 0 else PlayerCountForFee(players[..|players| - 1]) + Heads(players[|players| - 1])
  }

  /** The accumulator of the `summary` reduce. */
  datatype Acc = Acc(drinks: int, food: int, shuttlecock: int, grand: int, paid: int)

  const ZERO: Acc := Acc(0, 0, 0, 0, 0)

  /** One step of the reduce: add the costs, and the total if the player has paid. */
  function AddDetails(acc: Acc, d: PlayerDetails): Acc {
    Acc(acc.drinks + d.drinksCost, acc.food + d.foodCost, acc.shuttlecock + d.shuttlecockCost,
        acc.grand + d.totalCost, if d.player.isPaid then acc.paid + d.totalCost else acc.paid)
  }

  /** `playerDetails.reduce(step, zero)`, from the first element on. */
  function Reduce(acc: Acc, ds: seq<PlayerDetails>): Acc
    decreases |ds|
  {
    if ds == [] then acc else Reduce(AddDetails(acc, ds[0]), ds[1..])
  }

  /** A column of `PlayerDetails` that the summary adds up. */
  datatype Column = DrinksCol | FoodCol | ShuttlecockCol | TotalCol

  function Cell(d: PlayerDetails, c: Column): int {
    match c
    case DrinksCol => d.drinksCost
    case FoodCol => d.foodCost
    case ShuttlecockCol => d.shuttlecockCost
    case TotalCol => d.totalCost
  }

  /** The sum of a column, as a reference for the reduce. */
  function Sum(ds: seq<PlayerDetails>, c: Column): int {
    if ds == [] then 0 else Cell(ds[0], c) + Sum(ds[1..], c)
  }

  /** The sum of the totals of the paid entries. */
  function PaidSum(ds: seq<PlayerDetails>): int {
    if ds == [] then 0 else (if ds[0].player.isPaid then ds[0].totalCost else 0) + PaidSum(ds[1..])
  }

  /** The reduce adds each column's sum to its starting accumulator. */
  lemma {:induction false} ReduceIsSum(acc: Acc, ds: seq<PlayerDetails>)
    ensures Reduce(acc, ds) == Acc(acc.drinks + Sum(ds, DrinksCol), acc.food + Sum(ds, FoodCol),
                                   acc.shuttlecock + Sum(ds, ShuttlecockCol), acc.grand + Sum(ds, TotalCol),
                                   acc.paid + PaidSum(ds))
    decreases |ds|
  {
    if ds != [] {
      ReduceIsSum(AddDetails(acc, ds[0]), ds[1..]);
    }
  }

  /** `summary`: the court fee for the head count, and each column's sum over the details. */
  function Summary(ds: seq<PlayerDetails>, countForFee: int): (s: LiveSummary)
    ensures s.totalCourtFee == countForFee * COURT_FEE
    ensures s.totalDrinksCost == Sum(ds, DrinksCol) && s.totalFoodCost == Sum(ds, FoodCol)
    ensures s.totalShuttlecockCost == Sum(ds, ShuttlecockCol)
    ensures s.grandTotal == Sum(ds, TotalCol) && s.totalPaid == PaidSum(ds)
  {
    var acc := Reduce(ZERO, ds);
    ReduceIsSum(ZERO, ds);
    LiveSummary(countForFee * COURT_FEE, acc.drinks, acc.food, acc.shuttlecock, acc.grand, acc.paid)
  }

  /** The live summary of a roster. */
  function LiveSummaryOf(players: seq<Player>, drinks: seq<CatalogItem>, foods: seq<CatalogItem>,
                         wins: Record, losses: Record, fees: Record): LiveSummary {
    Summary(PlayerDetailsOf(players, drinks, foods, wins, losses, fees), PlayerCountForFee(players))
  }

  /** The sum of the court fees of the roster entries, as a reference. */
  function CourtFeeSum(players: seq<Player>): int {
    if players == [] then 0 else CourtFee(players[0]) + CourtFeeSum(players[1..])
  }

  /** The sum of the adjustments of the roster entries. */
  function AdjustmentSum(players: seq<Player>): int {
    if players == [] then 0 else players[0].adjustment.amount + AdjustmentSum(players[1..])
  }

  lemma CourtFeeSumLast(players: seq<Player>)
    requires players != []
    ensures CourtFeeSum(players) == CourtFeeSum(players[..|players| - 1]) + CourtFee(players[|players| - 1])
  {
    CourtFeeSumAppend(players[..|players| - 1], players[|players| - 1]);
    assert players[..|players| - 1] + [players[|players| - 1]] == players;
  }

  lemma {:induction false} CourtFeeSumAppend(players: seq<Player>, p: Player)
    ensures CourtFeeSum(players + [p]) == CourtFeeSum(players) + CourtFee(p)
  {
    if players != [] {
      CourtFeeSumAppend(players[1..], p);
      assert (players + [p])[1..] == players[1..] + [p];
    }
  }

  /** `totalCourtFee = playerCountForFee * COURT_FEE` is the sum of the per-player court fees. */
  lemma {:induction false} TotalCourtFeeIsSum(players: seq<Player>)
    ensures PlayerCountForFee(players) * COURT_FEE == CourtFeeSum(players)
    decreases |players|
  {
    if players != [] {
      TotalCourtFeeIsSum(players[..|players| - 1]);
      CourtFeeSumLast(players);
    }
  }

  /** Over the details of a roster, the total column is the sum of its parts. */
  lemma {:induction false} TotalsAdd(players: seq<Player>, drinks: seq<CatalogItem>, foods: seq<CatalogItem>,
                                     wins: Record, losses: Record, fees: Record)
    ensures var ds := PlayerDetailsOf(players, drinks, foods, wins, losses, fees);
      Sum(ds, TotalCol) == CourtFeeSum(players) + Sum(ds, DrinksCol) + Sum(ds, FoodCol) +
                           Sum(ds, ShuttlecockCol) + AdjustmentSum(players)
  {
    if players != [] {
      TotalsAdd(players[1..], drinks, foods, wins, losses, fees);
    }
  }

  /** The grand total splits into court fees, drinks, food, shuttlecock fees and adjustments. */
  lemma GrandTotalSplits(players: seq<Player>, drinks: seq<CatalogItem>, foods: seq<CatalogItem>,
                         wins: Record, losses: Record, fees: Record)
    ensures var s := LiveSummaryOf(players, drinks, foods, wins, losses, fees);
      s.grandTotal == s.totalCourtFee + s.totalDrinksCost + s.totalFoodCost + s.totalShuttlecockCost +
                      AdjustmentSum(players)
  {
    TotalsAdd(players, drinks, foods, wins, losses, fees);
    TotalCourtFeeIsSum(players);
  }

  /** When every entry has paid, the paid total is the grand total. */
  lemma {:induction false} AllPaidSum(ds: seq<PlayerDetails>)
    requires forall k :: 0 <= k < |ds| ==> ds[k].player.isPaid
    ensures PaidSum(ds) == Sum(ds, TotalCol)
  {
    if ds != [] {
      AllPaidSum(ds[1..]);
    }
  }

  /** When no entry has paid, nothing is paid. */
  lemma {:induction false} NonePaidSum(ds: seq<PlayerDetails>)
    requires forall k :: 0 <= k < |ds| ==> !ds[k].player.isPaid
    ensures PaidSum(ds) == 0
  {
    if ds != [] {
      NonePaidSum(ds[1..]);
    }
  }

  /** After `markAllPaid` the paid total of the live summary equals its grand total. */
  lemma MarkAllPaidSettles(players: seq<Player>, drinks: seq<CatalogItem>, foods: seq<CatalogItem>,
                           wins: Record, losses: Record, fees: Record)
    ensures var s := LiveSummaryOf(Roster.MarkAllPaid(players), drinks, foods, wins, losses, fees);
      s.totalPaid == s.grandTotal
  {
    AllPaidSum(PlayerDetailsOf(Roster.MarkAllPaid(players), drinks, foods, wins, losses, fees));
  }

  /** A roster nobody has paid for shows nothing paid. */
  lemma NothingPaidYet(players: seq<Player>, drinks: seq<CatalogItem>, foods: seq<CatalogItem>,
                       wins: Record, losses: Record, fees: Record)
    requires forall k :: 0 <= k < |players| ==> !players[k].isPaid
    ensures LiveSummaryOf(players, drinks, foods, wins, losses, fees).totalPaid == 0
  {
    NonePaidSum(PlayerDetailsOf(players, drinks, foods, wins, losses, fees));
  }

  /** The shuttlecock column, read straight from the fee ledger. */
  function FeeSum(players: seq<Player>, fees: Record): int {
    if players == [] then 0 else GetOr0(fees, players[0].id) + FeeSum(players[1..], fees)
  }

  lemma {:induction false} ShuttlecockColumnIsFeeSum(players: seq<Player>, drinks: seq<CatalogItem>,
                                                     foods: seq<CatalogItem>, wins: Record, losses: Record, fees: Record)
    ensures Sum(PlayerDetailsOf(players, drinks, foods, wins, losses, fees), ShuttlecockCol) == FeeSum(players, fees)
  {
    if players != [] {
      ShuttlecockColumnIsFeeSum(players[1..], drinks, foods, wins, losses, fees);
    }
  }

  /** One fee increment reaches exactly the one roster entry with that id. */
  lemma {:induction false} FeeSumStep(players: seq<Player>, fees: Record, id: PlayerId, delta: int)
    requires Roster.UniqueIds(players) && Roster.HasId(players, id)
    ensures FeeSum(players, Step(fees, id, delta)) == FeeSum(players, fees) + delta
  {
    StepGet(fees, id, delta, players[0].id);
    if players[0].id == id {
      FeeSumUntouched(players[1..], fees, id, delta);
    } else {
      assert Roster.HasId(players[1..], id) by {
        var i :| 0 <= i < |players| && players[i].id == id;
        assert players[1..][i - 1].id == id;
      }
      FeeSumStep(players[1..], fees, id, delta);
    }
  }

  lemma {:induction false} FeeSumUntouched(players: seq<Player>, fees: Record, id: PlayerId, delta: int)
    requires forall k :: 0 <= k < |players| ==> players[k].id != id
    ensures FeeSum(players, Step(fees, id, delta)) == FeeSum(players, fees)
  {
    if players != [] {
      StepGet(fees, id, delta, players[0].id);
      FeeSumUntouched(players[1..], fees, id, delta);
    }
  }

  /** Charging a list of roster ids moves the fee column by delta per id. */
  lemma {:induction false} FeeSumBump(players: seq<Player>, fees: Record, ids: seq<PlayerId>, delta: int)
    requires Roster.UniqueIds(players)
    requires forall k :: 0 <= k < |ids| ==> Roster.HasId(players, ids[k])
    ensures FeeSum(players, Bump(fees, ids, delta)) == FeeSum(players, fees) + Times(|ids|, delta)
    decreases |ids|
  {
    if ids != [] {
      FeeSumBump(players, fees, ids[..|ids| - 1], delta);
      FeeSumStep(players, Bump(fees, ids[..|ids| - 1], delta), ids[|ids| - 1], delta);
    }
  }

  /** A decided match raises the session's shuttlecock total by exactly
      SHUTTLECOCK_FEE_PER_MATCH, when its one or two losers are on the roster. */
  lemma DecidedMatchAddsFee(players: seq<Player>, drinks: seq<CatalogItem>, foods: seq<CatalogItem>,
                            wins: Record, losses: Record, fees: Record, loserIds: seq<PlayerId>)
    requires Roster.UniqueIds(players)
    requires 1 <= |loserIds| <= 2
    requires forall k :: 0 <= k < |loserIds| ==> Roster.HasId(players, loserIds[k])
    ensures LiveSummaryOf(players, drinks, foods, wins, losses, Matches.FeesAfter(fees, loserIds)).totalShuttlecockCost ==
            LiveSummaryOf(players, drinks, foods, wins, losses, fees).totalShuttlecockCost + SHUTTLECOCK_FEE_PER_MATCH
  {
    ShuttlecockColumnIsFeeSum(players, drinks, foods, wins, losses, fees);
    ShuttlecockColumnIsFeeSum(players, drinks, foods, wins, losses, Matches.FeesAfter(fees, loserIds));
    FeeSumBump(players, fees, loserIds, Matches.FeeShare(|loserIds|));
    Matches.FeeShareExact(|loserIds|);
  }
}

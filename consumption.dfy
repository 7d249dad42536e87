/** The per-item counters of a player's drinks and foods (App.tsx:524-560). */
module Consumption {
  import opened Records

  /** `handleUpdateDrink` / `handleUpdateFood` on one record: the count moves by `amount`,
      floors at zero, and a zero count removes the key. */
  function UpdateConsumption(r: Record, itemId: string, amount: int): (r': Record)
    ensures GetOr0(r', itemId) == if GetOr0(r, itemId) + amount > 0 then GetOr0(r, itemId) + amount else 0
    ensures GetOr0(r, itemId) + amount <= 0 <==> !HasKey(r', itemId)
    ensures forall k :: k != itemId ==> Get(r', k) == Get(r, k)
  {
    var q := GetOr0(r, itemId) + amount;
    var nq := if q > 0 then q else 0;
    if nq == 0 then Delete(r, itemId) else Put(r, itemId, nq)
  }

  /** The consumption record keeps distinct keys and only positive counts. */
  lemma UpdateConsumptionKeepsShape(r: Record, itemId: string, amount: int)
    requires UniqueKeys(r) && AllPositive(r)
    ensures UniqueKeys(UpdateConsumption(r, itemId, amount)) && AllPositive(UpdateConsumption(r, itemId, amount))
  {
    if GetOr0(r, itemId) + amount <= 0 {
      ClearedKeepsShape(r, itemId, amount);
    } else {
      CountedKeepsShape(r, itemId, amount);
    }
  }

  lemma ClearedKeepsShape(r: Record, itemId: string, amount: int)
    requires UniqueKeys(r) && AllPositive(r)
    requires GetOr0(r, itemId) + amount <= 0
    ensures UniqueKeys(UpdateConsumption(r, itemId, amount)) && AllPositive(UpdateConsumption(r, itemId, amount))
  {
    assert UpdateConsumption(r, itemId, amount) == Delete(r, itemId);
    DeleteKeepsShape(r, itemId);
  }

  lemma CountedKeepsShape(r: Record, itemId: string, amount: int)
    requires UniqueKeys(r) && AllPositive(r)
    requires GetOr0(r, itemId) + amount > 0
    ensures UniqueKeys(UpdateConsumption(r, itemId, amount)) && AllPositive(UpdateConsumption(r, itemId, amount))
  {
    var q := GetOr0(r, itemId) + amount;
    assert UpdateConsumption(r, itemId, amount) == Put(r, itemId, q);
    PutUnique(r, itemId, q);
    PutPositive(r, itemId, q);
  }

  /** Pressing '+' then '-' (or any amount and its opposite, while the count does not hit
      zero) restores the count of every item. */
  lemma UpdateConsumptionUndo(r: Record, itemId: string, amount: int, k: string)
    requires GetOr0(r, itemId) >= 0 && GetOr0(r, itemId) + amount > 0
    ensures GetOr0(UpdateConsumption(UpdateConsumption(r, itemId, amount), itemId, -amount), k) == GetOr0(r, k)
  {
    var r1 := UpdateConsumption(r, itemId, amount);
    var r2 := UpdateConsumption(r1, itemId, -amount);
    assert GetOr0(r1, itemId) == GetOr0(r, itemId) + amount;
    if k != itemId {
      assert Get(r2, k) == Get(r1, k) == Get(r, k);
    }
  }
}

/** Incrementing counters of a record for a list of ids, as the result handlers of a
    match do with `ids.forEach(id => r[id] = (r[id] || 0) + delta)`. */
module Counters {
  import opened Records

  /** One increment: `r[id] = (r[id] || 0) + delta`. */
  function Step(r: Record, id: string, delta: int): Record {
    Put(r, id, GetOr0(r, id) + delta)
  }

  /** The `forEach` over the ids, unfolded from the last id. */
  function Bump(r: Record, ids: seq<string>, delta: int): Record
    decreases |ids|
  {
    if ids == [] then r else Step(Bump(r, ids[..|ids| - 1], delta), ids[|ids| - 1], delta)
  }

  /** `n` additions of `d`, as a `forEach` of `n` increments performs them. */
  function Times(n: nat, d: int): int {
    if n == 0 then 0 else Times(n - 1, d) + d
  }

  /** One increment moves its own key by delta and no other key. */
  lemma StepGet(r: Record, id: string, delta: int, k: string)
    ensures GetOr0(Step(r, id, delta), k) == GetOr0(r, k) + (if k == id then delta else 0)
  {
  }

  /** One increment moves the sum by delta. */
  lemma StepTotal(r: Record, id: string, delta: int)
    ensures Total(Step(r, id, delta)) == Total(r) + delta
  {
    PutTotal(r, id, GetOr0(r, id) + delta);
  }

  lemma CountLast(ids: seq<string>, k: string)
    requires ids != []
    ensures multiset(ids)[k] == multiset(ids[..|ids| - 1])[k] + (if k == ids[|ids| - 1] then 1 else 0)
  {
    assert ids == ids[..|ids| - 1] + [ids[|ids| - 1]];
  }

  /** Every key moves by delta once per occurrence in the list. */
  lemma {:induction false} BumpCount(r: Record, ids: seq<string>, delta: int, k: string)
    ensures GetOr0(Bump(r, ids, delta), k) == GetOr0(r, k) + Times(multiset(ids)[k], delta)
    decreases |ids|
  {
    if ids != [] {
      var init, last := ids[..|ids| - 1], ids[|ids| - 1];
      BumpCount(r, init, delta, k);
      StepGet(Bump(r, init, delta), last, delta, k);
      CountLast(ids, k);
    }
  }

  /** The sum of all values grows by delta per id. */
  lemma {:induction false} BumpTotal(r: Record, ids: seq<string>, delta: int)
    ensures Total(Bump(r, ids, delta)) == Total(r) + Times(|ids|, delta)
    decreases |ids|
  {
    if ids != [] {
      var init, last := ids[..|ids| - 1], ids[|ids| - 1];
      BumpTotal(r, init, delta);
      StepTotal(Bump(r, init, delta), last, delta);
    }
  }

  /** In a list without repetitions every id occurs once. */
  lemma {:induction false} CountDistinct(ids: seq<string>, k: string)
    requires forall i, j :: 0 <= i < j < |ids| ==> ids[i] != ids[j]
    requires k in ids
    ensures multiset(ids)[k] == 1
  {
    var init := ids[..|ids| - 1];
    CountLast(ids, k);
    if k == ids[|ids| - 1] {
      assert k !in init;
    } else {
      assert k in init by { var i :| 0 <= i < |ids| && ids[i] == k; assert init[i] == k; }
      CountDistinct(init, k);
    }
  }

  /** The `ids.forEach(id => { r[id] = (r[id] || 0) + delta; })` loop on a copy of the record. */
  method Increment(r: Record, ids: seq<string>, delta: int) returns (out: Record)
    ensures out == Bump(r, ids, delta)
  {
    out := r;
    var i := 0;
    while i < |ids|
      invariant 0 <= i <= |ids|
      invariant out == Bump(r, ids[..i], delta)
    {
      assert ids[..i + 1][..i] == ids[..i];
      out := Put(out, ids[i], GetOr0(out, ids[i]) + delta);
      i := i + 1;
    }
    assert ids[..i] == ids;
  }
}

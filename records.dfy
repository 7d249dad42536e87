/** A JavaScript object used as a string-keyed counter (`Record<string, number>`),
    kept in insertion order so that `Object.entries` can be folded over it.
    Assigning to an existing key keeps its position; a new key goes last;
    `delete` removes the key. */
module Records {
  import opened Wrappers

  datatype Entry = Entry(key: string, value: int)

  type Record = seq<Entry>

  predicate HasKey(r: Record, k: string) {
    exists i :: 0 <= i < |r| && r[i].key == k
  }

  predicate UniqueKeys(r: Record) {
    forall i, j :: 0 <= i < j < |r| ==> r[i].key != r[j].key
  }

  /** Every stored count is positive (zero counts are deleted, never stored). */
  predicate AllPositive(r: Record) {
    forall i :: 0 <= i < |r| ==> r[i].value > 0
  }

  /** `r[k]`: the value of the key, or None for `undefined`. */
  function Get(r: Record, k: string): (v: Option<int>)
    ensures v.None? <==> !HasKey(r, k)
  {
    if r == [] then None
    else if r[0].key == k then Some(r[0].value)
    else
      assert HasKey(r, k) <==> HasKey(r[1..], k) by {
        if HasKey(r, k) { var i :| 0 <= i < |r| && r[i].key == k; assert r[1..][i - 1].key == k; }
        if HasKey(r[1..], k) { var i :| 0 <= i < |r| - 1 && r[1..][i].key == k; assert r[i + 1].key == k; }
      }
      Get(r[1..], k)
  }

  /** `r[k] || 0`. */
  function GetOr0(r: Record, k: string): int {
    Get(r, k).GetOr(0)
  }

  /** `r[k] = v`. */
  function Put(r: Record, k: string, v: int): (r': Record)
    ensures Get(r', k) == Some(v)
    ensures forall k' :: k' != k ==> Get(r', k') == Get(r, k')
  {
    if r == [] then [Entry(k, v)]
    else if r[0].key == k then [Entry(k, v)] + r[1..]
    else [r[0]] + Put(r[1..], k, v)
  }

  /** `delete r[k]`. */
  function Delete(r: Record, k: string): (r': Record)
    ensures Get(r', k) == None
    ensures forall k' :: k' != k ==> Get(r', k') == Get(r, k')
  {
    if r == [] then []
    else if r[0].key == k then Delete(r[1..], k)
    else [r[0]] + Delete(r[1..], k)
  }

  /** An assignment changes only the entry of its key, or appends one. */
  lemma {:induction false} PutEntries(r: Record, k: string, v: int)
    ensures forall e :: e in Put(r, k, v) ==> e == Entry(k, v) || e in r
    ensures !HasKey(r, k) ==> Put(r, k, v) == r + [Entry(k, v)]
  {
    if r != [] && r[0].key != k {
      PutEntries(r[1..], k, v);
      assert Get(r, k) == Get(r[1..], k);
    }
  }

  /** An assignment keeps the keys distinct. */
  lemma {:induction false} PutUnique(r: Record, k: string, v: int)
    requires UniqueKeys(r)
    ensures UniqueKeys(Put(r, k, v))
  {
    if r != [] && r[0].key != k {
      PutUnique(r[1..], k, v);
      PutEntries(r[1..], k, v);
      var t := Put(r[1..], k, v);
      assert forall e :: e in r[1..] ==> e.key != r[0].key by {
        forall e | e in r[1..] ensures e.key != r[0].key {
          var j :| 0 <= j < |r| - 1 && r[1..][j] == e;
          assert r[j + 1] == e;
        }
      }
      forall i, j | 0 <= i < j < |t| + 1 ensures ([r[0]] + t)[i].key != ([r[0]] + t)[j].key {
        if i == 0 { assert ([r[0]] + t)[j] == t[j - 1]; assert t[j - 1] in t; }
      }
    }
  }

  /** An assignment of a positive value keeps all counts positive. */
  lemma PutPositive(r: Record, k: string, v: int)
    requires AllPositive(r) && v > 0
    ensures AllPositive(Put(r, k, v))
  {
    PutEntries(r, k, v);
    var t := Put(r, k, v);
    forall i | 0 <= i < |t| ensures t[i].value > 0 { assert t[i] in t; }
  }

  /** A deletion keeps the keys distinct and the counts positive. */
  lemma {:induction false} DeleteKeepsShape(r: Record, k: string)
    ensures forall e :: e in Delete(r, k) ==> e in r
    ensures UniqueKeys(r) ==> UniqueKeys(Delete(r, k))
    ensures AllPositive(r) ==> AllPositive(Delete(r, k))
  {
    if r != [] {
      DeleteKeepsShape(r[1..], k);
      var t := Delete(r[1..], k);
      if r[0].key != k && UniqueKeys(r) {
        assert forall e :: e in t ==> e.key != r[0].key by {
          forall e | e in t ensures e.key != r[0].key {
            assert e in r[1..];
            var j :| 0 <= j < |r| - 1 && r[1..][j] == e;
            assert r[j + 1] == e;
          }
        }
        assert UniqueKeys([r[0]] + t) by {
          forall i, j | 0 <= i < j < |t| + 1 ensures ([r[0]] + t)[i].key != ([r[0]] + t)[j].key {
            if i == 0 { assert ([r[0]] + t)[j] == t[j - 1]; assert t[j - 1] in t; }
          }
        }
      }
    }
  }

  /** The sum of all stored values. */
  function Total(r: Record): int {
    if r == [] then 0 else r[0].value + Total(r[1..])
  }

  /** An assignment moves the sum by the difference between the new and the old value. */
  lemma {:induction false} PutTotal(r: Record, k: string, v: int)
    ensures Total(Put(r, k, v)) == Total(r) - GetOr0(r, k) + v
  {
    if r != [] && r[0].key != k {
      PutTotal(r[1..], k, v);
      assert ([r[0]] + Put(r[1..], k, v))[1..] == Put(r[1..], k, v);
    } else if r != [] {
      assert ([Entry(k, v)] + r[1..])[1..] == r[1..];
    }
  }
}

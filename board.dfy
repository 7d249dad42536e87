/** The court board of the session engine (App.tsx:354-417, 608-621, 671-681, 447-455):
    pure specifications of what each assignment handler does to the slot map. */
module Board {
  import opened Wrappers
  import opened Domain
  import Courts
  import Sequences
  import Roster

  /** Slot exclusivity: a player id is held by at most one slot. */
  predicate Exclusive(m: Assignments) {
    forall s1, s2 :: s1 in m && s2 in m && m[s1].Some? && m[s1] == m[s2] ==> s1 == s2
  }

  /** `assignedPlayerIds`: every non-null slot value. */
  function AssignedIds(m: Assignments): set<PlayerId> {
    set s | s in m && m[s].Some? :: m[s].value
  }

  /** `unassignedPlayers`: roster players, in roster order, that are neither the guest nor on a slot. */
  function Unassigned(players: seq<Player>, m: Assignments): (r: seq<Player>)
    ensures |r| <= |players|
    ensures forall p :: p in r <==> p in players && !p.isGuest && p.id !in AssignedIds(m)
  {
    if players == [] then []
    else
      var rest := Unassigned(players[1..], m);
      assert forall p :: p in players <==> p == players[0] || p in players[1..];
      if !players[0].isGuest && players[0].id !in AssignedIds(m) then [players[0]] + rest else rest
  }

  /** The queue keeps roster order: filtering a concatenation filters each part. */
  lemma {:induction false} UnassignedAppend(a: seq<Player>, b: seq<Player>, m: Assignments)
    ensures Unassigned(a + b, m) == Unassigned(a, m) + Unassigned(b, m)
    decreases |a|
  {
    if a == [] {
      assert a + b == b;
    } else {
      assert (a + b)[0] == a[0];
      assert (a + b)[1..] == a[1..] + b;
      UnassignedAppend(a[1..], b, m);
    }
  }

  /** With no guest and nobody seated, the queue is the whole roster in roster order. */
  lemma {:induction false} UnassignedAllFree(players: seq<Player>, m: Assignments)
    requires forall k :: 0 <= k < |players| ==> !players[k].isGuest && players[k].id !in AssignedIds(m)
    ensures Unassigned(players, m) == players
  {
    if players != [] {
      assert forall k :: 0 <= k < |players[1..]| ==> players[1..][k] == players[k + 1];
      UnassignedAllFree(players[1..], m);
      Sequences.HeadTail(players);
    }
  }

  function Ids(ps: seq<Player>): (ids: seq<PlayerId>)
    ensures |ids| == |ps| && forall k :: 0 <= k < |ps| ==> ids[k] == ps[k].id
  {
    seq(|ps|, k requires 0 <= k < |ps| => ps[k].id)
  }

  predicate Distinct<T(==)>(xs: seq<T>) {
    forall i, j :: 0 <= i < j < |xs| ==> xs[i] != xs[j]
  }

  /** On a roster with unique ids the auto-fill queue holds no id twice, and none of its
      ids is already on the board. */
  lemma UnassignedQueue(players: seq<Player>, m: Assignments)
    requires Roster.UniqueIds(players)
    ensures Distinct(Ids(Unassigned(players, m)))
    ensures forall k :: 0 <= k < |Unassigned(players, m)| ==> Unassigned(players, m)[k].id !in AssignedIds(m)
  {
    var u := Unassigned(players, m);
    forall k | 0 <= k < |u| ensures u[k].id !in AssignedIds(m) { assert u[k] in u; }
    UnassignedUnique(players, m);
    forall i, j | 0 <= i < j < |u| ensures Ids(u)[i] != Ids(u)[j] { }
  }

  lemma {:induction false} UnassignedUnique(players: seq<Player>, m: Assignments)
    requires Roster.UniqueIds(players)
    ensures Roster.UniqueIds(Unassigned(players, m))
  {
    if players != [] {
      var rest := players[1..];
      TailUnique(players);
      UnassignedUnique(rest, m);
      var tail := Unassigned(rest, m);
      if !players[0].isGuest && players[0].id !in AssignedIds(m) {
        HeadNotInTail(players, tail);
        ConsUnique(players[0], tail);
      }
    }
  }

  lemma TailUnique(players: seq<Player>)
    requires players != [] && Roster.UniqueIds(players)
    ensures Roster.UniqueIds(players[1..])
  {
    var rest := players[1..];
    forall i, j | 0 <= i < j < |rest| ensures rest[i].id != rest[j].id {
      assert rest[i] == players[i + 1] && rest[j] == players[j + 1];
    }
  }

  lemma HeadNotInTail(players: seq<Player>, tail: seq<Player>)
    requires players != [] && Roster.UniqueIds(players)
    requires forall p :: p in tail ==> p in players[1..]
    ensures forall j :: 0 <= j < |tail| ==> tail[j].id != players[0].id
  {
    forall j | 0 <= j < |tail| ensures tail[j].id != players[0].id {
      assert tail[j] in tail;
      var i :| 0 <= i < |players[1..]| && players[1..][i] == tail[j];
      assert players[i + 1] == tail[j];
    }
  }

  lemma ConsUnique(h: Player, tail: seq<Player>)
    requires Roster.UniqueIds(tail)
    requires forall j :: 0 <= j < |tail| ==> tail[j].id != h.id
    ensures Roster.UniqueIds([h] + tail)
  {
    var l := [h] + tail;
    forall i, j | 0 <= i < j < |l| ensures l[i].id != l[j].id {
      assert l[j] == tail[j - 1];
      if i > 0 { assert l[i] == tail[i - 1]; }
    }
  }

  /** `handleAssignPlayer`: the player's previous slot (if any) becomes null, then the
      target slot holds the player, silently displacing its occupant. */
  function Assign(m: Assignments, p: PlayerId, s: Slot): (r: Assignments)
    ensures r.Keys == m.Keys + {s}
    ensures r[s] == Some(p)
    ensures forall k :: k in m && k != s && m[k] == Some(p) ==> r[k] == None
    ensures forall k :: k in m && k != s && m[k] != Some(p) ==> r[k] == m[k]
  {
    map k | k in m.Keys + {s} :: if k == s then Some(p) else if m[k] == Some(p) then None else m[k]
  }

  /** Ids read from distinct slots of an exclusive board are distinct. */
  lemma DistinctBySeats(m: Assignments, seats: seq<Slot>, ids: seq<PlayerId>)
    requires Exclusive(m) && Distinct(seats) && |seats| == |ids|
    requires forall k :: 0 <= k < |seats| ==> seats[k] in m && m[seats[k]] == Some(ids[k])
    ensures Distinct(ids)
  {
    forall i, j | 0 <= i < j < |ids| ensures ids[i] != ids[j] {
      assert seats[i] != seats[j];
    }
  }

  /** After an assignment the player occupies exactly the target slot, and the board stays exclusive. */
  lemma AssignPlacesOnce(m: Assignments, p: PlayerId, s: Slot)
    requires Exclusive(m)
    ensures Exclusive(Assign(m, p, s))
    ensures forall k :: k in Assign(m, p, s) && Assign(m, p, s)[k] == Some(p) ==> k == s
  {
  }

  /** A slot the auto-fill may use: its value is `null` or `undefined`. */
  predicate IsOpen(m: Assignments, s: Slot) {
    s !in m || m[s].None?
  }

  /** The slots of a court in board order: A-0, A-1, B-0, B-1 (singles: A-0, B-0). */
  function CourtSlots(c: CourtIndex, gt: GameType): (slots: seq<Slot>)
    ensures |slots| == (if gt == Singles then 2 else 4)
    ensures forall s :: s in slots ==> s.court == c && (gt == Singles ==> s.seat == First)
    ensures Distinct(slots)
  {
    Courts.TeamSlots(c, A, gt) + Courts.TeamSlots(c, B, gt)
  }

  /** Every seat a court of that type has is visited. */
  lemma CourtSlotsCover(c: CourtIndex, gt: GameType, s: Slot)
    requires s.court == c && (gt == Singles ==> s.seat == First)
    ensures s in CourtSlots(c, gt)
  {
    var slots := CourtSlots(c, gt);
    match s
    case Slot(_, A, First) => assert s == slots[0];
    case Slot(_, A, Second) => assert s == slots[1];
    case Slot(_, B, First) => assert s == slots[if gt == Singles then 1 else 2];
    case Slot(_, B, Second) => assert s == slots[3];
  }

  /** Each court's slots in board order, courts 0..6. */
  function CourtOrders(types: map<CourtIndex, GameType>): (r: seq<seq<Slot>>)
    ensures |r| == NUM_COURTS
    ensures forall c :: 0 <= c < NUM_COURTS ==> r[c] == CourtSlots(c, Courts.GameTypeOf(types, c))
  {
    seq(NUM_COURTS, c requires 0 <= c < NUM_COURTS => CourtSlots(c, Courts.GameTypeOf(types, c)))
  }

  /** The lists one after the other. */
  function Flatten(lists: seq<seq<Slot>>): seq<Slot> {
    if lists == [] then [] else lists[0] + Flatten(lists[1..])
  }

  /** The slots the auto-fill visits, courts `from`..6 in order. */
  function OrderFrom(types: map<CourtIndex, GameType>, from: int): seq<Slot>
    requires 0 <= from <= NUM_COURTS
  {
    Flatten(CourtOrders(types)[from..])
  }

  /** The visit order from a court is that court's slots, then the courts after it. */
  lemma OrderFromCourt(types: map<CourtIndex, GameType>, i: CourtIndex)
    ensures OrderFrom(types, i) == CourtSlots(i, Courts.GameTypeOf(types, i)) + OrderFrom(types, i + 1)
  {
    var lists := CourtOrders(types);
    assert lists[i..][0] == lists[i];
    assert lists[i..][1..] == lists[i + 1..];
  }

  /** Past the last court nothing is left to visit. */
  lemma OrderFromEnd(types: map<CourtIndex, GameType>)
    ensures OrderFrom(types, NUM_COURTS) == []
  {
    assert CourtOrders(types)[NUM_COURTS..] == [];
  }

  /** The visit order lists every slot once, courts in increasing order. */
  lemma {:induction false} OrderFromShape(types: map<CourtIndex, GameType>, from: int)
    requires 0 <= from <= NUM_COURTS
    ensures forall s :: s in OrderFrom(types, from) ==> s.court >= from
    ensures Distinct(OrderFrom(types, from))
    decreases NUM_COURTS - from
  {
    if from == NUM_COURTS {
      OrderFromEnd(types);
    } else {
      OrderFromShape(types, from + 1);
      OrderFromCourt(types, from);
      var head: seq<Slot> := CourtSlots(from, Courts.GameTypeOf(types, from));
      var tail: seq<Slot> := OrderFrom(types, from + 1);
      forall i, j | 0 <= i < |head| <= j < |head| + |tail| ensures (head + tail)[i].court < (head + tail)[j].court {
        assert (head + tail)[i] in head;
        assert (head + tail)[j] == tail[j - |head|] && tail[j - |head|] in tail;
      }
    }
  }

  /** The greedy fill of `handleAutoAssign`: visit the slots in order, put the next available
      player into each open slot, stop when no player is left. */
  function Fill(m: Assignments, slots: seq<Slot>, avail: seq<PlayerId>): Assignments
    decreases |slots|
  {
    if slots == [] || avail == [] then m
    else if IsOpen(m, slots[0]) then Fill(m[slots[0] := Some(avail[0])], slots[1..], avail[1..])
    else Fill(m, slots[1..], avail)
  }

  /** The open slots among `slots`, in order. */
  function OpenSlots(m: Assignments, slots: seq<Slot>): (r: seq<Slot>)
    ensures forall s :: s in r ==> s in slots && IsOpen(m, s)
    ensures forall s :: s in slots && IsOpen(m, s) ==> s in r
  {
    if slots == [] then []
    else if IsOpen(m, slots[0]) then [slots[0]] + OpenSlots(m, slots[1..])
    else OpenSlots(m, slots[1..])
  }

  /** OpenSlots keeps the visiting order: it distributes over concatenation. */
  lemma {:induction false} OpenSlotsAppend(m: Assignments, a: seq<Slot>, b: seq<Slot>)
    ensures OpenSlots(m, a + b) == OpenSlots(m, a) + OpenSlots(m, b)
    decreases |a|
  {
    if a == [] {
      assert a + b == b;
    } else {
      assert (a + b)[0] == a[0];
      assert (a + b)[1..] == a[1..] + b;
      OpenSlotsAppend(m, a[1..], b);
    }
  }

  predicate SameAt(r: Assignments, m: Assignments, s: Slot) {
    (s in r <==> s in m) && (s in m ==> r[s] == m[s])
  }

  /** The seat held a player in `m` and holds null in `r`. */
  predicate Nulled(r: Assignments, m: Assignments, s: Slot) {
    s in m && Truthy(m[s]) && s in r && r[s] == None
  }

  /** The fill touches only the slots it visits. */
  lemma {:induction false} FillOutside(m: Assignments, slots: seq<Slot>, avail: seq<PlayerId>, s: Slot)
    requires s !in slots
    ensures SameAt(Fill(m, slots, avail), m, s)
    decreases |slots|
  {
    if slots != [] && avail != [] {
      if IsOpen(m, slots[0]) {
        FillOutside(m[slots[0] := Some(avail[0])], slots[1..], avail[1..], s);
      } else {
        FillOutside(m, slots[1..], avail, s);
      }
    }
  }

  /** An occupied slot is never overwritten. */
  lemma {:induction false} FillKeepsOccupied(m: Assignments, slots: seq<Slot>, avail: seq<PlayerId>, s: Slot)
    requires !IsOpen(m, s)
    ensures SameAt(Fill(m, slots, avail), m, s)
    decreases |slots|
  {
    if slots != [] && avail != [] {
      if IsOpen(m, slots[0]) {
        FillKeepsOccupied(m[slots[0] := Some(avail[0])], slots[1..], avail[1..], s);
      } else {
        FillKeepsOccupied(m, slots[1..], avail, s);
      }
    }
  }

  lemma {:induction false} OpenSlotsIgnoreOthers(m: Assignments, slots: seq<Slot>, s: Slot, v: Option<PlayerId>)
    requires s !in slots
    ensures OpenSlots(m[s := v], slots) == OpenSlots(m, slots)
  {
    if slots != [] {
      OpenSlotsIgnoreOthers(m, slots[1..], s, v);
    }
  }

  /** The k-th open slot after the fill: it holds the k-th player if there is one, else it is unchanged. */
  predicate FilledAt(r: Assignments, m: Assignments, s: Slot, avail: seq<PlayerId>, k: nat) {
    (k < |avail| ==> s in r && r[s] == Some(avail[k])) && (k >= |avail| ==> SameAt(r, m, s))
  }

  /** The k-th open slot receives the k-th available player while players last; the open
      slots beyond the supply stay as they were. So the number of slots filled is
      min(|avail|, number of open slots). */
  lemma {:induction false} FillFillsOpenSlots(m: Assignments, slots: seq<Slot>, avail: seq<PlayerId>)
    requires Distinct(slots)
    ensures forall k :: 0 <= k < |OpenSlots(m, slots)| ==>
      FilledAt(Fill(m, slots, avail), m, OpenSlots(m, slots)[k], avail, k)
    decreases |slots|
  {
    if slots != [] {
      var s, rest := slots[0], slots[1..];
      assert Distinct(rest) by { forall i, j | 0 <= i < j < |rest| ensures rest[i] != rest[j] { assert slots[i + 1] == rest[i]; } }
      assert s !in rest by { forall j | 0 <= j < |rest| ensures rest[j] != s { assert slots[j + 1] == rest[j]; } }
      if avail == [] {
      } else if IsOpen(m, s) {
        var m' := m[s := Some(avail[0])];
        FillFillsOpenSlots(m', rest, avail[1..]);
        OpenSlotsIgnoreOthers(m, rest, s, Some(avail[0]));
        FillOutside(m', rest, avail[1..], s);
        var r, es := Fill(m, slots, avail), OpenSlots(m, slots);
        assert es == [s] + OpenSlots(m', rest);
        forall k | 0 <= k < |es| ensures FilledAt(r, m, es[k], avail, k) {
          if k > 0 {
            assert es[k] == OpenSlots(m', rest)[k - 1];
            assert es[k] != s;
          }
        }
      } else {
        assert OpenSlots(m, slots) == OpenSlots(m, rest);
        assert Fill(m, slots, avail) == Fill(m, rest, avail);
        FillFillsOpenSlots(m, rest, avail);
      }
    }
  }

  /** Filling with distinct players that are on no slot keeps the board exclusive. */
  lemma {:induction false} FillExclusive(m: Assignments, slots: seq<Slot>, avail: seq<PlayerId>)
    requires Exclusive(m)
    requires Distinct(avail)
    requires forall k :: 0 <= k < |avail| ==> avail[k] !in AssignedIds(m)
    ensures Exclusive(Fill(m, slots, avail))
    decreases |slots|
  {
    if slots != [] && avail != [] {
      if IsOpen(m, slots[0]) {
        var m' := m[slots[0] := Some(avail[0])];
        assert AssignedIds(m') <= AssignedIds(m) + {avail[0]};
        forall k | 0 <= k < |avail| - 1 ensures avail[1..][k] !in AssignedIds(m') {
          assert avail[1..][k] == avail[k + 1] != avail[0];
        }
        assert Exclusive(m') by {
          forall s1, s2 | s1 in m' && s2 in m' && m'[s1].Some? && m'[s1] == m'[s2] ensures s1 == s2 {
            if s1 != slots[0] && s2 != slots[0] {
            }
          }
        }
        assert Distinct(avail[1..]) by {
          forall i, j | 0 <= i < j < |avail| - 1 ensures avail[1..][i] != avail[1..][j] { assert avail[i + 1] != avail[j + 1]; }
        }
        FillExclusive(m', slots[1..], avail[1..]);
      } else {
        FillExclusive(m, slots[1..], avail);
      }
    }
  }

  /** `if (m[slot]) m[slot] = null`: only a slot holding a (non-empty) id is cleared. */
  function Vacate(m: Assignments, s: Slot): (r: Assignments)
    ensures forall k :: k != s ==> SameAt(r, m, k)
    ensures SameAt(r, m, s) || Nulled(r, m, s)
    ensures !(s in r && Truthy(r[s]))
    ensures Exclusive(m) ==> Exclusive(r)
  {
    if s in m && Truthy(m[s]) then m[s := None] else m
  }

  /** The `slotsToClear.forEach` of a confirmed result. */
  function VacateAll(m: Assignments, slots: seq<Slot>): (r: Assignments)
    ensures forall k :: k !in slots ==> SameAt(r, m, k)
    ensures forall k :: k in slots ==> !(k in r && Truthy(r[k]))
    ensures forall k :: k in slots ==> SameAt(r, m, k) || Nulled(r, m, k)
    ensures Exclusive(m) ==> Exclusive(r)
  {
    if slots == [] then m
    else
      var m1 := Vacate(m, slots[0]);
      var r := VacateAll(m1, slots[1..]);
      assert forall k :: k in slots <==> k == slots[0] || k in slots[1..];
      assert forall k :: k in slots ==> SameAt(r, m, k) || Nulled(r, m, k) by {
        forall k | k in slots
          ensures SameAt(r, m, k) || Nulled(r, m, k)
        {
          if k != slots[0] {
            assert SameAt(m1, m, k);
          } else {
            assert !(k in m1 && Truthy(m1[k]));
            assert SameAt(r, m1, k);
          }
        }
      }
      r
  }

  /** Switching a court to singles: its A-1 and B-1 seats are vacated, nothing else moves. */
  function DowngradeToSingles(m: Assignments, c: CourtIndex): (r: Assignments)
    ensures forall k :: k != Slot(c, A, Second) && k != Slot(c, B, Second) ==> SameAt(r, m, k)
    ensures !(Slot(c, A, Second) in r && Truthy(r[Slot(c, A, Second)]))
    ensures !(Slot(c, B, Second) in r && Truthy(r[Slot(c, B, Second)]))
    ensures SameAt(r, m, Slot(c, A, Second)) || Nulled(r, m, Slot(c, A, Second))
    ensures SameAt(r, m, Slot(c, B, Second)) || Nulled(r, m, Slot(c, B, Second))
    ensures Exclusive(m) ==> Exclusive(r)
  {
    Vacate(Vacate(m, Slot(c, A, Second)), Slot(c, B, Second))
  }

  /** The cascade of `handleRemovePlayer`: every slot holding the id becomes null. */
  function ClearPlayer(m: Assignments, id: PlayerId): (r: Assignments)
    ensures r.Keys == m.Keys
    ensures id !in AssignedIds(r)
    ensures forall k :: k in m && m[k] != Some(id) ==> r[k] == m[k]
    ensures forall k :: k in m && m[k] == Some(id) ==> r[k] == None
    ensures Exclusive(m) ==> Exclusive(r)
  {
    map k | k in m :: if m[k] == Some(id) then None else m[k]
  }

  /** The nested court/slot loop of `handleAutoAssign`: courts 0..6, each court's slots in
      board order, an open slot takes the head of the queue (`shift`), and both loops stop
      once the queue is empty. */
  method AutoFill(m: Assignments, types: map<CourtIndex, GameType>, queue: seq<PlayerId>) returns (out: Assignments)
    ensures out == Fill(m, OrderFrom(types, 0), queue)
  {
    var target := Fill(m, OrderFrom(types, 0), queue);
    var avail := queue;
    out := m;
    var i := 0;
    while i < NUM_COURTS
      invariant 0 <= i <= NUM_COURTS
      invariant Fill(out, OrderFrom(types, i), avail) == target
      decreases NUM_COURTS - i
    {
      if avail == [] {
        break;
      }
      out, avail := FillCourtAt(out, types, i, avail);
      i := i + 1;
    }
    FillDone(out, types, i, avail);
  }

  /** One pass of the outer loop: the slots of court `i`, in its order. */
  method FillCourtAt(m: Assignments, types: map<CourtIndex, GameType>, i: CourtIndex, queue: seq<PlayerId>)
    returns (out: Assignments, avail: seq<PlayerId>)
    ensures Fill(out, OrderFrom(types, i + 1), avail) == Fill(m, OrderFrom(types, i), queue)
  {
    OrderFromCourt(types, i);
    out, avail := FillCourt(m, CourtSlots(i, Courts.GameTypeOf(types, i)), OrderFrom(types, i + 1), queue);
  }


  /** Once the queue is empty or the courts are visited, nothing more is filled. */
  lemma FillDone(m: Assignments, types: map<CourtIndex, GameType>, i: int, avail: seq<PlayerId>)
    requires 0 <= i <= NUM_COURTS && (i == NUM_COURTS || avail == [])
    ensures Fill(m, OrderFrom(types, i), avail) == m
  {
    if i == NUM_COURTS {
      OrderFromEnd(types);
    }
  }

  /** The inner loop over one court's slots; `rest` are the slots the outer loop visits later. */
  method FillCourt(m: Assignments, slots: seq<Slot>, rest: seq<Slot>, queue: seq<PlayerId>)
    returns (out: Assignments, avail: seq<PlayerId>)
    ensures Fill(out, rest, avail) == Fill(m, slots + rest, queue)
  {
    out, avail := m, queue;
    var j := 0;
    while j < |slots|
      invariant 0 <= j <= |slots|
      invariant Fill(out, slots[j..] + rest, avail) == Fill(m, slots + rest, queue)
    {
      if avail == [] {
        break;
      }
      assert (slots[j..] + rest)[1..] == slots[j + 1..] + rest;
      if IsOpen(out, slots[j]) {
        out := out[slots[j] := Some(avail[0])];
        avail := avail[1..];
      }
      j := j + 1;
    }
    if avail != [] {
      assert slots[j..] + rest == rest;
    }
  }

  /** The `slotsToClear.forEach(slot => { if (m[slot]) m[slot] = null; })` loop. */
  method VacateSlots(m: Assignments, slots: seq<Slot>) returns (out: Assignments)
    ensures out == VacateAll(m, slots)
  {
    out := m;
    var i := 0;
    while i < |slots|
      invariant 0 <= i <= |slots|
      invariant VacateAll(out, slots[i..]) == VacateAll(m, slots)
    {
      assert slots[i..][1..] == slots[i + 1..];
      if slots[i] in out && Truthy(out[slots[i]]) {
        out := out[slots[i] := None];
      }
      i := i + 1;
    }
  }

  /** The `Object.keys(m).forEach(key => { if (m[key] === id) m[key] = null; })` loop of
      `handleRemovePlayer`, visiting the keys in any order. */
  method NullOut(m: Assignments, id: PlayerId) returns (out: Assignments)
    ensures out == ClearPlayer(m, id)
  {
    out := m;
    var keys := m.Keys;
    while keys != {}
      invariant keys <= m.Keys && out.Keys == m.Keys
      invariant forall k :: k in m ==> out[k] == if k !in keys && m[k] == Some(id) then None else m[k]
      decreases |keys|
    {
      var k :| k in keys;
      if out[k] == Some(id) {
        out := out[k := None];
      }
      keys := keys - {k};
    }
  }
}

/** Court readiness as the court board renders it (components/CourtAssignment.tsx):
    the slot-id layout, the occupant list of each team, and whether a court's match
    can be ended by clicking a team header. */
module Courts {
  import opened Wrappers
  import opened Domain

  function CourtDigit(c: CourtIndex): char {
    ['0', '1', '2', '3', '4', '5', '6'][c]
  }

  function TeamLetter(t: Team): char {
    if t == A then 'A' else 'B'
  }

  function SeatDigit(s: Seat): char {
    if s == First then '0' else '1'
  }

  /** The slot id `court-{i}-{A|B}-{0|1}`. */
  function SlotKey(s: Slot): (key: string)
    ensures |key| == 11 && key[..6] == "court-" && key[7] == '-' && key[9] == '-'
  {
    "court-" + [CourtDigit(s.court)] + "-" + [TeamLetter(s.team)] + "-" + [SeatDigit(s.seat)]
  }

  /** Distinct slots have distinct ids, so keying the board by Slot loses nothing. */
  lemma SlotKeyInjective(s1: Slot, s2: Slot)
    requires SlotKey(s1) == SlotKey(s2)
    ensures s1 == s2
  {
    assert SlotKey(s1)[6] == CourtDigit(s1.court) && SlotKey(s2)[6] == CourtDigit(s2.court);
    assert SlotKey(s1)[8] == TeamLetter(s1.team) && SlotKey(s2)[8] == TeamLetter(s2.team);
    assert SlotKey(s1)[10] == SeatDigit(s1.seat) && SlotKey(s2)[10] == SeatDigit(s2.seat);
  }

  /** `courtGameTypes[i] || 'doubles'`: a court with no stored type plays doubles. */
  function GameTypeOf(types: map<CourtIndex, GameType>, c: CourtIndex): (gt: GameType)
    ensures c in types ==> gt == types[c]
    ensures c !in types ==> gt == Doubles
  {
    if c in types then types[c] else Doubles
  }

  /** The slots a team uses: seat 0 only in singles, seats 0 then 1 in doubles. */
  function TeamSlots(c: CourtIndex, team: Team, gt: GameType): (slots: seq<Slot>)
    ensures |slots| == (if gt == Singles then 1 else 2)
    ensures slots[0] == Slot(c, team, First)
    ensures gt == Doubles ==> slots[1] == Slot(c, team, Second)
  {
    if gt == Singles then [Slot(c, team, First)]
    else [Slot(c, team, First), Slot(c, team, Second)]
  }

  /** What `assignments[slotId]` reads in JavaScript. */
  datatype Lookup = Undefined | Null | Id(id: PlayerId)

  function Read(m: Assignments, s: Slot): Lookup {
    if s !in m then Undefined
    else if m[s].None? then Null
    else Id(m[s].value)
  }

  /** `.map(slotId => assignments[slotId]).filter(id => id !== null)`. */
  function DropNulls(m: Assignments, slots: seq<Slot>): (r: seq<Lookup>)
    ensures |r| <= |slots|
    ensures forall x :: x in r ==> x != Null
    ensures forall k :: 0 <= k < |slots| && Read(m, slots[k]) != Null ==> Read(m, slots[k]) in r
    ensures forall x :: x in r ==> exists k :: 0 <= k < |slots| && Read(m, slots[k]) == x
    ensures r == [] <==> forall k :: 0 <= k < |slots| ==> Read(m, slots[k]) == Null
  {
    if slots == [] then []
    else
      var rest := DropNulls(m, slots[1..]);
      assert forall k :: 1 <= k < |slots| ==> slots[k] == slots[1..][k - 1];
      if Read(m, slots[0]) == Null then rest else [Read(m, slots[0])] + rest
  }

  /** `teamAPlayerIds` / `teamBPlayerIds`. Only `null` is discarded: a slot whose key was
      never written reads `undefined`, is kept, and counts toward the team's size. */
  function TeamPlayerIds(m: Assignments, c: CourtIndex, team: Team, gt: GameType): (r: seq<Lookup>)
    ensures |r| <= |TeamSlots(c, team, gt)|
    ensures forall x :: x in r ==> x != Null
    ensures Slot(c, team, First) !in m ==> Undefined in r
    ensures gt == Doubles && Slot(c, team, Second) !in m ==> Undefined in r
    ensures r == [] <==> forall s :: s in TeamSlots(c, team, gt) ==> s in m && m[s].None?
  {
    var slots := TeamSlots(c, team, gt);
    assert forall s :: s in slots <==> exists k :: 0 <= k < |slots| && slots[k] == s;
    DropNulls(m, slots)
  }

  /** Team A occupies the court in the sense of `TeamPlayerIds`: some team seat is not `null`. */
  predicate Fielded(m: Assignments, c: CourtIndex, team: Team, gt: GameType) {
    Read(m, Slot(c, team, First)) != Null || (gt == Doubles && Read(m, Slot(c, team, Second)) != Null)
  }

  /** `isMatchEndable`: singles needs both counts equal to 1, doubles both counts above 0;
      in slot terms, each team has a seat that does not hold `null`. */
  function IsMatchEndable(m: Assignments, c: CourtIndex, gt: GameType): (r: bool)
    ensures r <==> Fielded(m, c, A, gt) && Fielded(m, c, B, gt)
  {
    var a := |TeamPlayerIds(m, c, A, gt)|;
    var b := |TeamPlayerIds(m, c, B, gt)|;
    if gt == Singles then a == 1 && b == 1 else a > 0 && b > 0
  }

  /** A team-header click: `onEndMatch(courtIndex, team)` is called only on an endable court. */
  function TeamHeaderClick(m: Assignments, types: map<CourtIndex, GameType>, c: CourtIndex, team: Team)
    : (call: Option<(CourtIndex, Team)>)
    ensures call.Some? <==> IsMatchEndable(m, c, GameTypeOf(types, c))
    ensures call.Some? ==> call.value == (c, team)
  {
    if IsMatchEndable(m, c, GameTypeOf(types, c)) then Some((c, team)) else None
  }

  /** As written, a board none of whose keys was ever written (the initial board, and the
      board after a replacing import) offers every court for ending. */
  lemma EmptyBoardLooksEndable(c: CourtIndex, gt: GameType)
    ensures IsMatchEndable(map[], c, gt)
  {
    assert Undefined in TeamPlayerIds(map[], c, A, gt);
    assert Undefined in TeamPlayerIds(map[], c, B, gt);
  }

  /** The occupant list as evidently intended: only real player ids count
      (the same `!!id` test the match engine applies). */
  function TeamOccupants(m: Assignments, c: CourtIndex, team: Team, gt: GameType): (r: seq<PlayerId>)
    ensures |r| <= |TeamSlots(c, team, gt)|
    ensures forall k :: 0 <= k < |r| ==> r[k] != ""
    ensures r == [] <==> forall s :: s in TeamSlots(c, team, gt) ==> !(s in m && Truthy(m[s]))
  {
    var slots := TeamSlots(c, team, gt);
    var a := if Slot(c, team, First) in m && Truthy(m[Slot(c, team, First)]) then [m[Slot(c, team, First)].value] else [];
    var b := if gt == Doubles && Slot(c, team, Second) in m && Truthy(m[Slot(c, team, Second)])
             then [m[Slot(c, team, Second)].value] else [];
    a + b
  }

  /** `isMatchEndable` computed from the corrected occupant lists. */
  function IsMatchEndableFixed(m: Assignments, c: CourtIndex, gt: GameType): (r: bool)
    ensures r <==> TeamOccupants(m, c, A, gt) != [] && TeamOccupants(m, c, B, gt) != []
  {
    var a := |TeamOccupants(m, c, A, gt)|;
    var b := |TeamOccupants(m, c, B, gt)|;
    if gt == Singles then a == 1 && b == 1 else a > 0 && b > 0
  }

  /** With the correction, an untouched board offers no court for ending. */
  lemma EmptyBoardNotEndableFixed(c: CourtIndex, gt: GameType)
    ensures !IsMatchEndableFixed(map[], c, gt)
  {
    assert TeamOccupants(map[], c, A, gt) == [];
  }
}

/** Ending a match and recording its result (App.tsx:636-738). */
module Matches {
  import opened Wrappers
  import opened Domain
  import opened Records
  import opened Counters
  import Courts
  import Board

  /** `name || 'Unknown'`: an empty name shows as 'Unknown'. */
  function DisplayName(name: string): (shown: string)
    ensures shown != ""
    ensures name != "" ==> shown == name
    ensures name == "" ==> shown == "Unknown"
  {
    if name == "" then "Unknown" else name
  }

  predicate NoIdBefore(players: seq<Player>, id: PlayerId, i: int)
    requires 0 <= i <= |players|
  {
    forall j :: 0 <= j < i ==> players[j].id != id
  }

  /** `players.find(p => p.id === id)?.name || 'Unknown'`: the first player with the id names
      the team member; a missing player or an empty name gives 'Unknown'. */
  function NameOf(players: seq<Player>, id: PlayerId): (name: string)
    ensures name != ""
  {
    if players == [] then "Unknown"
    else if players[0].id == id then DisplayName(players[0].name)
    else NameOf(players[1..], id)
  }

  /** The first player holding the id gives the name. */
  lemma {:induction false} NameOfFirst(players: seq<Player>, id: PlayerId, i: int)
    requires 0 <= i < |players| && players[i].id == id && NoIdBefore(players, id, i)
    ensures NameOf(players, id) == DisplayName(players[i].name)
    decreases i
  {
    if i > 0 {
      assert players[0].id != id;
      var tail := players[1..];
      assert tail[i - 1] == players[i];
      forall j | 0 <= j < i - 1 ensures tail[j].id != id {
        assert tail[j] == players[j + 1];
      }
      NameOfFirst(tail, id, i - 1);
    }
  }

  /** No player holding the id gives 'Unknown'. */
  lemma {:induction false} NameOfMissing(players: seq<Player>, id: PlayerId)
    requires NoIdBefore(players, id, |players|)
    ensures NameOf(players, id) == "Unknown"
    decreases |players|
  {
    if players != [] {
      assert players[0].id != id;
      var tail := players[1..];
      forall j | 0 <= j < |tail| ensures tail[j].id != id {
        assert tail[j] == players[j + 1];
      }
      NameOfMissing(tail, id);
    }
  }

  function MemberIds(team: seq<TeamMember>): (ids: seq<PlayerId>)
    ensures |ids| == |team| && forall k :: 0 <= k < |team| ==> ids[k] == team[k].id
  {
    seq(|team|, k requires 0 <= k < |team| => team[k].id)
  }

  /** `getTeamPlayers`: the team's real occupants, in seat order, with their display names. */
  function TeamMembers(players: seq<Player>, m: Assignments, c: CourtIndex, team: Team, gt: GameType): (r: seq<TeamMember>)
    ensures MemberIds(r) == Courts.TeamOccupants(m, c, team, gt)
    ensures forall k :: 0 <= k < |r| ==> r[k].name == NameOf(players, r[k].id)
  {
    var occ := Courts.TeamOccupants(m, c, team, gt);
    seq(|occ|, k requires 0 <= k < |occ| => TeamMember(occ[k], NameOf(players, occ[k])))
  }

  /** `handleEndMatch`: the pending match of a court, or None (a notice) when a team is empty. */
  function EndMatch(players: seq<Player>, m: Assignments, types: map<CourtIndex, GameType>, c: CourtIndex): (r: Option<ActiveMatch>)
    ensures r.Some? <==> Courts.IsMatchEndableFixed(m, c, Courts.GameTypeOf(types, c))
    ensures r.Some? ==> r.value.courtIndex == c && r.value.gameType == Courts.GameTypeOf(types, c)
    ensures r.Some? ==> MemberIds(r.value.teamA) == Courts.TeamOccupants(m, c, A, Courts.GameTypeOf(types, c))
    ensures r.Some? ==> MemberIds(r.value.teamB) == Courts.TeamOccupants(m, c, B, Courts.GameTypeOf(types, c))
    ensures r.Some? ==> forall k :: 0 <= k < |r.value.teamA| ==> r.value.teamA[k].name == NameOf(players, r.value.teamA[k].id)
    ensures r.Some? ==> forall k :: 0 <= k < |r.value.teamB| ==> r.value.teamB[k].name == NameOf(players, r.value.teamB[k].id)
  {
    var gt := Courts.GameTypeOf(types, c);
    var a := TeamMembers(players, m, c, A, gt);
    var b := TeamMembers(players, m, c, B, gt);
    if |a| < 1 || |b| < 1 then None else Some(ActiveMatch(c, a, b, gt))
  }

  /** A pending match as the board can produce it: each team holds one or two players
      (exactly one in singles) and no player appears twice. */
  predicate WellFormed(am: ActiveMatch) {
    var ids := MemberIds(am.teamA) + MemberIds(am.teamB);
    1 <= |am.teamA| <= 2 && 1 <= |am.teamB| <= 2 &&
    (am.gameType == Singles ==> |am.teamA| == 1 && |am.teamB| == 1) &&
    Board.Distinct(ids)
  }

  /** The seats the occupant list of a team was read from, in the same order. */
  function OccupiedSeats(m: Assignments, c: CourtIndex, team: Team, gt: GameType): (seats: seq<Slot>)
    ensures |seats| == |Courts.TeamOccupants(m, c, team, gt)|
    ensures forall k :: 0 <= k < |seats| ==>
      seats[k].team == team && seats[k] in m && m[seats[k]] == Some(Courts.TeamOccupants(m, c, team, gt)[k])
    ensures Board.Distinct(seats)
  {
    var first, second := Slot(c, team, First), Slot(c, team, Second);
    var a := if first in m && Truthy(m[first]) then [first] else [];
    var b := if gt == Doubles && second in m && Truthy(m[second]) then [second] else [];
    a + b
  }

  /** On an exclusive board every match that can be ended is well formed. */
  lemma EndMatchWellFormed(players: seq<Player>, m: Assignments, types: map<CourtIndex, GameType>, c: CourtIndex)
    requires Board.Exclusive(m)
    ensures EndMatch(players, m, types, c).Some? ==> WellFormed(EndMatch(players, m, types, c).value)
  {
    var r := EndMatch(players, m, types, c);
    if r.Some? {
      var gt := Courts.GameTypeOf(types, c);
      var ids := MemberIds(r.value.teamA) + MemberIds(r.value.teamB);
      var sa, sb := OccupiedSeats(m, c, A, gt), OccupiedSeats(m, c, B, gt);
      SidesDistinct(sa, sb);
      Board.DistinctBySeats(m, sa + sb, ids);
    }
  }

  /** Distinct seats of side A followed by distinct seats of side B are distinct. */
  lemma SidesDistinct(sa: seq<Slot>, sb: seq<Slot>)
    requires Board.Distinct(sa) && Board.Distinct(sb)
    requires forall k :: 0 <= k < |sa| ==> sa[k].team == A
    requires forall k :: 0 <= k < |sb| ==> sb[k].team == B
    ensures Board.Distinct(sa + sb)
  {
    var seats := sa + sb;
    forall i, j | 0 <= i < j < |seats| ensures seats[i] != seats[j] {
      if i < |sa| <= j { assert seats[i].team == A && seats[j] == sb[j - |sa|]; }
    }
  }

  /** The side that won and the side that lost. */
  function Winners(am: ActiveMatch, t: Team): (winners: seq<TeamMember>)
    ensures t == A ==> winners == am.teamA
    ensures t == B ==> winners == am.teamB
  {
    if t == A then am.teamA else am.teamB
  }

  function Losers(am: ActiveMatch, t: Team): (losers: seq<TeamMember>)
    ensures t == A ==> losers == am.teamB
    ensures t == B ==> losers == am.teamA
  {
    Winners(am, t.Other())
  }

  /** `SHUTTLECOCK_FEE_PER_MATCH / loserIds.length`. */
  function FeeShare(n: int): (share: int)
    requires n > 0
    ensures 0 <= share && share * n <= SHUTTLECOCK_FEE_PER_MATCH < share * n + n
  {
    SHUTTLECOCK_FEE_PER_MATCH / n
  }

  /** For the team sizes a court allows the share is exact: charging it once per loser
      collects the whole match fee, with nothing lost to rounding. */
  lemma FeeShareExact(n: int)
    requires 1 <= n <= 2
    ensures Times(n, FeeShare(n)) == SHUTTLECOCK_FEE_PER_MATCH
  {
    assert Times(1, FeeShare(n)) == FeeShare(n);
  }

  /** The shuttlecock charge of a decided match: each loser is charged an equal share. */
  function FeesAfter(fees: Record, loserIds: seq<PlayerId>): Record {
    if |loserIds| > 0 then Bump(fees, loserIds, FeeShare(|loserIds|)) else fees
  }

  /** A decided match adds exactly one match fee to the session's shuttlecock charges,
      and each (distinct) loser pays one share of it. */
  lemma FeesConserved(fees: Record, loserIds: seq<PlayerId>)
    requires 1 <= |loserIds| <= 2 && Board.Distinct(loserIds)
    ensures Total(FeesAfter(fees, loserIds)) == Total(fees) + SHUTTLECOCK_FEE_PER_MATCH
    ensures forall k :: k in loserIds ==> GetOr0(FeesAfter(fees, loserIds), k) == GetOr0(fees, k) + FeeShare(|loserIds|)
    ensures forall k :: k !in loserIds ==> GetOr0(FeesAfter(fees, loserIds), k) == GetOr0(fees, k)
  {
    BumpTotal(fees, loserIds, FeeShare(|loserIds|));
    FeeShareExact(|loserIds|);
    forall k ensures GetOr0(FeesAfter(fees, loserIds), k) == GetOr0(fees, k) + if k in loserIds then FeeShare(|loserIds|) else 0 {
      FeeAt(fees, loserIds, k);
    }
  }

  /** One key's fee after the match: one share for a loser, nothing for anyone else. */
  lemma FeeAt(fees: Record, loserIds: seq<PlayerId>, k: PlayerId)
    requires 1 <= |loserIds| <= 2 && Board.Distinct(loserIds)
    ensures GetOr0(FeesAfter(fees, loserIds), k) == GetOr0(fees, k) + if k in loserIds then FeeShare(|loserIds|) else 0
  {
    var share := FeeShare(|loserIds|);
    BumpCount(fees, loserIds, share, k);
    if k in loserIds {
      CountDistinct(loserIds, k);
      assert Times(1, share) == share;
    } else {
      assert multiset(loserIds)[k] == 0;
    }
  }

  /** The match appended to the session log. */
  function Decided(am: ActiveMatch, winner: Team): (mt: Match)
    ensures mt.losingTeam != winner
    ensures mt.courtIndex == am.courtIndex && mt.gameType == am.gameType
    ensures mt.teamA == am.teamA && mt.teamB == am.teamB
  {
    Match(am.courtIndex, am.gameType, am.teamA, am.teamB, winner.Other())
  }
}

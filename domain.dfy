/** The records of types.ts and the constants of constants.ts that the session engine uses. */
module Domain {
  import opened Wrappers
  import Records

  /** Court fee per person per session, in VND. */
  const COURT_FEE: int := 50000
  /** Total shuttlecock fee of one decided match, split among its losers. */
  const SHUTTLECOCK_FEE_PER_MATCH: int := 20000
  const GUEST_PLAYER_ID: string := "guest-player"
  const GUEST_PLAYER_NAME: string := "Khách vãng lai"
  /** The board has seven courts, rendered and auto-filled as indices 0..6. */
  const NUM_COURTS: int := 7

  type CourtIndex = c: int | 0 <= c < NUM_COURTS

  type PlayerId = string

  datatype Adjustment = Adjustment(amount: int, reason: string)

  /** A roster entry. `phone` is optional (None is `undefined`), `isGuest` absent is false.
      `shuttlecockConsumption` is never written by the session engine and is not modelled. */
  datatype Player = Player(
    id: PlayerId,
    name: string,
    phone: Option<string>,
    consumedDrinks: Records.Record,
    consumedFoods: Records.Record,
    isGuest: bool,
    quantity: int,
    adjustment: Adjustment,
    isPaid: bool)

  /** The `{id, name, phone}` identity that is persisted for a regular player. */
  datatype Identity = Identity(id: PlayerId, name: string, phone: Option<string>)

  /** `{id, name, price}`: the shape shared by drinks, foods and shuttlecock items. */
  datatype CatalogItem = CatalogItem(id: string, name: string, price: int)

  const DEFAULT_DRINKS: seq<CatalogItem> := [
    CatalogItem("tra-duong", "Trà đường", 12000),
    CatalogItem("nuoc-chai", "Nước chai", 15000),
    CatalogItem("nuoc-suoi", "Nước suối", 5000)
  ]
  const DEFAULT_FOODS: seq<CatalogItem> := []

  datatype Team = A | B {
    function Other(): Team {
      if this == A then B else A
    }
  }

  datatype Seat = First | Second

  datatype GameType = Singles | Doubles

  /** The slot `court-{court}-{team}-{0|1}`. */
  datatype Slot = Slot(court: CourtIndex, team: Team, seat: Seat)

  /** Slot key -> player id; a key never written is absent, a cleared slot maps to None (`null`). */
  type Assignments = map<Slot, Option<PlayerId>>

  datatype TeamMember = TeamMember(id: PlayerId, name: string)

  /** A decided match. */
  datatype Match = Match(
    courtIndex: CourtIndex,
    gameType: GameType,
    teamA: seq<TeamMember>,
    teamB: seq<TeamMember>,
    losingTeam: Team)

  /** The pending result of an ended match, before a winner is chosen. */
  datatype ActiveMatch = ActiveMatch(
    courtIndex: CourtIndex,
    teamA: seq<TeamMember>,
    teamB: seq<TeamMember>,
    gameType: GameType)

  /** `winningTeam` of the result dialog. */
  datatype Outcome = Won(team: Team) | Draw

  /** A player together with the derived costs and counters. */
  datatype PlayerDetails = PlayerDetails(
    player: Player,
    totalCost: int,
    wins: int,
    losses: int,
    drinksCost: int,
    foodCost: int,
    shuttlecockCost: int)

  datatype LiveSummary = LiveSummary(
    totalCourtFee: int,
    totalDrinksCost: int,
    totalFoodCost: int,
    totalShuttlecockCost: int,
    grandTotal: int,
    totalPaid: int)

  datatype SessionSummary = SessionSummary(
    totalCourtFee: int,
    totalDrinksCost: int,
    totalFoodCost: int,
    totalShuttlecockCost: int,
    grandTotal: int)

  datatype SessionGameType = Practice | SinglesSession | DoublesSession

  /** An archived session. */
  datatype Session = Session(
    id: string,
    date: string,
    players: seq<PlayerDetails>,
    gameType: SessionGameType,
    summary: SessionSummary,
    matches: seq<Match>)

  /** `!!id` for a slot value: present, not null and not the empty string. */
  predicate Truthy(v: Option<PlayerId>) {
    v.Some? && v.value != ""
  }
}

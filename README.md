# Badminton session manager — a verified model of its session core

The application runs a badminton club's evening: a roster of regular players plus one
"walk-in guest" entry, seven courts with two teams of one or two seats each, a match
engine that records who won and charges the losers a shuttlecock fee, per-player drink and
food counters, cost adjustments and a paid flag, and a billing summary that is archived
when the session is saved. Beside it sit three smaller pieces: the court-readiness rules of
the court card, a CSV import/export pair for the roster, and three catalog editors
(drinks, foods, shuttlecock items).

This project models those pieces in Dafny and proves what they promise.

- `Engine.SessionEngine` is the live-session engine (App.tsx) as a class whose fields are
  the React state and whose methods are the handlers. Every method keeps `Valid()`:
  - the roster has distinct ids and the guest first;
  - no player sits in two slots;
  - a pending match is well formed;
  - the match counter equals the length of the match log.
- The handlers' new states are stated through functions in `Roster`, `Board`, `Matches`,
  `Consumption` and `Billing`; lemmas beside those functions prove the properties
  (exclusivity, clamped quantities, fee conservation, additive totals, round trips).
- `Courts` is the court card's team lists and "endable" rule, read exactly as written.
- `CsvImport`, `PlayerManagement` and `CsvRoundTrip` are the importer, the exporter and the
  proof that an exported roster imports back unchanged.
- `Catalog` is one `{id, name, price}` list model serving all three catalog editors.
- `Records` models a JavaScript object used as a counter (`Record<string, number>`): an
  ordered list of distinct keys, with assignment and `delete`.
- `JsText` models `trim` over the whole ECMAScript white-space and line-terminator set,
  and `toLowerCase` on the Latin letters (ASCII, Latin-1, Latin Extended-A, O-horn, U-horn
  and Latin Extended Additional), which covers every Vietnamese letter.

Fresh ids (`crypto.randomUUID()`), the date, `window.confirm` and the persisted roster are
parameters. Notifications are results (`bool`, `nat`, `Option`, `Result`).

## Model

| member | source | states |
|---|---|---|
| Records.Get | App.tsx:524-541 | reading a key gives None exactly when the key is absent (`undefined`) |
| Records.Put | App.tsx:524-541 | after `r[k] = v` the key reads v and every other key reads as before |
| Records.Delete | App.tsx:427-456 | after `delete r[k]` the key is absent and every other key reads as before |
| Records.PutEntries | App.tsx:524-541 | an assignment only rewrites its own entry, or appends it when the key was new |
| Records.PutUnique | App.tsx:524-541 | an assignment keeps the keys distinct |
| Records.PutPositive | App.tsx:524-541 | assigning a positive count keeps every stored count positive |
| Records.DeleteKeepsShape | App.tsx:427-456 | a deletion keeps only old entries, distinct keys and positive counts |
| Records.PutTotal | App.tsx:524-541 | an assignment moves the sum of the values by the new value minus the old one |
| Counters.StepGet | App.tsx:690-711 | one `(r[id] \|\| 0) + delta` step changes only that id's count, by delta |
| Counters.StepTotal | App.tsx:690-711 | one step raises the sum of all counts by delta |
| Counters.BumpCount | App.tsx:690-722 | after a forEach over ids, each key has grown by delta times the number of its occurrences |
| Counters.BumpTotal | App.tsx:690-722 | after a forEach over ids, the sum has grown by delta times the number of ids |
| Counters.CountDistinct | App.tsx:690-722 | in a list of distinct ids, each listed id occurs exactly once |
| Counters.Increment | App.tsx:690-711 | the forEach loop computes the per-id increments of the reference fold |
| Counters.Step | App.tsx:700 | one `r[id] = (r[id] \|\| 0) + delta`; its effect is stated by `Counters.StepGet` and `Counters.StepTotal` |
| Counters.Bump | App.tsx:690-722 | the `forEach` of increments over a list of ids; its effect is stated by `Counters.BumpCount` and `Counters.BumpTotal` |
| Consumption.UpdateConsumption | App.tsx:524-541 | the count becomes max(0, old + amount); the key is deleted iff the result is not positive; other keys are unchanged |
| Consumption.UpdateConsumptionKeepsShape | App.tsx:524-560 | a consumption update keeps distinct keys and only positive counts |
| Consumption.ClearedKeepsShape | App.tsx:531-532 | the deleting branch keeps distinct keys and positive counts |
| Consumption.CountedKeepsShape | App.tsx:533-535 | the counting branch keeps distinct keys and positive counts |
| Consumption.UpdateConsumptionUndo | App.tsx:524-541 | an amount followed by its opposite, while the count stays positive, restores every count |
| Billing.FindItem | App.tsx:268-271 | `find` gives None iff no item has the id, otherwise the first item with that id |
| Billing.UnitPrice | App.tsx:269-270 | the price of the first catalog item with the id, 0 when there is none; used by `Billing.ItemsCostPut` and `Billing.ItemsCostUpdate` |
| Billing.LineCost | App.tsx:270 | one line's cost, unit price times count; `Billing.ItemsCostDelete` states that a deletion drops exactly it |
| Billing.ItemsCost | App.tsx:268-276 | the sum of the line costs of a counter; `Billing.ItemsCostPut`, `Billing.ItemsCostDelete` and `Billing.ItemsCostUpdate` state how it moves under the handlers |
| Billing.ItemsCostPut | App.tsx:268-276 | assigning a count moves a player's item cost by the unit price times the change |
| Billing.DeleteAbsent | App.tsx:427-456 | deleting an absent key changes nothing |
| Billing.ItemsCostDelete | App.tsx:268-276 | deleting a key drops exactly that line's cost |
| Billing.ItemsCostUpdate | App.tsx:524-560 | a consumption change moves the player's cost by the unit price times the change of the clamped count; an unknown id costs 0 |
| Billing.ItemsCostCleared | App.tsx:531-532 | a clearing update removes the whole line cost |
| Billing.ItemsCostCounted | App.tsx:533-535 | a counting update moves the cost by price times amount |
| Billing.Details | App.tsx:266-293 | totalCost is courtFee + drinks + food + shuttlecock fee + adjustment; the parts are read from the catalogs and ledgers |
| Billing.CourtFee | App.tsx:279 | COURT_FEE for a regular player, COURT_FEE times the head count (`quantity \|\| 1`) for the guest; `Billing.TotalCourtFeeIsSum` ties the per-player fees to the summary's court fee |
| Billing.PlayerCountForFee | App.tsx:295-302 | the head count of the roster, one per regular and `quantity \|\| 1` for the guest; `Billing.TotalCourtFeeIsSum` states it times COURT_FEE is the court-fee sum |
| Billing.PlayerDetailsOf | App.tsx:266-293 | one details entry per roster entry, in roster order |
| Billing.ReduceIsSum | App.tsx:304-326 | the summary reduce adds each column's sum, and the paid totals, to its start |
| Billing.Summary | App.tsx:304-326 | totalCourtFee is head count times COURT_FEE; every other total is the sum of its column; totalPaid sums the paid entries' totals |
| Billing.LiveSummaryOf | App.tsx:266-326 | the summary of the roster's details and head count; `Billing.GrandTotalSplits`, `Billing.AllPaidSum` and `Billing.MarkAllPaidSettles` state its totals |
| Billing.CourtFeeSumLast | App.tsx:295-302 | the court-fee sum splits off its last entry |
| Billing.CourtFeeSumAppend | App.tsx:295-302 | appending an entry adds its court fee |
| Billing.TotalCourtFeeIsSum | App.tsx:295-316 | playerCountForFee × COURT_FEE equals the sum of the per-player court fees |
| Billing.TotalsAdd | App.tsx:266-293 | over a roster's details the total column is the sum of the five parts |
| Billing.GrandTotalSplits | App.tsx:304-326 | the grand total splits into court fees, drinks, food, shuttlecock fees and adjustments |
| Billing.AllPaidSum | App.tsx:304-326 | when every entry has paid, totalPaid equals the grand total |
| Billing.NonePaidSum | App.tsx:304-326 | when no entry has paid, totalPaid is 0 |
| Billing.MarkAllPaidSettles | App.tsx:590-592 | after markAllPaid the live summary's totalPaid equals its grand total |
| Billing.NothingPaidYet | App.tsx:304-326 | a roster nobody has paid for shows nothing paid |
| Billing.ShuttlecockColumnIsFeeSum | App.tsx:278 | the shuttlecock column is read straight from the fee ledger |
| Billing.FeeSumStep | App.tsx:713-722 | one fee increment reaches exactly the one roster entry with that id |
| Billing.FeeSumUntouched | App.tsx:713-722 | an increment for an id outside the roster leaves the column unchanged |
| Billing.FeeSumBump | App.tsx:713-722 | charging a list of roster ids moves the fee column by delta per id |
| Billing.DecidedMatchAddsFee | App.tsx:713-722 | a decided match raises the session's shuttlecock total by exactly SHUTTLECOCK_FEE_PER_MATCH |
| Courts.SlotKey | components/CourtAssignment.tsx:219-237 | a slot's id has the shape `court-{i}-{A\|B}-{0\|1}` |
| Courts.GameTypeOf | App.tsx:398 | a court's recorded game type, doubles when none is recorded (`\|\| 'doubles'`) |
| Courts.SlotKeyInjective | components/CourtAssignment.tsx:219-237 | two slots with the same id are the same slot |
| Courts.TeamSlots | components/CourtAssignment.tsx:135-151 | a team reads seat 0 only in singles, seats 0 and 1 in doubles, in that order |
| Courts.DropNulls | components/CourtAssignment.tsx:138-142 | the filter drops exactly the `null` values and keeps every other read, including `undefined` |
| Courts.TeamPlayerIds | components/CourtAssignment.tsx:135-151 | a never-written seat counts as an occupant; the list is empty iff every read seat holds null |
| Courts.IsMatchEndable | components/CourtAssignment.tsx:153-160 | as written: a court is endable iff both team lists are non-empty, and in singles each has one entry |
| Courts.TeamHeaderClick | components/CourtAssignment.tsx:211-231 | a header click reaches `onEndMatch` iff the court is endable, with the court and the team |
| Courts.EmptyBoardLooksEndable | components/CourtAssignment.tsx:135-160 | as written: a court with no stored seats counts as endable |
| Courts.TeamOccupants | App.tsx:639-649 | the truthy seat values of a team, in seat order; empty iff no read seat holds a player |
| Courts.IsMatchEndableFixed | App.tsx:651-660 | corrected: a court is endable iff both teams have a real occupant |
| Courts.EmptyBoardNotEndableFixed | App.tsx:651-660 | corrected: a court with no stored seats is not endable |
| Board.Unassigned | App.tsx:354-360 | the unassigned list holds exactly the non-guest players whose id sits in no slot |
| Board.UnassignedAppend | App.tsx:358-360 | the queue keeps roster order: the queue of a concatenation is the queues of its parts, one after the other |
| Board.UnassignedAllFree | App.tsx:358-360 | with no guest and nobody seated, the queue is the whole roster, in order |
| Board.Ids | App.tsx:386-417 | the id list of a player list, position by position |
| Board.UnassignedQueue | App.tsx:354-360 | the queue auto-assign takes from has distinct ids, none of them seated |
| Board.UnassignedUnique | App.tsx:358-360 | filtering a roster with distinct ids keeps them distinct |
| Board.Assign | App.tsx:366-376 | the slot holds p; p's other slots become null; other slots and keys are unchanged; the previous occupant is simply dropped |
| Board.DistinctBySeats | App.tsx:366-376 | ids read from distinct seats of an exclusive board are distinct |
| Board.AssignPlacesOnce | App.tsx:366-376 | after an assignment p sits in exactly one slot and the board stays exclusive |
| Board.CourtSlots | App.tsx:398-401 | a court's slots in visiting order: A-0, B-0 in singles; A-0, A-1, B-0, B-1 in doubles; all distinct |
| Board.CourtSlotsCover | App.tsx:398-401 | every slot of the court that the game type uses is visited |
| Board.CourtOrders | App.tsx:395-401 | the visiting orders of courts 0..6 under their game types (absent type means doubles) |
| Board.OrderFrom | App.tsx:395-404 | the slots the auto-fill visits from a court on; `Board.OrderFromCourt`, `Board.OrderFromEnd` and `Board.OrderFromShape` state its order |
| Board.OrderFromCourt | App.tsx:395-404 | the order from court i is court i's slots followed by the order from court i+1 |
| Board.OrderFromEnd | App.tsx:395-404 | past the last court nothing is left to visit |
| Board.OrderFromShape | App.tsx:395-404 | the visiting order from a court on covers only later courts and visits no slot twice |
| Board.OpenSlots | App.tsx:406 | a slot is in the result iff it is one of the visited slots and holds null or no value |
| Board.OpenSlotsAppend | App.tsx:400-406 | the open slots keep the visiting order: the list distributes over concatenation |
| Board.Fill | App.tsx:403-411 | the greedy fill; `Board.FillFillsOpenSlots`, `Board.FillKeepsOccupied`, `Board.FillOutside` and `Board.FillExclusive` state what it does |
| Board.FillOutside | App.tsx:395-414 | a slot that is never visited is untouched |
| Board.FillKeepsOccupied | App.tsx:406 | an occupied slot is untouched |
| Board.OpenSlotsIgnoreOthers | App.tsx:406 | writing a slot outside a slot list does not change which of its slots are open |
| Board.FillFillsOpenSlots | App.tsx:395-414 | the k-th open slot receives the k-th queued player while players last; open slots beyond the supply stay as they were, so min(queue, open slots) are filled |
| Board.FillExclusive | App.tsx:395-414 | filling from a queue of distinct, unseated ids keeps the board exclusive |
| Board.Vacate | App.tsx:671-681 | nulling a seat touches nothing else and keeps the board exclusive |
| Board.VacateAll | App.tsx:671-681 | every listed seat ends empty; a listed seat that held a player becomes null and any other listed seat is kept exactly; unlisted seats are untouched; the board stays exclusive |
| Board.DowngradeToSingles | App.tsx:608-621 | switching to singles empties the court's A-1 and B-1: each becomes null if it held a player and is kept exactly otherwise; no other seat changes; the board stays exclusive |
| Board.ClearPlayer | App.tsx:447-455 | every slot that held the id becomes null; keys and other slots are unchanged |
| Board.AutoFill | App.tsx:386-417 | the nested court/slot loop with `shift()` computes the greedy fill in court order |
| Board.FillCourtAt | App.tsx:396-411 | one court's pass of the loop computes the fill of that court's slots and hands on the rest of the queue |
| Board.FillDone | App.tsx:396-404 | with no court left or the queue empty, the rest of the fill changes nothing |
| Board.FillCourt | App.tsx:403-411 | the inner slot loop agrees with the fill over the court's slots followed by the rest |
| Board.VacateSlots | App.tsx:671-681 | the slot-nulling loop computes VacateAll |
| Board.NullOut | App.tsx:447-455 | the forEach over the keys computes ClearPlayer |
| Matches.NameOf | App.tsx:646-648 | a team member's displayed name is never empty |
| Matches.NameOfFirst | App.tsx:646-648 | the first roster entry with the id names the member, `'Unknown'` for an empty name |
| Matches.NameOfMissing | App.tsx:646-648 | an id with no roster entry shows as `'Unknown'` |
| Matches.DisplayName | App.tsx:649 | a shown name is never empty: the player's name, or 'Unknown' for an empty one |
| Matches.MemberIds | App.tsx:639-649 | the ids of a team, position by position |
| Matches.TeamMembers | App.tsx:639-649 | a team is its truthy seat occupants in seat order, each with its displayed name |
| Matches.EndMatch | App.tsx:636-664 | a pending match exists iff both teams have an occupant; it snapshots the court, game type and each team's occupants in seat order, each with the name the roster gives that id |
| Matches.OccupiedSeats | App.tsx:639-649 | the distinct seats that a team's occupants were read from |
| Matches.EndMatchWellFormed | App.tsx:636-664 | on an exclusive board every pending match has 1–2 players per side (1 in singles) and no player twice |
| Matches.SidesDistinct | App.tsx:639-653 | seats of side A and side B never coincide |
| Matches.Winners | App.tsx:690 | the side named by the result |
| Matches.Losers | App.tsx:691 | the other side: team B when A won, team A when B won |
| Matches.FeeShare | App.tsx:714 | the per-loser share is the fee divided by the number of losers, rounded down (`Matches.FeeShareExact`: exact for one or two) |
| Matches.FeesAfter | App.tsx:713-722 | the fee ledger after a decided match; `Matches.FeesConserved` states each loser pays one share and the total grows by one match fee |
| Matches.FeeShareExact | App.tsx:713-716 | for 1 or 2 losers, the share times the number of losers is exactly SHUTTLECOCK_FEE_PER_MATCH |
| Matches.FeesConserved | App.tsx:713-722 | a decided match adds one match fee to the ledger's total; each loser pays one share and every other entry is unchanged |
| Matches.FeeAt | App.tsx:713-722 | one key's fee after the match: plus one share for a loser, unchanged for everyone else |
| Matches.Decided | App.tsx:724-731 | the logged match keeps the court, the game type and both teams; its losing team is not the winner |
| Roster.Reloaded | App.tsx:101-107 | reloaded identities are regular, non-guest entries with a fresh session state |
| Roster.InitialPlayers | App.tsx:89-118 | the roster starts with the guest, followed by the stored identities, or the two default players when nothing is stored |
| Roster.Storable | App.tsx:120-129 | the stored list has at most one identity per roster entry |
| Roster.StorableAppend | App.tsx:120-129 | saving keeps roster order: the saved list of a concatenation is the saved lists of its parts |
| Roster.ReloadedAppend | App.tsx:101-107 | reloading keeps stored order: the reload of a concatenation is the reloads of its parts |
| Roster.ReloadKeepsIdentities | App.tsx:89-129 | storing and reloading regular entries keeps every id, name and phone in order |
| Roster.ReloadFresh | App.tsx:89-129 | entries already in a fresh session state reload unchanged |
| Roster.SessionRosterRoundTrip | App.tsx:89-129 | storing the guest plus fresh regulars and starting again gives back the same roster |
| Roster.StorableSkipsGuest | App.tsx:120-129 | the guest never reaches storage |
| Roster.AddPlayer | App.tsx:419-425 | a blank name changes nothing; otherwise one fresh regular with the trimmed name is appended |
| Roster.RemovePlayer | App.tsx:427-430 | the entries kept are exactly those with another id |
| Roster.RemoveAbsent | App.tsx:427-430 | removing an absent id changes nothing |
| Roster.AddThenRemove | App.tsx:419-430 | removing the player just added gives back the roster |
| Roster.RemoveAppend | App.tsx:427-430 | removing an id drops a matching entry appended at the end |
| Roster.RemovePlayerAppend | App.tsx:427-430 | removal keeps roster order: removing from a concatenation removes from each part |
| Roster.UpdateInfo | App.tsx:458-463 | only the entries with the id take the new name and phone; length and order are kept |
| Roster.FindGuest | App.tsx:467 | `find(p => p.isGuest)` gives the first guest of the roster, or None when there is none |
| Roster.GuestPrefix | App.tsx:467 | the guest entry kept ahead of the imported players: one guest of the roster, or nothing when the roster has no guest |
| Roster.ImportReplace | App.tsx:469-490 | the guest is kept, then one fresh entry per row with its name as given and its phone or '' |
| Roster.Regulars | App.tsx:492 | exactly the non-guest entries |
| Roster.RegularsAppend | App.tsx:492 | the filter keeps roster order and repeats: it distributes over concatenation |
| Roster.NameKey | App.tsx:493-494 | the merge's comparison key, trimmed and lower-cased: as long as the trimmed name, and empty exactly for a blank name |
| Roster.NameKeyIgnoresPadding | App.tsx:493-494 | padding around a name does not change its key |
| Roster.NameKeyVietnamese | App.tsx:493-497 | "Đức" and "đức" have one key, so the merge treats them as one name |
| Roster.NewRows | App.tsx:493-497 | the rows kept are those whose trimmed name is non-blank and not an existing lower-cased name; duplicates within the file stay |
| Roster.NewRowsAppend | App.tsx:495-497 | the merge filter keeps file order: the new rows of a concatenation are the new rows of its parts |
| Roster.NewRowsSnoc | App.tsx:495-497 | one more row adds itself exactly when it is new, so the added count is the number of new rows |
| Roster.NewRowsAllNew | App.tsx:495-497 | when every row is new all are added, in order and with repeats: rows are compared with the roster, not with each other |
| Roster.MergedPlayer | App.tsx:504-513 | a merged row becomes a regular player with the fresh id, the trimmed name, the trimmed phone or '' and a fresh session state |
| Roster.MergeRows | App.tsx:493-497 | the rows a merge adds are exactly the file's rows with a non-blank name whose key no regular player of the roster has |
| Roster.MergeRowsAppend | App.tsx:493-502 | the rows a merge adds come in file order, so the "added" count of a file is the sum over its parts |
| Roster.ImportMerge | App.tsx:491-520 | None (the no-op notice) iff no row is new; otherwise guest and regulars, then the new rows as fresh entries |
| Roster.MergedPlayers | App.tsx:504-513 | one entry per kept row, with the matching fresh id |
| Roster.MergeAddsOnlyNewNames | App.tsx:491-520 | every added name is non-blank, trimmed, and differs in lower case from every existing regular's name |
| Roster.UpdateDrink | App.tsx:524-541 | only the entries with the id change, and only their drink counter |
| Roster.UpdateFood | App.tsx:543-560 | only the entries with the id change, and only their food counter |
| Roster.NextQuantity | App.tsx:562-566 | the new quantity is (quantity \|\| 1) + amount when that is at least 1, and 1 otherwise |
| Roster.QuantityOr1 | App.tsx:279 | `quantity \|\| 1`: 0 reads as 1, any other value as itself |
| Roster.UpdateQuantity | App.tsx:562-566 | only a guest entry with that id changes, and only its quantity |
| Roster.QuantityUndo | App.tsx:562-566 | '+' then '-' restores a quantity; a quantity never drops below 1 |
| Roster.SetAdjustment | App.tsx:578-584 | only the entries with the id take the new adjustment |
| Roster.TogglePaid | App.tsx:586-588 | only the entries with the id flip their paid flag |
| Roster.TogglePaidTwice | App.tsx:586-588 | toggling twice restores the roster |
| Roster.MarkAllPaid | App.tsx:590-592 | every entry becomes paid and nothing else changes |
| Roster.MarkAllPaidIdempotent | App.tsx:590-592 | marking all paid twice is marking them once |
| RosterInvariant.AppendUnique | App.tsx:465-521 | joining two id-distinct lists with no shared id keeps ids distinct |
| RosterInvariant.AppendFresh | App.tsx:465-521 | appending fresh regular entries keeps the roster invariant |
| RosterInvariant.AddPlayerOk | App.tsx:419-425 | adding a player under a fresh id keeps the roster invariant |
| RosterInvariant.TailUnique | App.tsx:427-430 | a roster's tail keeps distinct ids and holds no entry with the head's id |
| RosterInvariant.ConsUnique | App.tsx:427-430 | an entry whose id the rest lacks can be put in front |
| RosterInvariant.RemoveUnique | App.tsx:427-430 | the filter keeps ids distinct |
| RosterInvariant.RemovePlayerOk | App.tsx:427-430 | removing a regular keeps the roster invariant |
| RosterInvariant.SameShapeOk | App.tsx:458-592 | an update that keeps ids and the guest flags keeps the roster invariant |
| RosterInvariant.UpdateInfoOk | App.tsx:458-463 | renaming keeps the roster invariant |
| RosterInvariant.UpdateDrinkOk | App.tsx:524-541 | a drink update keeps the roster invariant |
| RosterInvariant.UpdateFoodOk | App.tsx:543-560 | a food update keeps the roster invariant |
| RosterInvariant.UpdateQuantityOk | App.tsx:562-566 | a quantity update keeps the roster invariant |
| RosterInvariant.SetAdjustmentOk | App.tsx:578-584 | an adjustment keeps the roster invariant |
| RosterInvariant.TogglePaidOk | App.tsx:586-588 | a paid toggle keeps the roster invariant |
| RosterInvariant.MarkAllPaidOk | App.tsx:590-592 | marking all paid keeps the roster invariant |
| RosterInvariant.GuestPrefixIsHead | App.tsx:467 | on a roster with the guest first, the guest part is exactly the head |
| RosterInvariant.AppendFreshIds | App.tsx:469-520 | appending entries under fresh ids keeps the roster invariant |
| RosterInvariant.HeadOk | App.tsx:486 | the guest alone is a valid roster with the same fresh ids |
| RosterInvariant.ImportReplaceOk | App.tsx:469-490 | a replacing import keeps the roster invariant |
| RosterInvariant.RegularsOfRegulars | App.tsx:492 | a list of regulars is its own regular part |
| RosterInvariant.KeptIsRoster | App.tsx:515 | guest plus regulars is the roster again when the guest is first |
| RosterInvariant.ImportMergeOk | App.tsx:491-520 | a merging import keeps the roster invariant |
| RosterInvariant.MergedOk | App.tsx:515 | the roster followed by the merged entries keeps the invariant |
| RosterInvariant.MergedPlayersOk | App.tsx:504-513 | the merged entries are regulars with distinct fresh ids |
| RosterInvariant.MergedPlayerOk | App.tsx:504-513 | one merged entry is a regular under its fresh id |
| RosterInvariant.InitialPlayersOk | App.tsx:89-118 | the starting roster satisfies the invariant |
| RosterInvariant.StoredUnique | App.tsx:120-129 | the stored identities of a valid roster reload with distinct ids |
| Engine.InitialCourtGameTypes | App.tsx:131-137 | every court starts as doubles |
| Engine.Archive | App.tsx:747-760 | the archived session holds the given id and date, the player details and the matches; its drinks, food, shuttlecock and grand totals are the column sums of those details, its court fee is the sum of the court fees, and its grand total splits into its parts plus the adjustments |
| Engine.AutoFillExclusive | App.tsx:386-417 | auto-assign keeps every player in at most one slot |
| Engine.SessionEngine.constructor | App.tsx:154-187 | the initial state: initial roster, empty board and ledgers, no matches, every court doubles, the saved history and catalogs |
| Engine.SessionEngine.AssignPlayer | App.tsx:366-376 | the board after Assign; p sits in exactly the chosen slot; the invariant holds |
| Engine.SessionEngine.Unassign | App.tsx:378-384 | only that slot becomes null |
| Engine.SessionEngine.AutoAssign | App.tsx:386-417 | reports whether anyone was queued; the board becomes the greedy fill from the unassigned queue, unchanged when it is empty |
| Engine.SessionEngine.SetCourtGameType | App.tsx:608-621 | the court's type is set; singles nulls that court's second seats, doubles leaves the board alone |
| Engine.SessionEngine.AddPlayer | App.tsx:419-425 | the roster after AddPlayer, stored when it changed |
| Engine.SessionEngine.StoreRoster | App.tsx:120-129 | the roster is replaced and its identities stored |
| Engine.SessionEngine.RemovePlayer | App.tsx:427-456 | the entry goes, its wins, losses and fee entries are deleted, and every slot that held it becomes null |
| Engine.SessionEngine.UpdatePlayerInfo | App.tsx:458-463 | the roster after UpdateInfo, stored |
| Engine.SessionEngine.ImportPlayers | App.tsx:465-521 | replace: the roster after ImportReplace and the board and ledgers reset; merge: the roster after ImportMerge or unchanged; the number added |
| Engine.SessionEngine.ReplaceRoster | App.tsx:469-490 | the replacing import with the board, wins, losses and fees reset |
| Engine.SessionEngine.MergeRoster | App.tsx:491-520 | the merging import, or no change when nothing is new, with the number added |
| Engine.SessionEngine.UpdateDrink | App.tsx:524-541 | the roster after UpdateDrink |
| Engine.SessionEngine.UpdateFood | App.tsx:543-560 | the roster after UpdateFood |
| Engine.SessionEngine.UpdateQuantity | App.tsx:562-566 | the roster after UpdateQuantity |
| Engine.SessionEngine.UpdateAdjustment | App.tsx:578-584 | the roster after SetAdjustment |
| Engine.SessionEngine.TogglePaid | App.tsx:586-588 | the roster after TogglePaid |
| Engine.SessionEngine.MarkAllPaid | App.tsx:590-592 | everyone paid, and the live summary's paid total equals its grand total |
| Engine.SessionEngine.SetDrinks | App.tsx:594-599 | the drinks catalog is replaced |
| Engine.SessionEngine.SetFoods | App.tsx:601-606 | the foods catalog is replaced |
| Engine.SessionEngine.EndMatch | App.tsx:636-664 | a pending match is set iff both teams have an occupant, and then it is that court's EndMatch snapshot |
| Engine.SessionEngine.ConfirmResult | App.tsx:666-738 | no pending match: nothing changes; a draw only nulls the court and clears the match; a win also adds the win/loss tallies, the loser fee shares and one logged match |
| Engine.SessionEngine.RecordWin | App.tsx:690-731 | a win per winner, a loss and a fee share per loser, one match appended and counted |
| Engine.SessionEngine.SaveSession | App.tsx:741-780 | exactly one session is archived from the current state, then the roster restarts from storage and the board, ledgers and matches are empty |
| Engine.SessionEngine.StartOver | App.tsx:770-777 | the reset after saving: initial roster, empty board, ledgers and matches |
| Engine.SessionEngine.CurrentSummary | App.tsx:266-326 | the live summary of the current roster, catalogs and ledgers; `Engine.SessionEngine.MarkAllPaid` states its paid total after marking all paid |
| JsText.TrimStart | App.tsx:420 | the leading white space is dropped and nothing else |
| JsText.TrimEnd | App.tsx:420 | the trailing white space is dropped and nothing else |
| JsText.Trim | App.tsx:420 | the result is trimmed, no longer than the input, and holds only its characters |
| JsText.TrimIsSlice | App.tsx:420 | what `trim` keeps is one slice of the input with nothing but white space before and after it |
| JsText.TrimOfTrimmed | App.tsx:420 | a trimmed string trims to itself |
| JsText.TrimIdempotent | App.tsx:420 | trimming twice is trimming once |
| JsText.BlankIffAllSpace | App.tsx:420 | a string trims to empty iff it is all white space |
| JsText.Lower | App.tsx:494 | a Latin capital maps to a different character that is not a capital; every other character is kept |
| JsText.ToLower | App.tsx:494 | lower-casing keeps the length, maps each ASCII capital to its small letter, each Latin capital to a non-capital, and keeps every other character |
| JsText.ToLowerIdempotent | App.tsx:494 | lower-casing twice is lower-casing once |
| JsText.ToLowerDuc | App.tsx:494 | "Đức" and "đức" both lower-case to "đức" |
| JsText.ContainsChar | components/ImportPlayersModal.tsx:74 | `includes` of a one-character string is membership of that character |
| CsvImport.Fields | components/ImportPlayersModal.tsx:16-32 | the character scan of `parseCsvRow`; `CsvImport.FieldCount` states it gives one field more than the unquoted separators |
| CsvImport.FieldCount | components/ImportPlayersModal.tsx:16-32 | a row splits into one field more than its separators outside quotes, so never zero fields |
| CsvImport.Collapse | components/ImportPlayersModal.tsx:37 | collapsing quote pairs never lengthens a field |
| CsvImport.CleanField | components/ImportPlayersModal.tsx:34-40 | every cleaned field is trimmed; a field not wrapped in quotes is just trimmed; a quoted one loses its outer quotes, has its quote pairs collapsed and is trimmed again (a lone quote gives the empty field) |
| CsvImport.ParsedRow | components/ImportPlayersModal.tsx:12-41 | `parseCsvRow` returns separators-outside-quotes + 1 fields, each trimmed |
| CsvImport.ParseCsvRow | components/ImportPlayersModal.tsx:12-41 | the row parser computes ParsedRow |
| CsvImport.ScanRow | components/ImportPlayersModal.tsx:16-32 | the character loop computes the reference scanner |
| CsvImport.QuoteStep | components/ImportPlayersModal.tsx:19-21 | inside quotes, `""` adds one literal quote and stays in quotes |
| CsvImport.SeparatorStep | components/ImportPlayersModal.tsx:25-27 | a separator outside quotes ends the field |
| CsvImport.SplitOn | components/ImportPlayersModal.tsx:67 | a split always has at least one piece |
| CsvImport.DropCR | components/ImportPlayersModal.tsx:67 | a carriage return at the end of a line is dropped (`\r?\n`); any other line is kept |
| CsvImport.Lines | components/ImportPlayersModal.tsx:67 | a text always has at least one line |
| CsvImport.NonBlank | components/ImportPlayersModal.tsx:67 | a line is kept iff it is one of the input lines and not blank |
| CsvImport.NonBlankAppend | components/ImportPlayersModal.tsx:67 | the filter keeps line order: it distributes over concatenation |
| CsvImport.NonBlankOne | components/ImportPlayersModal.tsx:67 | one line is kept exactly when it is not blank |
| CsvImport.SeparatorRule | components/ImportPlayersModal.tsx:73-74 | the separator is `;` iff the first line holds one, and `,` otherwise |
| CsvImport.Separator | components/ImportPlayersModal.tsx:73-74 | `;` when the first line holds one, else `,`; `CsvImport.SeparatorRule` states it |
| CsvImport.IsHeader | components/ImportPlayersModal.tsx:76-77 | the first line is a header when its lower-cased text contains one of the five keywords; `CsvRoundTrip.HeaderRecognised` states the export header is one |
| CsvImport.RowOf | components/ImportPlayersModal.tsx:91-95 | a row is kept iff column 0 is non-blank; it is {column 0, column 1 or ''} |
| CsvImport.ParseRows | components/ImportPlayersModal.tsx:88-97 | every kept row has a non-blank trimmed name and a trimmed phone |
| CsvImport.ParseRowsAppend | components/ImportPlayersModal.tsx:88-97 | lines are read in order: the rows of a concatenation are the rows of its parts |
| CsvImport.ParseRowsSnoc | components/ImportPlayersModal.tsx:88-97 | one more line adds the row it reads; a blank line or a line with a blank name adds nothing |
| CsvImport.ExtractPlayers | components/ImportPlayersModal.tsx:62-104 | the unreadable notice iff the text is empty; success gives a non-empty list of valid rows |
| CsvImport.ExtractPlayersCases | components/ImportPlayersModal.tsx:62-104 | for a non-empty text, case by case over its non-blank lines: none gives the no-data notice; a lone header line the after-header notice; otherwise the header is skipped exactly when the first line is one, the separator comes from the first line, and the remaining lines parse to the players, the no-valid-players notice when none has a name |
| CsvImport.BlankFileHasNoData | components/ImportPlayersModal.tsx:67-71 | a non-empty all-white-space file gives the no-data notice |
| CsvImport.NoLinesOfEmpty | components/ImportPlayersModal.tsx:67-71 | an empty trimmed text has no non-blank line |
| PlayerManagement.DoubleQuotes | components/PlayerManagementModal.tsx:124 | doubling quotes never shortens, and leaves a quote-free value as it is |
| PlayerManagement.CollapseUndoesDoubling | components/PlayerManagementModal.tsx:124 | the importer's quote collapse inverts the exporter's quote doubling |
| PlayerManagement.Escape | components/PlayerManagementModal.tsx:117-126 | the value is always wrapped in quotes with every quote doubled; null gives `""` |
| PlayerManagement.ExportRow | components/PlayerManagementModal.tsx:129-130 | one player as `escaped name,escaped phone`; `CsvRoundTrip.ExportRowParses` states it reads back as the player's name and phone |
| PlayerManagement.JoinLines | components/PlayerManagementModal.tsx:131 | `join("\n")`; `CsvRoundTrip.LinesOfJoin` states splitting it at line feeds gives the lines back |
| PlayerManagement.EscapeTest | components/PlayerManagementModal.tsx:123 | the `includes` test is membership of `,`, `"` or newline |
| PlayerManagement.ExportRows | components/PlayerManagementModal.tsx:129-131 | one row per player, in list order |
| PlayerManagement.ExportCsv | components/PlayerManagementModal.tsx:111-132 | an empty list refuses to export; otherwise the header then the rows, joined by newlines |
| PlayerManagement.AddClick | components/PlayerManagementModal.tsx:98-103 | a blank input adds nothing; otherwise exactly the trimmed input is passed, which is non-empty |
| PlayerManagement.AddClickAdds | components/PlayerManagementModal.tsx:98-103 | an accepted add appends one regular with the trimmed name |
| PlayerManagement.SaveEdit | components/PlayerManagementModal.tsx:26-31 | an update is sent exactly when the name is not blank and the trimmed name or phone differs from the stored one, and what is sent is the trimmed name and the trimmed phone |
| PlayerManagement.CancelEdit | components/PlayerManagementModal.tsx:33-37 | the inputs go back to the stored name and the stored phone, or '' when there is none |
| PlayerManagement.SaveAfterCancel | components/PlayerManagementModal.tsx:33-37 | saving right after a cancel sends nothing |
| PlayerManagement.SaveSettles | components/PlayerManagementModal.tsx:26-31 | after a sent edit is applied, saving the same inputs again sends nothing |
| CsvRoundTrip.OpenQuote | components/ImportPlayersModal.tsx:18-23 | a quote outside quotes opens a quoted section |
| CsvRoundTrip.CloseQuote | components/ImportPlayersModal.tsx:18-23 | a lone quote inside quotes closes it |
| CsvRoundTrip.KeepChar | components/ImportPlayersModal.tsx:28-30 | any other character, and a separator inside quotes, joins the field |
| CsvRoundTrip.ScanQuoted | components/ImportPlayersModal.tsx:16-32 | a quoted section of doubled quotes reads back as the original text, separators included |
| CsvRoundTrip.ScanEscaped | components/PlayerManagementModal.tsx:117-126 | an escaped value scans back to the value |
| CsvRoundTrip.ScanExportRow | components/PlayerManagementModal.tsx:129-131 | an exported row scans to exactly [name, phone] |
| CsvRoundTrip.CleanSafe | components/ImportPlayersModal.tsx:34-40 | the clean-up leaves a trimmed field without surrounding quotes or newlines as it is |
| CsvRoundTrip.ParseExportRow | components/PlayerManagementModal.tsx:128-130 | `parseCsvRow(row, ',')` of an exported row is [name, phone] for names and phones without newlines, surrounding white space or surrounding quotes |
| CsvRoundTrip.CleanPair | components/ImportPlayersModal.tsx:34-40 | two safe scanned fields clean to themselves |
| CsvRoundTrip.RowOfPair | components/ImportPlayersModal.tsx:34-40 | a two-field row parses to the two cleaned fields |
| CsvRoundTrip.ImportedRows | components/PlayerManagementModal.tsx:129-131 | one imported row per exported player |
| CsvRoundTrip.DoubleQuotesKeeps | components/PlayerManagementModal.tsx:124 | doubling quotes neither adds nor removes any other character |
| CsvRoundTrip.ExportRowShape | components/PlayerManagementModal.tsx:129-131 | an exported row is one non-blank trimmed line |
| CsvRoundTrip.ExportRowParses | components/ImportPlayersModal.tsx:88-97 | the importer turns an exported row back into its name and phone |
| CsvRoundTrip.ParseRowsCons | components/ImportPlayersModal.tsx:88-97 | a kept first line becomes the first row |
| CsvRoundTrip.ParseExportRows | components/ImportPlayersModal.tsx:88-97 | the importer turns the exported rows back into the players' names and phones, in order |
| CsvRoundTrip.SplitOnAbsent | components/ImportPlayersModal.tsx:67 | a text without the separator is one piece |
| CsvRoundTrip.SplitOnFirst | components/ImportPlayersModal.tsx:67 | splitting splits at the first separator |
| CsvRoundTrip.SplitJoin | components/ImportPlayersModal.tsx:67 | splitting the newline join of newline-free lines gives them back |
| CsvRoundTrip.JoinTrimmed | components/ImportPlayersModal.tsx:67 | a join of plain lines is non-empty and trimmed |
| CsvRoundTrip.TailPlain | components/ImportPlayersModal.tsx:67 | the tail of plain lines is plain |
| CsvRoundTrip.LinesOfJoin | components/ImportPlayersModal.tsx:67 | the line split and blank filter give back joined plain lines |
| CsvRoundTrip.LinesOfPieces | components/ImportPlayersModal.tsx:67 | plain pieces carry no carriage return to drop |
| CsvRoundTrip.NonBlankKeeps | components/ImportPlayersModal.tsx:67 | plain lines survive the blank filter |
| CsvRoundTrip.NonBlankCons | components/ImportPlayersModal.tsx:67 | a plain first line survives the blank filter |
| CsvRoundTrip.HeaderPlain | components/PlayerManagementModal.tsx:128 | the export header is a plain line |
| CsvRoundTrip.ExportRowsPlain | components/PlayerManagementModal.tsx:129-131 | every exported row is a plain line |
| CsvRoundTrip.ConsPlain | components/PlayerManagementModal.tsx:128-131 | the header followed by the rows is a list of plain lines |
| CsvRoundTrip.HeaderRecognised | components/ImportPlayersModal.tsx:73-81 | the export header is recognised as a header and selects `,` |
| CsvRoundTrip.CapitalHeaderRecognised | components/ImportPlayersModal.tsx:73-81 | the all-capitals header "HỌ VÀ TÊN;SĐT" is recognised as a header and selects `;` |
| CsvRoundTrip.ExportImportRoundTrip | components/PlayerManagementModal.tsx:111-132 | importing an export gives back every player's name and phone, in order |
| Catalog.AddClick | components/DrinkManagementModal.tsx:90-97 | an acceptable input appends exactly one {fresh id, trimmed name, price} at the end and clears the inputs; otherwise nothing changes; the food and shuttlecock dialogs repeat it at FoodManagementModal.tsx:90-97 and CostSettingsModal.tsx:92-99 |
| Catalog.Update | components/DrinkManagementModal.tsx:105-107 | only the items with the id take the new name and price; length, ids and order are kept; the food and shuttlecock dialogs repeat it at FoodManagementModal.tsx:105-107 and CostSettingsModal.tsx:107-109 |
| Catalog.Without | components/DrinkManagementModal.tsx:109-113 | exactly the items with another id are kept |
| Catalog.Remove | components/DrinkManagementModal.tsx:109-113 | a confirmed remove filters out the id; an unconfirmed one changes nothing; the food and shuttlecock dialogs repeat it at FoodManagementModal.tsx:109-113 and CostSettingsModal.tsx:111-115 |
| Catalog.WithoutAppend | components/DrinkManagementModal.tsx:109-113 | the filter keeps order: filtering a concatenation filters each part |
| Catalog.WithoutAbsent | components/DrinkManagementModal.tsx:109-113 | removing an id the list lacks leaves it as it is |
| Catalog.AddThenRemove | components/DrinkManagementModal.tsx:90-113 | removing the item just added gives back the list |
| Catalog.UpdateIdempotent | components/DrinkManagementModal.tsx:105-107 | a second identical update changes nothing |
| Catalog.RemoveAfterUpdate | components/DrinkManagementModal.tsx:105-113 | an update does not change which items a remove drops |
| Catalog.RowSave | components/DrinkManagementModal.tsx:24-29 | an update is sent exactly for a non-blank name, a price ≥ 0 and a change, with the trimmed name; the food and shuttlecock dialogs repeat it at FoodManagementModal.tsx:24-29 and CostSettingsModal.tsx:25-30 |
| Catalog.RowCancel | components/DrinkManagementModal.tsx:31-35 | cancel restores the stored name and price; the food and shuttlecock dialogs repeat it at FoodManagementModal.tsx:31-35 and CostSettingsModal.tsx:32-36 |
| Catalog.SaveAfterCancel | components/DrinkManagementModal.tsx:24-35 | saving right after a cancel sends nothing |
| Catalog.SavedRowSettles | components/DrinkManagementModal.tsx:24-29 | a sent update lands in the row's item, and saving the same inputs again sends nothing |
| Catalog.Open | components/CostSettingsModal.tsx:84 | the dialog opens on a copy of the current items with empty inputs |
| Catalog.Save | components/CostSettingsModal.tsx:88-90 | Save hands over the whole local list |
| Catalog.TypeAddSave | components/CostSettingsModal.tsx:84-99 | type, add, then Save hands over the opened list plus the new item, or the opened list when the input is rejected |
| Catalog.ApplyAllSnoc | components/CostSettingsModal.tsx:84-115 | one more handler call acts on the state the earlier ones left |
| Catalog.Apply | components/CostSettingsModal.tsx:84-115 | one handler call of the editor on its local list: typing, add, update or remove; the rows of those handlers state each effect |
| Catalog.ApplyAll | components/CostSettingsModal.tsx:84-115 | a run of handler calls applied in order; `Catalog.ApplyAllSnoc` states that one more call acts on the state the earlier ones left |
| Catalog.TypingKeepsItems | components/CostSettingsModal.tsx:84-90 | typing alone never changes the items that Save hands over |

## Left out

- Storage and file I/O are not modelled: localStorage, JSON, the auto-backup, backup and restore, FileReader and Blob. The persisted roster is an `Option<seq<Identity>>` field and a constructor parameter.
- The `.csv` file-type check of the import dialog is not modelled, because it concerns the browser's file metadata.
- The `!storageKeys` early returns of the handlers are not modelled. With no signed-in user the session screen is not shown, so the model assumes one.
- Authentication, subscriptions, date-keyed revenue statistics, court colours, the modal open/close flags and all JSX are left out. They do not touch the session state modelled here.
- JsText.ToLower: lower-cases the Latin capitals only. JavaScript's `toLowerCase` also maps Greek, Cyrillic and other scripts' capitals and the rest of Latin Extended-B, and maps U+0130 (capital I with dot) to two characters; the model keeps all of these as they are, so names or headers written in those capitals compare differently in the merge (App.tsx:493-497) and the header test (components/ImportPlayersModal.tsx:76-77).
- Board.Assign: clears every slot that holds the player, where the source clears only the first slot it finds (App.tsx:369-371). The two agree on an exclusive board, and `Engine.SessionEngine.Valid()` keeps the board exclusive, so at most one slot holds the player.
- `crypto.randomUUID()`, `window.confirm` and the session date are not modelled. They are parameters: fresh ids come with a precondition that they are not in use, and the confirmation is a boolean.
- Notification texts are not modelled. The handlers report the case as a result instead.
- Engine.SessionEngine.SaveSession: the "no players" notice (App.tsx:742-745) is not modelled. The guest is always on the roster, so that branch is unreachable.
- The merge mode of the import is wired to no button in the dialogs. It is modelled anyway, because App.tsx implements it.
- Engine.Archive: the session's `gameType` is the fixed placeholder value that App.tsx writes (App.tsx:751).
- Matches.FeeShareExact: the fee division is proved exact only for one or two losers. These are the only team sizes a court allows, so no floating-point model is needed.
- Catalog prices and adjustment amounts are integers (`int`). `Number` inputs that are NaN or fractional are not modelled.
- The itemised shuttlecock consumption and manual shuttlecock costs of the types are left out. App.tsx never fills them; it computes only the match-fee ledger.

## Findings

| source | as written | input that shows it | evidently intended | confidence | as-written member | corrected member |
|---|---|---|---|---|---|---|
| components/CourtAssignment.tsx:141 | the team lists drop only values that are exactly `null`, so a seat key never written (`undefined`) counts as a player | a court whose seat keys were never written (the empty board at start-up): both lists hold `undefined`, so the court is shown as endable and its header click calls `onEndMatch` | count only real occupants, as `handleEndMatch` does with `!!id` (App.tsx:645), so an empty court is not endable | not executed | Courts.EmptyBoardLooksEndable | Courts.EmptyBoardNotEndableFixed |

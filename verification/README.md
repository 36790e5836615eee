# Parking lot and tic-tac-toe, modelled in Dafny

This project models two small sequential systems from a Java low-level-design
repository, and proves properties about them.

1. **The parking-lot allocator.** A lot has a fixed inventory of spots grouped
   into floors. Each floor keeps an availability index ordered by distance from
   the gate.
   - `parkVehicle` tries the floors in their configured order. The first floor
     whose search yields a spot wins. That spot is claimed and a ticket is
     stored under the vehicle's licence plate.
   - `unparkVehicle` removes the ticket and frees the spot. It then offers the
     spot back to the first floor with the spot's floor number, and charges a
     fee.
   - The fee rounds the stay up to whole hours or whole minutes and multiplies
     by a per-vehicle-type rate.
2. **The tic-tac-toe board and turn state machine.** An N×N board checks
   moves, tests fullness and tests wins. A game moves through the states
   in-progress, won and drawn, and switches players after each valid move
   that does not end the game.

## Modules

| file | module | models |
|---|---|---|
| `wrappers.dfy` | `Wrappers` | `Option` and `Result` |
| `spots.dfy` | `Spots` | vehicles, spots, `assignVehicle`/`removeVehicle`, the `canFitVehicle` overrides, the `allowedTypes` table |
| `fees.dfy` | `Fees` | the integer part of the hourly and per-minute fee strategies |
| `floors.dfy` | `Floors` | `ParkingFloor`: the priority-queue search and `releaseSpot` |
| `lots.dfy` | `Lots` | `ParkingLot.parkVehicle` / `unparkVehicle` and tickets |
| `lot_properties.dfy` | `LotProperties` | the lot-wide consistency invariant and what park and unpark do to it |
| `scenarios.dfy` | `Scenarios` | the lot from the Java driver, and a nearest-first example |
| `board.dfy` | `Boards` | `Board`: constructor, `isValidMove`, `makeMove`, `isFull`, `checkWin` |
| `game.dfy` | `Games` | the `InProgressState`, `WinState` and `DrawState` turns, `switchPlayer` and `Game.start` |

### Modelling choices

- **Spots and floors.** Spots live in one inventory (`seq<Spot>`). Floors and
  tickets refer to spots by position in it, the way the Java floors and
  tickets share spot objects.
- **The floor's `PriorityQueue`.** It is modelled as the multiset of its
  entries. `Poll` removes *some* entry of least distance, so the order among
  equal distances is left unspecified, as it is in Java. This choice is made
  with `:|`, so the floor search and `ParkVehicle` are ghost functions.
- **The search loop.** `PollLoop` follows the loop of `getAvailableSpot`. It
  polls entries, sets rejected ones aside in a buffer, stops at the first
  qualifying entry, and puts the buffer back.
- **Atomic steps.** `ParkVehicle` and `UnparkVehicle` are pure transitions that
  return the new lot and a `Result`. Each call is one atomic step, which is
  what the lot's global lock provides.
- **Time and money.** Times are integers in milliseconds, passed in as `now`.
  Fees are integers in tenths of a currency unit. Java's truncating `long`
  division is written out as `JavaDiv`.
- **Tic-tac-toe cells.** A cell is `Empty` or holds a player's mark `X` or
  `O`. Players are identified by their marks. Player input is a sequence of
  positions, and `Run` consumes one position per in-progress turn.

### Behaviour of the code that the model keeps

- **Repeated licence.** `parkVehicle` does not look for an active ticket of
  the licence it parks. `put` replaces any old ticket, and the old ticket's
  spot stays occupied with no ticket referring to it
  (`LotProperties.ParkingTwiceOrphansSpot`). Occupied spots and the spots of
  active tickets therefore stay in step only when the licence is not already
  parked.
- **Where a freed spot goes.** `unparkVehicle` searches the floor list for
  the first floor whose number equals the spot's floor number and reinserts
  the spot there. If no floor matches, the spot is freed but reinserted
  nowhere. The consistency invariant therefore requires every spot's floor
  number to name a floor.
- **The policy table.** `allowedTypes` has an entry for each of the three
  vehicle types, so its lookup in the floor search always yields a set.

## Model

| member | source | states |
|---|---|---|
| `Spots.CreateSpot` | src/main/java/org/example/LLD/ParkingLot/ParkingLotMain.java:58-63 | a new spot is free, holds no vehicle, and keeps the given type, id, distance and floor |
| `Spots.IsAvailable` | src/main/java/org/example/LLD/ParkingLot/ParkingLotMain.java:65-67 | a spot is available iff it is not occupied, which on a coherent spot means it holds no vehicle |
| `Spots.AssignVehicle` | src/main/java/org/example/LLD/ParkingLot/ParkingLotMain.java:69-74 | the claim succeeds iff the spot was free; on success the spot is occupied by that vehicle and keeps its identity; on failure nothing changes |
| `Spots.RemoveVehicle` | src/main/java/org/example/LLD/ParkingLot/ParkingLotMain.java:76-79 | afterwards the spot is free, holds no vehicle, and keeps its identity |
| `Spots.RemoveUndoesAssign` | src/main/java/org/example/LLD/ParkingLot/ParkingLotMain.java:69-79 | claiming a free, empty spot succeeds, and freeing it again restores the spot exactly |
| `Spots.AllowedTypes` | src/main/java/org/example/LLD/ParkingLot/ParkingLotMain.java:279-283 | every vehicle type is permitted the spot type it fits; cars alone are permitted one more type, large spots; bike spots are permitted to bikes only |
| `Spots.CanFitVehicle` | src/main/java/org/example/LLD/ParkingLot/ParkingLotMain.java:95-115 | each spot type fits exactly one vehicle type: compact fits cars, large fits trucks, bike fits bikes |
| `Spots.Accepts` | src/main/java/org/example/LLD/ParkingLot/ParkingLotMain.java:95-115 | the policy table combined with `canFitVehicle` accepts exactly one spot type per vehicle type: car→compact, truck→large, bike→bike |
| `Spots.CarsNeverTakeLargeSpots` | src/main/java/org/example/LLD/ParkingLot/ParkingLotMain.java:279-283 | the table permits large spots for cars, yet a large spot is accepted for trucks only |
| `Fees.JavaDiv` | src/main/java/org/example/LLD/ParkingLot/ParkingLotMain.java:188 | Java `long` division: for a non-negative dividend the quotient q satisfies q·b ≤ a < q·b + b; for a negative one it truncates toward zero: q·b − b < a ≤ q·b |
| `Fees.BillableUnits` | src/main/java/org/example/LLD/ParkingLot/ParkingLotMain.java:187-188 | for a non-negative duration, the unit count k is the ceiling: (k−1)·unit < duration ≤ k·unit; a non-positive duration is charged no positive count |
| `Fees.CeilingIsUnique` | src/main/java/org/example/LLD/ParkingLot/ParkingLotMain.java:203 | the ceiling bracket above has exactly one solution, so the unit count is fully determined |
| `Fees.ExtraMillisecondChargesWholeUnit` | src/main/java/org/example/LLD/ParkingLot/ParkingLotMain.java:202-203 | k whole units charge k units; one millisecond more charges k+1 units; a zero duration charges nothing |
| `Fees.RateTenths` | src/main/java/org/example/LLD/ParkingLot/ParkingLotMain.java:191-210 | each per-unit price is positive and is, in tenths, exactly ten times the price the strategy writes (20/10/30 per hour, 0.5/0.2/1.0 per minute) |
| `Fees.FeeTenths` | src/main/java/org/example/LLD/ParkingLot/ParkingLotMain.java:184-211 | a fee is never negative for a non-negative stay, is zero for a zero stay, and is at least one unit's rate for any positive stay |
| `Fees.FeeIsCeilingTimesRate` | src/main/java/org/example/LLD/ParkingLot/ParkingLotMain.java:187-195 | a stay within the k-th unit costs exactly k times the vehicle type's rate (20/10/30 per hour, 0.5/0.2/1.0 per minute) |
| `Fees.FeeIsMonotone` | src/main/java/org/example/LLD/ParkingLot/ParkingLotMain.java:202-210 | a longer stay never costs less |
| `Floors.NewFloor` | src/main/java/org/example/LLD/ParkingLot/ParkingLotMain.java:221-226 | the new floor's index holds every spot of the floor, with its multiplicity |
| `Floors.Poll` | src/main/java/org/example/LLD/ParkingLot/ParkingLotMain.java:232 | the polled entry is in the queue and no entry is closer to the gate |
| `Floors.PollLoop` | src/main/java/org/example/LLD/ParkingLot/ParkingLotMain.java:229-239 | the selected entry qualifies and is nearest among qualifying entries; the final queue plus the selected entry equals queue plus buffer; when nothing is selected, no entry qualified and every entry is back |
| `Floors.GetAvailableSpot` | src/main/java/org/example/LLD/ParkingLot/ParkingLotMain.java:228-241 | the result is a free, permitted, fitting index entry of least distance among such entries, and only it leaves the index; if none exists, the floor is unchanged |
| `Floors.ReleaseSpot` | src/main/java/org/example/LLD/ParkingLot/ParkingLotMain.java:243-245 | the spot's multiplicity in the index grows by one; nothing else changes |
| `Floors.ReleaseUndoesSearch` | src/main/java/org/example/LLD/ParkingLot/ParkingLotMain.java:228-245 | releasing the spot a search handed out restores the floor exactly |
| `Lots.HomeFloor` | src/main/java/org/example/LLD/ParkingLot/ParkingLotMain.java:321-326 | the result is the first floor in list order with the given number, or none when no floor has it |
| `Lots.ParkFrom` | src/main/java/org/example/LLD/ParkingLot/ParkingLotMain.java:300-312 | from a given floor on, success means every earlier floor had no qualifying entry and the chosen floor gave its nearest one, which is then claimed and ticketed; failure means no floor had one and the lot is unchanged |
| `Lots.ParkVehicle` | src/main/java/org/example/LLD/ParkingLot/ParkingLotMain.java:299-313 | the first floor in list order with a qualifying entry supplies its nearest one; only that index entry, that spot and the licence's ticket change; otherwise it fails with no spot available and the lot is unchanged |
| `Lots.UnparkVehicle` | src/main/java/org/example/LLD/ParkingLot/ParkingLotMain.java:314-330 | an unknown licence fails and changes nothing; a known one loses its ticket; its spot is freed and added to the index of the first floor with a matching number, whose number and spot list stay as they were (to no floor if none matches), and every other floor and spot is unchanged; the ticket is closed at `now` and charged for the stay |
| `LotProperties.NoDoubleClaim` | src/main/java/org/example/LLD/ParkingLot/ParkingLotMain.java:304-306 | in a consistent lot no two active tickets share a spot |
| `LotProperties.NewLotIsConsistent` | src/main/java/org/example/LLD/ParkingLot/ParkingLotMain.java:221-226 | a freshly configured lot is consistent when each spot is listed on the first floor carrying its floor number |
| `LotProperties.ParkPreservesConsistency` | src/main/java/org/example/LLD/ParkingLot/ParkingLotMain.java:299-313 | parking a licence that holds no ticket keeps occupied spots exactly the spots of active tickets, and keeps free spots findable |
| `LotProperties.UnparkPreservesConsistency` | src/main/java/org/example/LLD/ParkingLot/ParkingLotMain.java:314-330 | unparking, known licence or not, keeps the lot consistent |
| `LotProperties.ParkFailsIffNothingFits` | src/main/java/org/example/LLD/ParkingLot/ParkingLotMain.java:299-313 | in a consistent lot, parking fails exactly when no spot of the lot is free, permitted and fitting |
| `LotProperties.ParkingTwiceOrphansSpot` | src/main/java/org/example/LLD/ParkingLot/ParkingLotMain.java:306 | parking an already parked licence leaves its first spot occupied with no ticket referring to it, so the lot is no longer consistent |
| `LotProperties.ParkThenUnparkRestores` | src/main/java/org/example/LLD/ParkingLot/ParkingLotMain.java:299-330 | park then unpark of the same licence gives back every spot and the ticket map, closes that ticket and charges the stay |
| `Scenarios.DriverCarTakesCompactSpot` | src/main/java/org/example/LLD/ParkingLot/ParkingLotMain.java:339-351 | on the driver's floor (bike, compact and large spot) the car gets the compact spot |
| `Scenarios.FullLotTurnsAway` | src/main/java/org/example/LLD/ParkingLot/ParkingLotMain.java:311-312 | when every spot is occupied, parking fails with no spot available and the lot is unchanged |
| `Scenarios.NearestFirstOrder` | src/main/java/org/example/LLD/ParkingLot/ParkingLotMain.java:224-241 | with compact spots at distances 3, 1, 2, successive cars get the spots at distance 1, 2, 3 and a fourth car is refused |
| `Boards.NewBoard` | src/main/java/org/example/LLD/TicTacToe/ticTacToeMain.java:41-49 | the new board is size×size and every cell is empty |
| `Boards.IsValidMove` | src/main/java/org/example/LLD/TicTacToe/ticTacToeMain.java:51-53 | a valid move is in bounds and shows the board is not full; an in-bounds position that is not valid holds a mark |
| `Boards.MakeMove` | src/main/java/org/example/LLD/TicTacToe/ticTacToeMain.java:51-61 | the move succeeds iff row and column are in [0, size) and the cell is empty; on success exactly that cell gets the mark; otherwise the board is unchanged |
| `Boards.IsFull` | src/main/java/org/example/LLD/TicTacToe/ticTacToeMain.java:63-70 | the nested scan answers true iff no cell is empty |
| `Boards.CheckWin` | src/main/java/org/example/LLD/TicTacToe/ticTacToeMain.java:72-91 | the scan, including the redundant inner loop on the diagonals, answers true iff some row, some column, the main diagonal or the anti-diagonal holds only the mark |
| `Boards.MoveCounts` | src/main/java/org/example/LLD/TicTacToe/ticTacToeMain.java:55-61 | a successful move adds one of the mover's marks and leaves the other player's count alone |
| `Boards.MoveKeepsOtherLines` | src/main/java/org/example/LLD/TicTacToe/ticTacToeMain.java:72-91 | a move by one player cannot complete a line for the other |
| `Boards.NewBoardIsOpen` | src/main/java/org/example/LLD/TicTacToe/ticTacToeMain.java:41-49 | a new board of size at least one holds no marks, is not full and has no line for either player |
| `Boards.LineNeedsSizeMarks` | src/main/java/org/example/LLD/TicTacToe/ticTacToeMain.java:72-91 | a board on which `checkWin` can find a line for a mark holds at least `size` cells of that mark |
| `Games.SwitchPlayer` | src/main/java/org/example/LLD/TicTacToe/ticTacToeMain.java:262-264 | the turn always passes to the other player |
| `Games.SwitchPlayerAlternates` | src/main/java/org/example/LLD/TicTacToe/ticTacToeMain.java:262-264 | switching twice gives the turn back, and X's successor is O |
| `Games.NewGame` | src/main/java/org/example/LLD/TicTacToe/ticTacToeMain.java:239-246 | a new game is running, in progress, with X to move |
| `Games.PlayInProgress` | src/main/java/org/example/LLD/TicTacToe/ticTacToeMain.java:182-202 | an invalid move changes nothing; a valid one places the mark, then a line wins for the mover, else a full board draws, else the turn switches |
| `Games.PlayOver` | src/main/java/org/example/LLD/TicTacToe/ticTacToeMain.java:212-227 | the won and drawn turns stop the game and change nothing else |
| `Games.Run` | src/main/java/org/example/LLD/TicTacToe/ticTacToeMain.java:271-275 | a stopped game stays as it is; a game still running at the end is in progress |
| `Games.NewGameSatisfiesInvariant` | src/main/java/org/example/LLD/TicTacToe/ticTacToeMain.java:239-246 | a new game on a board of size at least one meets the game invariant |
| `Games.PlayKeepsInvariant` | src/main/java/org/example/LLD/TicTacToe/ticTacToeMain.java:187-201 | a turn keeps the invariant: in progress means no line and a free cell, with X and O counts matching whose turn it is; won means only the winner has a line and moved last; drawn means full |
| `Games.RunKeepsInvariant` | src/main/java/org/example/LLD/TicTacToe/ticTacToeMain.java:271-275 | running the game on any input keeps the invariant |
| `Games.FinishedGameStops` | src/main/java/org/example/LLD/TicTacToe/ticTacToeMain.java:212-227 | a won or drawn game stops at the next turn without reading a move or changing the board |
| `Games.StoppedGameIgnoresMoreInput` | src/main/java/org/example/LLD/TicTacToe/ticTacToeMain.java:268-275 | once the game has stopped, extra input changes nothing |
| `Games.StoppedGameHasResult` | src/main/java/org/example/LLD/TicTacToe/ticTacToeMain.java:194-201 | a game from a new board that stops has either a winner holding a line or a full board |
| `Games.QuietMove` | src/main/java/org/example/LLD/TicTacToe/ticTacToeMain.java:187-201 | a valid move that leaves the mover short of `size` marks and leaves a cell free neither wins nor draws: it places the mark and passes the turn |
| `Games.ListingEveryEmptyCellEndsGame` | src/main/java/org/example/LLD/TicTacToe/ticTacToeMain.java:271-275 | every in-progress turn plays the next input position: a reachable game given an input that names each of its empty cells has stopped when the input is used up |
| `Games.ListingEveryCellEndsNewGame` | src/main/java/org/example/LLD/TicTacToe/ticTacToeMain.java:271-275 | from a new board, an input naming every cell ends the game with a winner holding a line or a full board |
| `Games.TopRowWin` | src/main/java/org/example/LLD/TicTacToe/ticTacToeMain.java:271-275 | on a 3x3 board the input (0,0), (1,0), (0,1), (1,1), (0,2) is played move by move: X completes the top row, wins, and the game stops |

## Left out

- Concurrency (`synchronized`, `ConcurrentHashMap`): every park and unpark is one atomic step, which is what the lot-wide lock provides.
- The singleton `INSTANCE`, `ParkingManager`, `addFloor`/`addObserver`/`setFeeStrategy` and both `main` drivers: the configuration is given as a value (`LotProperties.NewLot`); the fee strategy is a field of the lot.
- Observers (`ConsoleLogger`, `ConsoleRenderer`, `notifyMove`, `notifyGameOver`) and `Board.display`: console output with no effect on state.
- UUID ticket ids and `new Date().getTime()`: tickets carry no id; entry and exit times are parameters (`now`). The exit timestamp is `None` until it is set, instead of Java's default 0.
- Floating-point fees: fees are exact integers in tenths of a unit, so the double rounding of, say, 3 × 0.2 is not modelled.
- Fees.BillableUnits: does not model overflow of the `long` sum `duration + unit - 1`, because real durations are far below 2^63 milliseconds.
- The order `PriorityQueue` uses among spots at equal distance: it is unspecified in Java, so the model picks an arbitrary nearest entry.
- The branch of `parkVehicle` where `assignVehicle` returns false (line 304) cannot occur here. The search has just found the spot free, and nothing runs in between. The model therefore claims unconditionally, and `Lots.ParkVehicle`'s contract shows the spot was free.
- `HumanStrategy`'s `Scanner` input and `PlayerFactory`: moves are a given sequence of positions.
- Games.Run: stops when the input sequence runs out in mid-game. In Java, `Scanner.nextInt` (line 114) blocks while the console is open and waiting; once the input has ended it throws `NoSuchElementException`, which nothing catches, so the program aborts. The model has neither the wait nor the abort.
- Symbol strings: marks are `X` and `O` and the empty cell is `Empty`. `isFull` compares by reference while `isValidMove` and `checkWin` compare string values. These agree as long as the player symbols differ from each other and from "-", as they do in the driver.
- Player names and the `Vehicle` subclasses: a vehicle is a licence plus a type; a player is its mark.
- Boards.NewBoard: takes a natural size, so a negative size is excluded. In Java, `new Symbol[size][size]` (line 43) throws `NegativeArraySizeException` for a negative size, and that error path is not modelled.
- Board of size 0: modelled as written. It counts as full and as won, but no move is ever valid. The game invariant therefore assumes size at least one.
- LotProperties.ParkPreservesConsistency: requires the licence to have no active ticket, because `parkVehicle` overwrites an existing ticket and orphans its spot (see `LotProperties.ParkingTwiceOrphansSpot`).

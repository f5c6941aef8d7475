# Alien invasion, modelled in Dafny

A model of `alien_invasion.py`, a small simulation in which aliens wander
over a map of cities linked north, south, east and west. When two or more
aliens meet in a city they fight: they all die and the city is destroyed,
taking its roads with it. The game stops when every surviving alien has
made its ten thousand moves, or when no alien is left.

The model keeps the program's imperative shape. A `Board` class holds the
state that the source spreads over its `Board`, `City` and `Alien` objects,
as fields that the methods update:

- city `c` is index `c` of `name`, `links` and `occupants`;
- alien `a` is index `a` of `location`, `moves` and `alive`;
- `occupiedCities`, `livingCities`, `destroyedCities`, `livingAliens` and
  `deadAliens` are the board's five sets.

The source methods that update the board become methods of `Board` with a
`modifies` clause, and their loops carry invariants. `NameIndex`,
`ParseMap` and `FormatLine` build new values and modify nothing existing.
The destination of a move (`Destination`, `ChoiceIndex`) is a function.
The methods are proved against specification functions (`Detach`,
`Prune`, `Relocated`, `Bumped`, `Crowded`, `Victims`, `Line`, `Export`).
The board invariant `Board.Valid` is made of value predicates (`GraphOk`,
`OccupancyOk`, `AliensOk`). The constructor establishes it, and `ParseMap`
does too on a reciprocal map. The game operations keep it: `Move`,
`MoveBy`, `MoveNext`, `MoveAliens`, `Fight`, `FightIn`, `CheckCity`,
`CheckCities`, `CheckOccupancy`, `MoveAndFight`, `PlayRound`, `RunGame`,
`SetupAliens`, and `SetupGame` when it accepts the board. The other
methods (`Destroy`, `AddAlien`, `RemoveAlien`, `Kill`, `KillOccupants`,
`Walk`, `NewAlien`, `NewCity`, `SetLink`, `AddCities`, `ResolveCity`,
`ResolveAll`) only state their effect on the fields. They are steps inside
the operations above, which pass through states where the invariant is
broken. Only the alien part (`AliensOk`) breaks in the middle of a move:
`AddKeepsOccupancy` and `RemoveKeepsOccupancy` show that `AddAlien` (in a
living city) and `RemoveAlien` each keep the occupancy part
(`OccupancyOk`).

Files:

- `geography.dfy` (module `Geography`): directions, the four optional links
  of a city, the link surgery of `City.destroy` (`Detach`), and deleting
  cities from a graph (`Prune`).
- `map_format.dfy` (module `MapFormat`): the parsed records of a map file,
  name resolution, and the line format of `write_cities`.
- `board.dfy` (module `Invasion`): the board, cities, aliens, fights,
  rounds, setup, parsing and saving.

Randomness is a parameter:

- `random.choice` becomes an index `idx` into the available directions in
  `Move`, or a number taken modulo their count in `MoveBy` and `RunGame`
  (`oracle(k)` for the `k`-th move).
- `random.sample` becomes the sequence `starts` of `SetupGame`.

Iteration over a Python set becomes Dafny's `:|` choice. Nothing the proofs
state depends on the iteration order.

Where the described behaviour of the program and its code differ, the model
follows the code:

- The round loop compares move counts with the literal 10000. The
  `max_moves` argument is accepted and ignored (`RunGame`'s `maxMoves`).
- The "no living cities" stop is the test `len(board.living_cities) < 0`,
  which never holds. `PlayRound` keeps that test as written.
  `NoCitiesNoAliens` proves that this loses nothing: under the board
  invariant, a board without living cities has no living aliens, so the
  empty-aliens test stops the game anyway.
- The docstring of `check_occupancy` speaks of more than 2 aliens
  (line 214), but the code fights when there are more than 1 (line 220).
  `CheckCity` follows the code.
- The docstring of `run_game` speaks of stopping when only a single alien
  is left (line 244), but the code stops when there are fewer than 1
  (line 261). `PlayRound` follows the code.

## Model

| member | source | states |
|---|---|---|
| Geography.Links.Set | alien_invasion.py:187 | `setattr` changes the field of the given direction to the given value and leaves the other three as they were |
| Geography.ValidMoves | alien_invasion.py:121-123 | a direction is available exactly when the city has a link that way; there is none exactly when the city has no links |
| Geography.ValidMovesOrdered | alien_invasion.py:121-123 | the available directions come in north, south, east, west order, each at most once |
| Geography.ClearBackFields | alien_invasion.py:44-51 | one `if self.d: self.d.opposite = None` step clears only the opposite-direction field of the neighbour in direction `d`; every other field of every city is unchanged |
| Geography.Detach | alien_invasion.py:37-57 | after `destroy` the destroyed city has no links, and every link still points into the map |
| Geography.DetachOnlyBackLinks | alien_invasion.py:44-51 | `destroy` changes a field of another city only by setting it to None, and only the field in direction `e` of a city that the destroyed city linked to in the opposite direction |
| Geography.DetachClearsBackLinks | alien_invasion.py:44-51 | every neighbour of the destroyed city loses its link back, when the map is reciprocal or the city has no link to itself |
| Geography.DetachIsPrune | alien_invasion.py:37-57 | on a reciprocal map, `destroy` deletes the city from the graph: it clears exactly the links at both ends of each of its roads |
| Geography.PruneReciprocal | alien_invasion.py:153-167 | deleting cities keeps the map geographically valid (every road can be travelled both ways) |
| Geography.PruneUnion | alien_invasion.py:219-239 | deleting one set of cities and then another is the same as deleting both at once, so the fights of a round compose |
| MapFormat.LookupResolves | alien_invasion.py:187 | `city_name_mapping.get(name, None)` gives a city of that name, or None exactly when there was no name or no city has it |
| MapFormat.FormatLine | alien_invasion.py:273-280 | the line built for a city is its name, one ` direction=name` token per present link in north, south, east, west order, and a newline |
| MapFormat.LineIsOneLine | alien_invasion.py:280 | a written city line ends in its only newline, given newline-free names |
| MapFormat.EnumerationSize | alien_invasion.py:272 | visiting every city of a set once takes one step per city |
| MapFormat.ExportRoundTrip | alien_invasion.py:269-280 | resolving the exported records again gives one city per written city, each with the same links in the same directions to the same neighbours (living cities with distinct names, no living link into a destroyed city) |
| Invasion.Board.constructor | alien_invasion.py:12-20 | a new board has no cities, no aliens and empty sets, and satisfies the board invariant |
| Invasion.Board.NewCity | alien_invasion.py:23-35 | a new city gets the next id, its name and links, no occupants, and joins the living cities |
| Invasion.Board.SetLink | alien_invasion.py:187 | one link of one city changes; nothing else does |
| Invasion.Board.AddCities | alien_invasion.py:174-181 | city `i` is created from record `i` with no links and no occupants, and the living cities are exactly the created ones |
| Invasion.NameIndex | alien_invasion.py:183 | every city's name is a key of the index, and each key maps to a city with that name |
| Invasion.Board.ResolveCity | alien_invasion.py:186-187 | each of the city's four links is resolved by name; no other city changes |
| Invasion.Board.ResolveAll | alien_invasion.py:185-187 | after the loop every link of every city is resolved by name |
| Invasion.ParseMap | alien_invasion.py:149-189 | the parsed board has city `i` named after record `i`, every link resolved by name, all cities living, no aliens; on a reciprocal map it satisfies the board invariant |
| Invasion.Board.Destroy | alien_invasion.py:37-60 | the links become `Detach` of the old links; the city leaves the living and occupied sets and joins the destroyed set |
| Invasion.Board.AddAlien | alien_invasion.py:62-71 | the alien joins the city's occupants and the city becomes occupied |
| Invasion.Board.RemoveAlien | alien_invasion.py:73-83 | the alien, which must be an occupant, leaves; the city stops being occupied exactly when it was the last occupant |
| Invasion.AddKeepsOccupancy | alien_invasion.py:62-71 | adding an alien to a living city keeps every living city occupied exactly when its occupant set is not empty |
| Invasion.RemoveKeepsOccupancy | alien_invasion.py:73-83 | removing an occupant keeps every living city occupied exactly when its occupant set is not empty |
| Invasion.Board.NewAlien | alien_invasion.py:94-108 | a new alien gets the next id, stands in its city with no moves, is alive and living, and is an occupant there |
| Invasion.Board.Kill | alien_invasion.py:133-140 | the alien, which must be living, becomes dead in the flags and the sets; its city's occupants are untouched |
| Invasion.Board.Destination | alien_invasion.py:121-127 | a city with no links keeps the alien where it is; otherwise the alien goes to a neighbour along some link |
| Invasion.Board.Move | alien_invasion.py:110-131 | a dead alien changes nothing; a living one moves to the chosen destination, counts one move, leaves its old occupant set and joins the new one, with the occupied set updated; the board invariant holds after |
| Invasion.Board.Walk | alien_invasion.py:120-131 | the steps after the `alive` test: the new location, move count, occupant sets and occupied set |
| Invasion.Board.ChoiceIndex | alien_invasion.py:125-126 | the choice is an index into the available directions whenever there is one |
| Invasion.Board.MoveBy | alien_invasion.py:255 | `alien.move()` with a random choice: one more move for this living alien, to the destination of the chosen direction (or where it stands, in a linkless city), with its occupant sets and the occupied set updated; no other alien moves, no ruin's occupant set changes, and the board invariant holds |
| Invasion.Board.MoveNext | alien_invasion.py:251-255 | one pass of the loop: one more alien has moved one step along a link, the others that moved before keep their moves, and the ruins' occupant sets are unchanged |
| Invasion.MoveKeeps | alien_invasion.py:110-131 | a move keeps every living alien in exactly one occupant set, its own city's, and keeps a living city occupied exactly when its occupant set is not empty |
| Invasion.LivingLinksLiving | alien_invasion.py:37-60 | on a valid board no living city has a link into a destroyed city, so a move always lands in a living city |
| Invasion.Board.KillOccupants | alien_invasion.py:221-222 | every occupant of the city dies, and no other alien does |
| Invasion.Board.Fight | alien_invasion.py:220-239 | in a crowded living city all occupants die and the city is deleted from the graph and moves to the destroyed set; the board invariant holds after |
| Invasion.FightKeeps | alien_invasion.py:220-239 | a fight keeps the graph, occupancy and alien invariants |
| Invasion.PruneGraphOk | alien_invasion.py:239 | deleting a living city from the graph keeps it reciprocal, with the city now destroyed and linkless |
| Invasion.VictimsStep | alien_invasion.py:219-222 | killing one more crowded city's occupants kills exactly the living aliens standing in it |
| Invasion.Board.FightIn | alien_invasion.py:220-239 | one more city is fought in: the board matches the deletion of all cities fought in so far and the death of the aliens that stood there |
| Invasion.Board.CheckCity | alien_invasion.py:219-239 | one pass of the loop: the city is fought in exactly when it has more than one occupant |
| Invasion.Board.CheckCities | alien_invasion.py:219-239 | after the loop over the snapshot, exactly the snapshot's crowded cities are destroyed and exactly the living aliens that stood in them are dead |
| Invasion.OccupantsDie | alien_invasion.py:221-222 | every occupant of a city fought in is dead afterwards |
| Invasion.Board.CheckOccupancy | alien_invasion.py:211-239 | the cities with more than one occupant in the snapshot are deleted from the graph and move from living and occupied to destroyed; the living aliens standing in them, and only those, die; the dead stay in their occupant sets; the board invariant holds |
| Invasion.AllAtLimitStep | alien_invasion.py:251-253 | one more alien checked: the `end_game` flag stays true exactly when that alien too had reached the limit |
| Invasion.BumpedStep | alien_invasion.py:131 | one alien's `moves += 1` is one more mover in the round's move counts |
| Invasion.Board.MoveAliens | alien_invasion.py:251-255 | every living alien moves once, to a city one link away (or stays, in a linkless city); dead aliens stay where they were; the occupant sets of destroyed cities are unchanged; the flag says whether every living alien had at least 10000 moves before its move |
| Invasion.RoundLowersDeficit | alien_invasion.py:248-265 | a round in which some living alien was below the limit lowers the total number of moves the living aliens still lack |
| Invasion.Board.MoveAndFight | alien_invasion.py:251-258 | the moves of `MoveAliens` followed by the fights of `CheckOccupancy`, stated against the occupied cities between the two |
| Invasion.Board.PlayRound | alien_invasion.py:248-265 | the round ends the game exactly when no alien is living or every living alien had reached the limit; every living alien moves one link; the fights then destroy exactly the cities that were crowded after the moves and kill the aliens standing there; no alien comes back to life; a round that does not end the game lowers the lacking moves |
| Invasion.Board.RunGame | alien_invasion.py:241-267 | the game terminates, and at the end every surviving alien has made more than 10000 moves |
| Invasion.NoCitiesNoAliens | alien_invasion.py:259-260 | on a valid board, no living city means no living alien, so the never-true `< 0` test loses no stop |
| Invasion.Board.SetupAliens | alien_invasion.py:191-197 | alien `i` is created, alive with no moves, alone in city `starts[i]`; the occupied set is unchanged and the board invariant holds |
| Invasion.SetupKeeps | alien_invasion.py:191-197 | the board `setup_aliens` leaves has each alien alone in its start city and satisfies the occupancy and alien invariants |
| Invasion.Board.SetupGame | alien_invasion.py:199-209 | exactly when there are more aliens than living cities, the board is refused unchanged; otherwise there are as many living aliens as asked, each alone in its own start city, and the occupied set is the set of start cities |
| Invasion.Board.WriteCities | alien_invasion.py:269-280 | one line per living city, each city once, line `i` being the `Line` of the `i`-th exported record |
| Invasion.SaveReload | alien_invasion.py:269-280 | writing a valid board and resolving the exported records again gives back its living cities with the same roads, provided their names are distinct |

## Left out

- Reading the map file and splitting it with `MAP_REGEX`: the model starts from the matched records (`RawCity`). Regular expressions and file I/O are outside the model.
- `save_cities`, `main`, `parse_args` and the writes to a file handle: `WriteCities` returns the lines instead of writing them.
- Every `print`, including the fight message of `check_occupancy` (lines 224-237): it is output only.
- `exit()` in `setup_game`: modelled as `SetupGame` returning false with the board unchanged.
- `random.choice` and `random.sample`: replaced by the parameters `idx`, `choice`, `oracle` and `starts`. The model does not capture the distribution.
- Python 3.11 and later reject `random.sample` on a set. The model assumes a sample is drawn.
- `__str__` and `__repr__` of `City` and `Alien`: string representations only.
- `Board.cities` is set to an empty list (line 15) and never read, so it is not modelled.
- Alien names `str(i)`: alien `i` is id `i`.
- The iteration order of Python sets is not modelled: each loop over a set picks its next element by `:|`; `WriteCities` returns the order it used as a ghost sequence.
- SetupGame: requires a board with no aliens yet, the only way `main` calls it.
- SetupGame: the alien count is a `nat`. The source reads it as an `int` (line 306); a negative count passes the test at line 202 and makes `random.sample` raise `ValueError` at line 206, an error path the model does not have.
- SetupGame: requires the sample `starts` to be distinct living cities of the requested count, as `random.sample` promises.
- MapFormat.ExportRoundTrip, Invasion.SaveReload: state the round trip on the exported records, not on the written text. They require that resolving the records succeeds (`Resolved(Export(...))`), and they do not prove that `MAP_REGEX` (line 7) splits a written line back into the same record. It does not always: a linkless city named `a north=b` is written as `a north=b` plus a newline, and the lazy `city` group reads that back as city `a` with north link `b`.
- Invasion.Board.RemoveAlien, Kill and KillOccupants: `set.remove` raises `KeyError` when the element is missing (lines 80 and 139). The model makes membership a precondition of these methods instead of modelling the exception; every caller in the model meets it.
- Invasion.Board.Move: requires the board invariant. That invariant includes reciprocity of the map, which the source assumes of every map file and never checks (lines 153-167). `ParseMap` proves that a parsed map that is reciprocal satisfies the board invariant.
- Invasion.Board.MoveBy, MoveAliens, Fight, CheckOccupancy, PlayRound, RunGame and SetupGame: likewise require the board invariant, so on non-reciprocal maps their guarantees are not stated. `Detach` and `DetachClearsBackLinks` still describe `destroy` on any map, including its self-link quirk.

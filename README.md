# Metro line topology and clock, modelled in Dafny

This project models the line engine of a metro-building game. A `Line` keeps three lists:

- its ordered stations;
- its waypoint path, in which station positions (even indices) alternate with control points (odd indices) that only shape the curve;
- the trains assigned to it.

Every train keeps `nextPointIndex`, an index into its line's path. When a line's topology changes, some edits shift these pointers, and some then call the train's re-validation hook `verif()`: `addStation(index, …)` shifts without re-validating, `addStationFromLink` and `removeStation` shift and re-validate, and `removeLoop` does neither. The second part of the model is the game's `Clock`: a time counter and a day index that wraps after seven days.

Files and modules:

- `sequences.dfy` (`Sequences`): the list operations the Java code uses (`add(i, x)`, `remove(int)`, `indexOf`, `remove(Object)`), each specified element by element.
- `paths.dfy` (`Paths`): `Position`, the interleaving invariant `Interleaved`, and the path edits as pure functions. The lemmas say which edit keeps the invariant and under what condition. The ensures of each edit also say where every old waypoint ends up, so you can read off whether a pointer shift still targets the same waypoint.
- `line.dfy` (`Lines`): stations, trains and the `Line` class.
  - The fields are sequences, and the methods reassign them as the Java methods mutate their `ArrayList`s.
  - Loops over the trains are `for` loops with invariants.
  - Each mutator states its whole new state, the pointer each train keeps or hands to `verif`, and the condition under which `Valid()` (the interleaving) survives. After a `verif` call the pointer is whatever that hook leaves.
- `clock.dfy` (`Clocks`): the `Clock` class, `NextDay`, and the lemmas that seven increments bring a valid day back to itself.

Collaborators whose code is not part of this model are modelled minimally:

- **Station:** a fixed position, a shape tag, and a ghost log of the `addLine`/`removeLine` calls made on it.
- **Train:** a pointer, a nullable line, and `Verif`. `Verif` may change its own train in any way; the model only logs the pointer value it was called with (ghost field `revalidations`).
- **Position:** a pair of reals that is stored and compared for equality, never computed with.

Points where the code does something other than what one might expect:

- **Indexed insertion (`Line.java:102-113`).** One might expect the new station's position to go to path index `2*index`, the slot that matches station index `index`. The code inserts at path index `index` itself. `InsertAtHeadKeepsInterleaving` proves that the interleaving survives for `index == 0`. `InsertAtInteriorBreaksInterleaving` shows what it costs for `index >= 1`.
- **Pointer shift on indexed insertion.** One might expect the unconditional +2 to be wrong for trains already past the insertion point. By the ensures of `Paths.InsertedAt`, the +2 is right for every pointer `>= index`. The pointers it wrongly moves are those below `index`.
- **`removeStation` on a station that is not an end.** One might expect the station's own waypoint pair to be removed. The code trims the tail of the path whenever the station's first occurrence is not index 0.
  - That includes a station that is not on the line at all: the station list stays unchanged while the path shrinks.
  - It also includes a last station that also occurs at an interior index, as `a` in `[b, a, c, a]`. Its first occurrence, index 1, is the one removed, and the tail is trimmed. Stations `[b, c, a]` are left with the path `[b, m1, a, m2, c]`.
  - `Line.RemoveStation` states this behaviour. It keeps `Valid()` when the station's first occurrence is the first or the last index of a line of two or more. It breaks `Valid()` for a station that is not on the line (`Paths.TrimTailAloneBreaksInterleaving`).
- **The train list.** One might expect a set. The code uses a list, and `addTrain` appends without checking for duplicates.

## Model

| member | source | states |
|---|---|---|
| `Sequences.InsertAt` | src/model/Line.java:103-105 | `add(i, x)` puts x at i, keeps every element before i, and moves every element from i on one place right |
| `Sequences.RemoveAt` | src/model/Line.java:128 | `remove(i)` keeps the elements before i, moves the later ones one place left, and removes exactly one copy of `s[i]` from the multiset |
| `Sequences.IndexOf` | src/model/Line.java:75-77 | result is -1 exactly when x is absent; otherwise it is an index holding x with no earlier occurrence of x |
| `Sequences.RemoveFirst` | src/model/Line.java:157 | `remove(x)` leaves a list without x unchanged; otherwise it drops one x, namely the first occurrence, and keeps the order of the rest |
| `Paths.InsertedAt` | src/model/Line.java:103-104 | two `add(index, …)` calls leave the station position at `index` and the control point at `index + 1`; waypoints below `index` stay put and the rest move 2 places right |
| `Paths.SplitSegment` | src/model/Line.java:127-132 | the control point at `2*index-1` becomes `c1`, the station position and `c2`; earlier waypoints stay put and later ones move 2 places right |
| `Paths.TrimHead` | src/model/Line.java:158-160 | removes two waypoints from the head, or the single one left; the waypoint at w ≥ 2 moves to w − 2 |
| `Paths.TrimTail` | src/model/Line.java:163-165 | removes two waypoints from the tail, or the single one left; every remaining waypoint keeps its index |
| `Paths.InsertTwiceIsInsertedAt` | src/model/Line.java:103-104 | the two successive `add(index, …)` calls amount to `InsertedAt` |
| `Paths.ReplaceControlPoint` | src/model/Line.java:127-132 | the removal at `2*index-1` and the three insertions there amount to `SplitSegment` |
| `Paths.AppendKeepsInterleaving` | src/model/Line.java:88-92 | appending a control point and a station position keeps `|path| == 2|stations|-1` and `path[2i] == stations[i]` |
| `Paths.InsertAtHeadKeepsInterleaving` | src/model/Line.java:102-105 | an indexed insertion at index 0 keeps the interleaving |
| `Paths.InsertAtInteriorBreaksInterleaving` | src/model/Line.java:102-105 | for an index from 1 up, the result is interleaved only if the control point equals the new position (index 1), or the new position equals that of station `index-1` (index ≥ 2) |
| `Paths.SplitSegmentKeepsInterleaving` | src/model/Line.java:125-132 | splitting segment `index` for `1 ≤ index < |stations|` keeps the interleaving |
| `Paths.TrimHeadKeepsInterleaving` | src/model/Line.java:155-160 | removing the head station of a line with two or more stations, together with its two head waypoints, keeps the interleaving |
| `Paths.TrimTailKeepsInterleaving` | src/model/Line.java:161-166 | removing the tail station of a line with two or more stations, together with its two tail waypoints, keeps the interleaving |
| `Paths.TrimTailAloneBreaksInterleaving` | src/model/Line.java:161-166 | trimming the tail of an interleaved path while the station list keeps its length, as for an absent station, never leaves it interleaved |
| `Paths.TrimTailUndoesAppend` | src/model/Line.java:88-92 | trimming the tail right after a tail `addStation` restores the previous path exactly |
| `Paths.TrimHeadUndoesInsertAtHead` | src/model/Line.java:102-104 | trimming the head right after an index-0 insertion restores the previous path exactly |
| `Lines.Line.constructor` | src/model/Line.java:22-30 | stations `[a, b]`, path `[a.pos, (middleX, middleY), b.pos]`, no trains, interleaved; each station's log gains one `AddedTo(this)` (two if `a == b`) |
| `Lines.Line.AddAllowed` | src/model/Line.java:74-79 | false exactly when the first occurrence of s is at an index strictly between 0 and the last; true for an absent station and for a station whose first occurrence is the first or the last index (a last station that also occurs at an interior index is refused) |
| `Lines.Line.AddStation` | src/model/Line.java:88-92 | appends `(ctrl, station.pos)` and the station; trains and station logs untouched; keeps `Valid()` |
| `Lines.Line.AddStationAt` | src/model/Line.java:102-113 | path becomes `InsertedAt(old path, index, …)` and the station list gets the station at `index`; the station logs `AddedTo(this)`; every train's pointer is exactly +2 with no re-validation; keeps `Valid()` when `index == 0` |
| `Lines.Line.AddStationFromLink` | src/model/Line.java:125-141 | station inserted at `index`, path is `SplitSegment`; trains pointing past `2*index-1` re-validate once with pointer+2, all others are untouched; keeps `Valid()` |
| `Lines.Line.ShiftTrainsPast` | src/model/Line.java:134-140 | the conditional +2 and re-validation pass over distinct trains |
| `Lines.Line.IsLoop` | src/model/Line.java:237-239 | true iff there are at least two stations and the first is the last; a one-station line is never a loop |
| `Lines.Line.RemoveStation` | src/model/Line.java:148-177 | on a loop, refuses and changes nothing. Otherwise: the station logs `RemovedFrom(this)`; its first occurrence leaves the list; the path is trimmed at the head if that occurrence is index 0, else at the tail; on a head removal every pointer is −2; each train with a line re-validates once with that pointer; keeps `Valid()` when the first occurrence is the first or the last index of ≥ 2 stations, and breaks it for a station not on the line |
| `Paths.TrimEnd` | src/model/Line.java:155-166 | the guarded pair of `path.remove` calls equals `TrimHead` or `TrimTail` |
| `Lines.Line.ReconcileAfterRemoval` | src/model/Line.java:168-176 | −2 on every pointer after a head removal; then exactly the trains whose line is non-null re-validate, once, with the shifted pointer |
| `Lines.Line.RemoveLoop` | src/model/Line.java:185-197 | drops the first or last station, trims the same end of the path, touches no train and no station; keeps `Valid()` for two or more stations |
| `Lines.Line.AddTrain` | src/model/Line.java:204-207 | appends the train and sets its line to this line; the pointer is unchanged |
| `Lines.Line.RemoveTrain` | src/model/Line.java:214-216 | drops the first occurrence of the train; stations and path unchanged |
| `Lines.Line.ContainsShape` | src/model/Line.java:224-230 | true iff some station on the line has the given shape tag |
| `Clocks.NextDay` | src/model/Clock.java:21-25 | from a valid day gives `(d + 1) % 7`; below 6 adds one, from 6 on resets to 0 |
| `Clocks.DaysLaterIsModular` | src/model/Clock.java:21-25 | n day increments from a valid day d reach `(d + n) % 7` |
| `Clocks.WeekIsCycle` | src/model/Clock.java:21-25 | seven day increments bring a valid day back to itself |
| `Clocks.Clock.constructor` | src/model/Clock.java:5-6 | a new clock starts at day 0 (MON) and time 0, inside `Valid()`, as Java's default zero-initialisation of the two fields |
| `Clocks.Clock.GetTime` | src/model/Clock.java:8-10 | returns `time` and changes nothing |
| `Clocks.Clock.GetDay` | src/model/Clock.java:4-13 | with `0 ≤ currentDay < 7` the lookup is in range and yields a three-letter label of the week that no other day has |
| `Clocks.Clock.IncrementTime` | src/model/Clock.java:16-19 | time grows by exactly 1; the day is unchanged |
| `Clocks.Clock.IncrementDay` | src/model/Clock.java:21-25 | the day becomes `NextDay` of the old day and stays in `0..6` if it was; time is unchanged |

## Left out

- The line colour, `getColor` and the three list getters: a display attribute and plain field reads (the Dafny fields are readable directly).
- `toString`: it builds a string from `Station.toString`, which is not part of this model.
- The `System.err` diagnostics: the loop refusal of `removeStation` is the returned flag `removed` instead.
- `Station.addLine`/`removeLine` and `Train.verif`: their code is not part of this model.
  - The model logs these calls, in the ghost fields `membership` and `revalidations`.
  - It assumes each call changes only its own receiver.
  - It places no postcondition on what `verif` does to the pointer.
- `Train.setLine` and train motion: their code is not part of this model.
  - `Lines.Train.SetLine` is modelled as a plain setter of `line` that leaves the pointer and the re-validation log alone, and logs nothing.
  - The clause of `Lines.Line.AddTrain` that the pointer is unchanged rests on this assumption.
- `Train.getNextPointIndex`, `setNextPointIndex` and `getLine`: modelled as direct reads and writes of the fields `nextPointIndex` and `line`. Any further effect of the Java accessors, whose code is not part of this model, is not captured.
- Station identity: `indexOf` and `remove(Object)` are modelled with reference equality, assuming `Station` and `Train` do not override `equals`.
- `ShapeType`'s constants are not part of this model; a shape is an opaque tag.
- Position coordinates are reals that are only stored, not Java doubles. No coordinate arithmetic is modelled.
- Lines.Line.AddStationAt: requires the train list to hold no train twice. The Java loop would shift a duplicated train twice, and this case is not modelled.
- Lines.Line.AddStationFromLink: requires the train list to hold no train twice, for the same reason.
- Lines.Line.RemoveStation: requires the train list to hold no train twice, for the same reason.
- Lines.Line.ShiftTrainsPast and Lines.Line.ReconcileAfterRemoval: the loops behind `AddStationFromLink` and `RemoveStation` carry the same requirement.
  - `Lines.Line.AddTrain` appends without checking, as `addTrain` does, so it can reach a train list that these five members exclude.
  - A train listed m times would be shifted by 2·m and re-validated m times. The model does not cover that case.
- Java's `IndexOutOfBoundsException` cases are preconditions:
  - a non-empty station list for `isLoop`, `removeStation` and `removeLoop`;
  - a non-empty path wherever `remove` needs one;
  - insertion indices within the lists.
- Pointer ranges after an edit: pointers can go negative after the −2 shift, and whether they end up within the path depends on `verif`, whose code is not part of this model.
- `removeLoop` moves no pointer, so a train keeps its old index, which after a head trim names the waypoint two places further on (the ensures of `Paths.TrimHead`). This inconsistency in the source is documented, not fixed.
- Train pointers are unbounded integers. The 32-bit wrap-around of Java's `int` on `nextPointIndex ± 2` (`Line.java:111, 137, 170`) is not modelled; it needs a pointer within 2 of the `int` range limits.
- Clocks.Clock.IncrementTime: does not model the 32-bit wrap-around of Java's `int` at 2147483647; `time` is unbounded.
- Clocks.Clock.IncrementDay: does not model `int` overflow of a day that is already outside `0..6`.
- `Clock.getDay` is declared `void` but returns a `String`, so it does not compile as written. It is modelled as the function `GetDay` that returns the label.
- The clock's role in driving train motion is not modelled.
- Concurrency: the engine is single-threaded and the model is sequential.

# Wave pathfinding with teleports, in Dafny

`Task5.py` is a small Tkinter program (`PathfindingApp`). The user clicks
cells of a 20 by 20 board, cycling each cell through a set of kinds:

- empty;
- start or end;
- obstacle;
- teleport entry or teleport exit.

A button runs a wave (breadth-first, Lee) search from the start cell to the
end cell. Entries and exits are paired in a dictionary. The search has one
twist. When a move steps onto a paired entry whose exit has no distance yet,
the search lands on the exit instead. It stops as soon as the cell it lands
on is the end cell. It reports the path and its length, or nothing.

This project models two parts of the program:

- the search itself, `wave_algorithm`;
- the editor state that feeds it: the board, the teleport dictionary and the
  start and end fields. These change through clicks (`set_cell`), are reset by
  `clear_grid`, and are checked by `find_path`.

Modules:

- `Base`: `Option`, a success-or-error `Outcome`, and duplicate-free
  sequences.
- `Board`: the cell kinds, coordinates, the 20 by 20 grid, and the four moves
  in the source's order (up, down, left, right).
- `Teleports`: the dictionary, modelled as an insertion-ordered sequence of
  (entry, exit) pairs. It has the dictionary's lookup, assignment and
  `del`. `del` raises `KeyError` on a missing key.
- `Wave`: the search.
  - `Visit` handles one direction.
  - `Expand` handles the four directions of one dequeued cell.
  - `Search` is the queue loop.
  - `WaveAlgorithm` assembles the answer.

  The proofs use a reference semantics, "forced walks". In a forced walk,
  every step onto a paired entry continues to its exit.
- `Editor`: the clicks, clearing, the invariant every reachable editor state
  keeps, and `find_path`'s guard.

A search whose start is its end returns `(None, None)`. The start is put
into `distances` before the loop begins (Task5.py:108). A cell is compared
with the end only when it is recorded for the first time (Task5.py:121, 138),
so the start is never compared with it. `Wave.WaveAlgorithm` states this
(`start == end ==> r.NotFound?`). The editor can never produce this input,
because the start and end cells hold different kinds (`Editor.InvNoChaining`).

An obstacle click decides between entry and exit by the parity of
`len(self.teleports)` (Task5.py:67-74). That counts keys, not pairs, and
pairing an entry does not add a key. So once one entry exists, every further
obstacle click re-pairs that same entry, and the editor never holds more than
one entry (`Editor.OneEntry`, part of the editor invariant).

## Model

| member | source | states |
|---|---|---|
| `Board.EmptyGrid` | Task5.py:12 | The initial board is 20 by 20 and every cell is empty. |
| `Board.NeighborsAreAdjacent` | Task5.py:106 | The four direction offsets reach exactly the cells at Manhattan distance one. |
| `Board.WithCell` | Task5.py:46-78 | Writing a kind into one cell (`self.grid[row][col] = …`) keeps a 20 by 20 board, puts that kind in the cell, and leaves every other cell as it was. |
| `Board.CellsCard` | Task5.py:10 | The board has exactly `grid_size * grid_size` = 400 cells. |
| `Teleports.Lookup` | Task5.py:129-130 | A lookup finds a value iff the key is registered. With distinct keys, it returns the exit paired with that entry. Any exit it returns is one of the registered exits. |
| `Teleports.Put` | Task5.py:71 | `d[k] = v` makes `k` map to `v` and leaves every other key's value alone. It keeps the key order if `k` was already a key, and otherwise appends `k` as the newest key. Keys stay distinct. |
| `Teleports.Delete` | Task5.py:77 | `del d[k]` raises `KeyError(k)` exactly when `k` is not a key. Otherwise it removes one pair and leaves every other key's value alone. The remaining keys keep their insertion order, and with distinct keys exactly the key `k` is gone. |
| `Teleports.InsertionOrder` | Task5.py:71-73 | `list(d.keys())` lists the keys in the order they were first assigned: assigning fresh keys one by one appends each at the end, so the last element is the newest key. |
| `Teleports.PutDeleteRoundTrip` | Task5.py:71-77 | Assigning a new key and then deleting it gives back the original dictionary, with its insertion order. |
| `Wave.Landing` | Task5.py:116-132 | A move is skipped exactly when the neighbour is off the board, an obstacle, or already holds a distance. Otherwise it lands on a cell without a distance. That cell is the always-teleport target, or the entry itself when that target already holds a distance. |
| `Wave.Trace` | Task5.py:139-143 | Following predecessors back from a recorded cell and reversing gives a path from the start to that cell. Its i-th cell is at distance i, and each cell's recorded predecessor is the cell before it. |
| `Wave.WalkStaysInside` | Task5.py:111-136 | Suppose every recorded cell nearer than D is closed: each of its four moves leads to a recorded always-teleport target at most one further. Then any always-teleport walk of at most D moves from the start ends on a recorded cell whose distance is no more than the walk's length. |
| `Wave.LayersBound` | Task5.py:111-136 | While the end is unrecorded and all recorded cells nearer than d are closed in the sense above, every always-teleport walk from start to end takes more than d moves. |
| `Wave.Exhausted` | Task5.py:111-145 | When no teleport chains into another (`Wave.NoChaining`) and the queue runs dry without recording the end, no always-teleport walk from the start reaches it. |
| `Wave.VisitBound` | Task5.py:107-136 | With the start and every exit on the board, the search records at most 400 cells, each once. |
| `Wave.RecordMove` | Task5.py:134-136 | Recording a landing cell at the current distance plus one, with the current cell as predecessor, and queueing it keeps the bookkeeping: cells are distinct, ordered by distance, linked to the start, and reached by legal steps. |
| `Wave.Visit` | Task5.py:116-143 | If the move's landing cell is none, nothing changes and there is no hit. Otherwise the landing cell is queued and recorded one further than the current cell, with the current cell as its predecessor, and the hit flag is exactly whether it is the end. Existing distances and predecessors never change. When no teleport chains into another, a hit's distance is no longer than any always-teleport walk. |
| `Wave.Expand` | Task5.py:115-143 | The four directions of one dequeued cell keep the bookkeeping. Existing distances and predecessors never change, and every new cell is one further than the dequeued cell with that cell as its predecessor. When no teleport chains into another (`Wave.NoChaining`) and there is no hit, all four moves of that cell lead to recorded cells at most one further. |
| `Wave.Search` | Task5.py:107-136 | The queue loop terminates. On a hit, the end is recorded. When no teleport chains into another, its distance is no longer than any always-teleport walk. Without a hit, the end is unrecorded unless it is the start. If in addition no teleport chains, every recorded cell has been expanded. |
| `Wave.WaveAlgorithm` | Task5.py:105-145 | The start has distance 0. Every other recorded cell is one more than its predecessor, is reached from it by a legal step, and is recorded once, in distance order. A found path runs from start to end with length equal to end's distance and repeats no cell. `(None, None)` means the end was never recorded, unless it is the start, and it is the answer when start is end. When no teleport chains into another, a found path is never longer than an always-teleport walk, and `(None, None)` means no such walk exists. |
| `Editor.Cleared` | Task5.py:83-87 | Clearing gives an all-empty board, an empty dictionary, and no start or end, which satisfies the editor invariant. |
| `Editor.Click` | Task5.py:43-79 | A click changes only the clicked cell. The cell cycles empty → start (if unset) → end (if unset) → obstacle → teleport entry (even pair count) or teleport exit (odd) → empty. The `start` field becomes the cell when an empty cell is clicked while it is unset, becomes `None` when the start cell is clicked, and otherwise stays as it was. The `end` field does the same for the end. The dictionary changes only on obstacle and teleport cells. A click fails with `KeyError` exactly on a teleport cell that is not a key. |
| `Editor.ClickKeepsInv` | Task5.py:43-79 | Every successful click keeps the invariant. There is one start cell exactly when `start` is set, and likewise for end. The keys are exactly the entry cells, without repetition. Every assigned exit is an exit cell on the board. The dictionary holds at most one entry. |
| `Editor.OneEntry` | Task5.py:66-79 | A click never builds a second entry. An obstacle click adds an entry only to an empty dictionary. Once one entry exists, every further obstacle click re-pairs that entry, because the key count is then odd. |
| `Editor.ExitClickFails` | Task5.py:76-77 | Clicking a teleport exit cell always raises `KeyError`, because exits are never keys. |
| `Editor.EntryClickRemoves` | Task5.py:76-79 | Clicking a teleport entry cell unregisters it and empties the cell. |
| `Editor.ObstacleClickParity` | Task5.py:66-74 | An obstacle click adds a new unpaired entry exactly when the number of keys is even. Otherwise it pairs the most recently inserted key with the clicked cell and leaves the key set as it was. |
| `Editor.EntryRoundTrip` | Task5.py:66-79 | With an even key count, turning an obstacle into an entry and clicking that entry again gives the following. The cell is empty, the dictionary is exactly as before, the start and end fields are unchanged, and no other cell changed. |
| `Editor.SecondObstacleRepairs` | Task5.py:70-74 | With an odd key count, two obstacle clicks in a row both pair the same newest entry. The second exit wins. The first stays an exit cell, and no entry is paired with it any more. |
| `Editor.InvNoChaining` | Task5.py:67-74 | In any reachable editor state the start and every registered exit lie on the board, and none of them is a paired entry, so teleports never chain. The start and end are different cells. |
| `Editor.FindPath` | Task5.py:91-98 | The search refuses to run exactly when start or end is unset. A found path runs from start to end by legal steps. On a reachable editor state, a found path is no longer than any always-teleport walk from start to end, and "not found" means no such walk exists. |

## Left out

- Drawing is not modelled: the canvas, cell colours, `draw_grid`, painting the path yellow and the message boxes. `Editor.FindPath` returns the search result instead of showing it.
- `Editor.Click` takes the clicked cell rather than a pixel position. The mapping `event.y // cell_size` and `event.x // cell_size` is left out, so a click is required to name a cell on the board. The canvas is exactly the board's size.
- `Wave.WaveAlgorithm`: the length of a found path is bounded only against always-teleport walks. Under the program's actual rule, a jump is taken only while its exit has no distance. So the real set of routes depends on discovery order, and no reference definition of it is stated. Its unreachability promise likewise speaks of always-teleport walks.
- `Wave.WaveAlgorithm`: both of those promises also require that no teleport chains into another: the start and the exits are not paired entries. Every board the editor can reach satisfies this (`Editor.InvNoChaining`).
- `Wave.WaveAlgorithm`: the 400-cell visit bound requires the start and every exit to lie on the board. The search itself needs no such requirement to terminate.
- `Editor.FindPath`: a found path is compared only with always-teleport walks. The model does not claim it is shortest among the routes the program's own rule allows, for the reason given for `Wave.WaveAlgorithm`.
- Python integers are unbounded, and so are the model's. Nothing in the source wraps.

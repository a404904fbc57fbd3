/** The editing side of `PathfindingApp`: the board, the teleport registry
    and the `start`/`end` fields, changed one click at a time by `set_cell`,
    reset by `clear_grid`, and handed to the wave search by `find_path`. */
module Editor {
  import opened Base
  import opened Board
  import opened Teleports
  import opened Wave

  /** The app's mutable fields `grid`, `teleports`, `start` and `end`. */
  datatype State = State(grid: Grid, teleports: Registry, start: Option<Coord>, end: Option<Coord>)

  /** `find_path` refuses to search until both endpoints are set. */
  datatype MissingEndpoint = MissingEndpoint

  /** slot names the one cell tagged v, or is None when no cell is. */
  ghost predicate MarksOnly(g: Grid, v: Cell, slot: Option<Coord>)
    requires WellFormed(g)
  {
    match slot
    case None => forall q :: InBounds(q) ==> At(g, q) != v
    case Some(p) => InBounds(p) && forall q :: InBounds(q) ==> (At(g, q) == v <==> q == p)
  }

  /** The registry keys are exactly the teleport-in cells, in no particular
      order but without repetition, and every assigned exit is a teleport-out cell. */
  ghost predicate RegistryMatches(g: Grid, reg: Registry)
    requires WellFormed(g)
  {
    && Distinct(Keys(reg))
    && (forall i :: 0 <= i < |reg| ==> InBounds(reg[i].entry))
    && (forall q :: InBounds(q) ==> (At(g, q) == TeleportIn <==> q in Keys(reg)))
    && (forall i :: 0 <= i < |reg| && reg[i].exit.Some? ==>
          InBounds(reg[i].exit.value) && At(g, reg[i].exit.value) == TeleportOut)
  }

  /** What every sequence of clicks from a cleared board keeps true. */
  ghost predicate Inv(s: State) {
    && WellFormed(s.grid)
    && MarksOnly(s.grid, Start, s.start)
    && MarksOnly(s.grid, End, s.end)
    && RegistryMatches(s.grid, s.teleports)
    // every obstacle click after the first entry re-pairs that same entry
    && |s.teleports| <= 1
  }

  /** `clear_grid` (and the constructor): an all-empty board, an empty
      registry, no start and no end. */
  function Cleared(): (s: State)
    ensures Inv(s)
    ensures forall q :: InBounds(q) ==> At(s.grid, q) == Empty
    ensures s.teleports == [] && s.start.None? && s.end.None?
  {
    State(EmptyGrid(), [], None, None)
  }

  /** `set_cell` on the cell (row, col) = p, without the drawing. */
  function Click(s: State, p: Coord): (r: Outcome<State, KeyError>)
    requires WellFormed(s.grid) && InBounds(p)
    // only a click on an unregistered teleport cell fails, and it fails as `del` does
    ensures r.Err? <==> (At(s.grid, p) == TeleportIn || At(s.grid, p) == TeleportOut) && p !in Keys(s.teleports)
    ensures r.Err? ==> r.error == KeyError(p)
    // only the clicked cell changes
    ensures r.Ok? ==> WellFormed(r.value.grid)
    ensures r.Ok? ==> forall q :: InBounds(q) && q != p ==> At(r.value.grid, q) == At(s.grid, q)
    // the cycle empty -> start / end / obstacle -> teleport -> empty
    ensures r.Ok? ==> (At(r.value.grid, p) == Start <==> At(s.grid, p) == Empty && s.start.None?)
    ensures r.Ok? ==> (At(r.value.grid, p) == End <==> At(s.grid, p) == Empty && s.start.Some? && s.end.None?)
    ensures r.Ok? ==> (At(r.value.grid, p) == Obstacle <==> At(s.grid, p) == Empty && s.start.Some? && s.end.Some?)
    ensures r.Ok? ==> (At(r.value.grid, p) == TeleportIn <==> At(s.grid, p) == Obstacle && |s.teleports| % 2 == 0)
    ensures r.Ok? ==> (At(r.value.grid, p) == TeleportOut <==> At(s.grid, p) == Obstacle && |s.teleports| % 2 == 1)
    ensures r.Ok? ==> (At(r.value.grid, p) == Empty <==> At(s.grid, p) in {Start, End, TeleportIn, TeleportOut})
    // the start and end fields follow the start and end cells
    ensures r.Ok? ==> r.value.start == if At(s.grid, p) == Empty && s.start.None? then Some(p)
                                       else if At(s.grid, p) == Start then None
                                       else s.start
    ensures r.Ok? ==> r.value.end == if At(s.grid, p) == Empty && s.start.Some? && s.end.None? then Some(p)
                                     else if At(s.grid, p) == End then None
                                     else s.end
    // the registry changes only on obstacle and teleport cells
    ensures r.Ok? && At(s.grid, p) in {Empty, Start, End} ==> r.value.teleports == s.teleports
    ensures r.Ok? && At(s.grid, p) == Obstacle && |s.teleports| % 2 == 0 ==>
              Lookup(r.value.teleports, p) == Some(None) &&
              forall k :: k != p ==> Lookup(r.value.teleports, k) == Lookup(s.teleports, k)
    ensures r.Ok? && At(s.grid, p) == Obstacle && |s.teleports| % 2 == 1 ==>
              var last := Keys(s.teleports)[|s.teleports| - 1];
              Keys(r.value.teleports) == Keys(s.teleports) &&
              Lookup(r.value.teleports, last) == Some(Some(p)) &&
              forall k :: k != last ==> Lookup(r.value.teleports, k) == Lookup(s.teleports, k)
    ensures r.Ok? && At(s.grid, p) in {TeleportIn, TeleportOut} ==>
              |r.value.teleports| == |s.teleports| - 1 &&
              forall k :: k != p ==> Lookup(r.value.teleports, k) == Lookup(s.teleports, k)
  {
    match At(s.grid, p)
    case Empty =>
      if s.start.None? then Ok(s.(grid := WithCell(s.grid, p, Start), start := Some(p)))
      else if s.end.None? then Ok(s.(grid := WithCell(s.grid, p, End), end := Some(p)))
      else Ok(s.(grid := WithCell(s.grid, p, Obstacle)))
    case Start => Ok(s.(grid := WithCell(s.grid, p, Empty), start := None))
    case End => Ok(s.(grid := WithCell(s.grid, p, Empty), end := None))
    case Obstacle =>
      if |s.teleports| % 2 == 0 then
        Ok(s.(grid := WithCell(s.grid, p, TeleportIn), teleports := Put(s.teleports, p, None)))
      else
        var last := Keys(s.teleports)[|s.teleports| - 1];
        Ok(s.(grid := WithCell(s.grid, p, TeleportOut), teleports := Put(s.teleports, last, Some(p))))
    case _ =>
      match Delete(s.teleports, p)
      case Err(e) => Err(e)
      case Ok(reg) => Ok(s.(grid := WithCell(s.grid, p, Empty), teleports := reg))
  }

  /** A grid change confined to p that neither creates nor removes a v cell
      elsewhere keeps MarksOnly. */
  lemma MarksOnlyKept(g: Grid, g': Grid, v: Cell, slot: Option<Coord>, p: Coord)
    requires WellFormed(g) && WellFormed(g') && InBounds(p)
    requires MarksOnly(g, v, slot)
    requires forall q :: InBounds(q) && q != p ==> At(g', q) == At(g, q)
    requires At(g, p) != v && At(g', p) != v
    ensures MarksOnly(g', v, slot)
  {
    if slot.Some? {
      assert slot.value != p;
    }
  }

  /** Registering the obstacle p as a new unpaired entry keeps the registry invariant. */
  lemma NewEntryKeeps(g: Grid, reg: Registry, p: Coord)
    requires WellFormed(g) && InBounds(p) && At(g, p) == Obstacle
    requires RegistryMatches(g, reg)
    ensures RegistryMatches(WithCell(g, p, TeleportIn), Put(reg, p, None))
  {
    var g', reg' := WithCell(g, p, TeleportIn), Put(reg, p, None);
    assert p !in Keys(reg);
    assert reg' == reg + [Teleport(p, None)];
    forall q | InBounds(q) ensures At(g', q) == TeleportIn <==> q in Keys(reg') {
      if q != p {
        assert q in Keys(reg') <==> q in Keys(reg);
      }
    }
    forall i | 0 <= i < |reg'| && reg'[i].exit.Some?
      ensures InBounds(reg'[i].exit.value) && At(g', reg'[i].exit.value) == TeleportOut
    {
      assert reg'[i] == reg[i];
    }
  }

  /** Pairing the newest key with the obstacle p keeps the registry invariant. */
  lemma PairLastKeeps(g: Grid, reg: Registry, p: Coord)
    requires WellFormed(g) && InBounds(p) && At(g, p) == Obstacle
    requires RegistryMatches(g, reg) && |reg| > 0
    ensures RegistryMatches(WithCell(g, p, TeleportOut), Put(reg, Keys(reg)[|reg| - 1], Some(p)))
  {
    var last := Keys(reg)[|reg| - 1];
    var g', reg' := WithCell(g, p, TeleportOut), Put(reg, last, Some(p));
    var i0 := IndexOf(reg, last).value;
    assert reg' == reg[i0 := Teleport(last, Some(p))];
    assert Keys(reg') == Keys(reg);
    forall i | 0 <= i < |reg'| ensures InBounds(reg'[i].entry) {
      assert reg'[i].entry == reg[i].entry;
    }
    forall q | InBounds(q) ensures At(g', q) == TeleportIn <==> q in Keys(reg') {
      if q != p { assert At(g', q) == At(g, q); }
    }
    forall i | 0 <= i < |reg'| && reg'[i].exit.Some?
      ensures InBounds(reg'[i].exit.value) && At(g', reg'[i].exit.value) == TeleportOut
    {
      if i != i0 {
        assert reg'[i] == reg[i];
      }
    }
  }

  /** Unregistering the entry p and emptying its cell keeps the registry invariant. */
  lemma RemoveEntryKeeps(g: Grid, reg: Registry, p: Coord)
    requires WellFormed(g) && InBounds(p) && At(g, p) == TeleportIn
    requires RegistryMatches(g, reg)
    ensures Delete(reg, p).Ok?
    ensures RegistryMatches(WithCell(g, p, Empty), Delete(reg, p).value)
  {
    var g' := WithCell(g, p, Empty);
    var i0 := IndexOf(reg, p).value;
    var reg' := RemoveAt(reg, i0);
    assert Delete(reg, p).value == reg';
    forall i | 0 <= i < |reg'| ensures InBounds(reg'[i].entry) {
      if i < i0 { assert reg'[i] == reg[i]; } else { assert reg'[i] == reg[i + 1]; }
    }
    forall i | 0 <= i < |reg'| && reg'[i].exit.Some?
      ensures InBounds(reg'[i].exit.value) && At(g', reg'[i].exit.value) == TeleportOut
    {
      var j := if i < i0 then i else i + 1;
      assert reg'[i] == reg[j];
      assert At(g, reg[j].exit.value) == TeleportOut;
    }
  }

  /** Every click that does not fail keeps the invariant: one start cell iff
      `start` is set and it points there, likewise for end, and the registry
      keys are the teleport-in cells with teleport-out exits. */
  lemma ClickKeepsInv(s: State, p: Coord)
    requires Inv(s) && InBounds(p)
    requires Click(s, p).Ok?
    ensures Inv(Click(s, p).value)
  {
    var s' := Click(s, p).value;
    OneEntry(s, p);
    var c := At(s.grid, p);
    match c
    case Empty =>
      assert p !in Keys(s.teleports);
      forall i | 0 <= i < |s.teleports| && s.teleports[i].exit.Some?
        ensures s.teleports[i].exit.value != p
      {
      }
      if s.start.None? {
        MarksOnlyKept(s.grid, s'.grid, End, s.end, p);
      } else if s.end.None? {
        MarksOnlyKept(s.grid, s'.grid, Start, s.start, p);
      } else {
        MarksOnlyKept(s.grid, s'.grid, Start, s.start, p);
        MarksOnlyKept(s.grid, s'.grid, End, s.end, p);
      }
    case Start =>
      MarksOnlyKept(s.grid, s'.grid, End, s.end, p);
      forall i | 0 <= i < |s.teleports| && s.teleports[i].exit.Some?
        ensures s.teleports[i].exit.value != p
      {
      }
    case End =>
      MarksOnlyKept(s.grid, s'.grid, Start, s.start, p);
      forall i | 0 <= i < |s.teleports| && s.teleports[i].exit.Some?
        ensures s.teleports[i].exit.value != p
      {
      }
    case Obstacle =>
      MarksOnlyKept(s.grid, s'.grid, Start, s.start, p);
      MarksOnlyKept(s.grid, s'.grid, End, s.end, p);
      if |s.teleports| % 2 == 0 {
        NewEntryKeeps(s.grid, s.teleports, p);
      } else {
        PairLastKeeps(s.grid, s.teleports, p);
      }
    case TeleportIn =>
      MarksOnlyKept(s.grid, s'.grid, Start, s.start, p);
      MarksOnlyKept(s.grid, s'.grid, End, s.end, p);
      RemoveEntryKeeps(s.grid, s.teleports, p);
    case TeleportOut =>
      assert false;
  }

  /** A click never builds a second entry: with no entry it may add one, and
      with one entry an obstacle click re-pairs it instead of adding another. */
  lemma OneEntry(s: State, p: Coord)
    requires WellFormed(s.grid) && InBounds(p) && |s.teleports| <= 1
    requires Click(s, p).Ok?
    ensures |Click(s, p).value.teleports| <= 1
  {
    var reg := Click(s, p).value.teleports;
    if At(s.grid, p) == Obstacle && |s.teleports| == 1 {
      assert |Keys(reg)| == |Keys(s.teleports)|;
    }
  }

  /** Under the invariant a teleport-out cell is never a key, so clicking it
      raises KeyError and changes nothing. */
  lemma ExitClickFails(s: State, p: Coord)
    requires Inv(s) && InBounds(p) && At(s.grid, p) == TeleportOut
    ensures Click(s, p) == Err(KeyError(p))
  {
  }

  /** Clicking a teleport-in cell unregisters it and empties the cell. */
  lemma EntryClickRemoves(s: State, p: Coord)
    requires Inv(s) && InBounds(p) && At(s.grid, p) == TeleportIn
    ensures Click(s, p).Ok?
    ensures At(Click(s, p).value.grid, p) == Empty
    ensures p !in Keys(Click(s, p).value.teleports)
    ensures |Click(s, p).value.teleports| == |s.teleports| - 1
  {
  }

  /** An obstacle click registers a new unpaired entry iff the registry has an
      even number of keys; otherwise it pairs the most recently inserted key
      with the clicked cell and the key count stays the same. */
  lemma ObstacleClickParity(s: State, p: Coord)
    requires Inv(s) && InBounds(p) && At(s.grid, p) == Obstacle
    ensures Click(s, p).Ok?
    ensures |s.teleports| % 2 == 0 ==>
              Keys(Click(s, p).value.teleports) == Keys(s.teleports) + [p] &&
              Lookup(Click(s, p).value.teleports, p) == Some(None)
    ensures |s.teleports| % 2 == 1 ==>
              Keys(Click(s, p).value.teleports) == Keys(s.teleports) &&
              Lookup(Click(s, p).value.teleports, Keys(s.teleports)[|s.teleports| - 1]) == Some(Some(p))
  {
    assert p !in Keys(s.teleports);
  }

  /** With an even key count, turning an obstacle into an entry and clicking
      it again empties the cell and gives back the registry exactly. */
  lemma EntryRoundTrip(s: State, p: Coord)
    requires Inv(s) && InBounds(p) && At(s.grid, p) == Obstacle && |s.teleports| % 2 == 0
    ensures Click(s, p).Ok? && Click(Click(s, p).value, p).Ok?
    ensures var s2 := Click(Click(s, p).value, p).value;
      && s2.teleports == s.teleports && At(s2.grid, p) == Empty
      && s2.start == s.start && s2.end == s.end
      && forall q :: InBounds(q) && q != p ==> At(s2.grid, q) == At(s.grid, q)
  {
    assert p !in Keys(s.teleports);
    PutDeleteRoundTrip(s.teleports, p, None);
  }

  /** With an odd key count, a second obstacle click re-pairs the same entry:
      the first exit cell stays a teleport-out cell but is no longer referenced. */
  lemma SecondObstacleRepairs(s: State, p: Coord, q: Coord)
    requires Inv(s) && InBounds(p) && InBounds(q) && p != q
    requires At(s.grid, p) == Obstacle && At(s.grid, q) == Obstacle
    requires |s.teleports| % 2 == 1
    ensures Click(s, p).Ok? && Click(Click(s, p).value, q).Ok?
    ensures var s2 := Click(Click(s, p).value, q).value;
      var last := Keys(s.teleports)[|s.teleports| - 1];
      && Keys(s2.teleports) == Keys(s.teleports)
      && Lookup(s2.teleports, last) == Some(Some(q))
      && At(s2.grid, p) == TeleportOut && At(s2.grid, q) == TeleportOut
    // the first exit is no longer paired with anything
    ensures p !in Exits(Click(Click(s, p).value, q).value.teleports)
  {
    var s1 := Click(s, p).value;
    assert Keys(s1.teleports) == Keys(s.teleports);
    assert |s1.teleports| == |s.teleports|;
    SecondExitWins(s, p, q);
  }

  /** The second obstacle click leaves the first exit cell unreferenced. */
  lemma SecondExitWins(s: State, p: Coord, q: Coord)
    requires Inv(s) && InBounds(p) && InBounds(q) && p != q
    requires At(s.grid, p) == Obstacle && At(s.grid, q) == Obstacle
    requires |s.teleports| % 2 == 1
    ensures Click(s, p).Ok? && Click(Click(s, p).value, q).Ok?
    ensures p !in Exits(Click(Click(s, p).value, q).value.teleports)
  {
    var s1 := Click(s, p).value;
    assert Keys(s1.teleports) == Keys(s.teleports);
    assert |s1.teleports| == |s.teleports|;
    var s2 := Click(s1, q).value;
    UnreferencedExit(s.grid, s.teleports, s1.teleports, s2.teleports, Keys(s.teleports)[|s.teleports| - 1], p, q);
  }

  /** Two registries that agree with a well-formed one except that `last` now
      leads to q do not reference the obstacle cell p. */
  lemma UnreferencedExit(g: Grid, reg: Registry, reg1: Registry, reg2: Registry, last: Coord, p: Coord, q: Coord)
    requires WellFormed(g) && RegistryMatches(g, reg) && InBounds(p) && At(g, p) == Obstacle && p != q
    requires Distinct(Keys(reg2)) && Lookup(reg2, last) == Some(Some(q))
    requires forall k :: k != last ==> Lookup(reg1, k) == Lookup(reg, k)
    requires forall k :: k != last ==> Lookup(reg2, k) == Lookup(reg1, k)
    ensures p !in Exits(reg2)
  {
    forall i | 0 <= i < |reg2| && reg2[i].exit.Some? ensures reg2[i].exit.value != p {
      var k := reg2[i].entry;
      assert Keys(reg2)[i] == k;
      assert Lookup(reg2, k) == Some(reg2[i].exit);
      if k != last {
        // an untouched pair: its exit is a teleport-out cell of g
        var m := IndexOf(reg, k).value;
        assert Lookup(reg, k) == Some(reg[m].exit);
        assert At(g, reg[m].exit.value) == TeleportOut;
      }
    }
  }

  /** The editor invariant rules out chained teleports, keeps exits on the
      board, and keeps the start and end apart. */
  lemma InvNoChaining(s: State)
    requires Inv(s) && s.start.Some?
    ensures NoChaining(s.grid, s.teleports, s.start.value)
    ensures InBounds(s.start.value) && forall x :: x in Exits(s.teleports) ==> InBounds(x)
    ensures s.end.Some? ==> s.end.value != s.start.value
  {
    if s.end.Some? {
      assert At(s.grid, s.start.value) == Start && At(s.grid, s.end.value) == End;
    }
    forall x | x in Exits(s.teleports) ensures InBounds(x) && !ActiveEntry(s.grid, s.teleports, x) {
      var i :| 0 <= i < |s.teleports| && s.teleports[i].exit.Some? && s.teleports[i].exit.value == x;
    }
  }

  /** `find_path` without the dialogs: refuse when an endpoint is unset,
      otherwise run the wave search on the current board. */
  method FindPath(s: State) returns (r: Outcome<PathResult, MissingEndpoint>)
    requires WellFormed(s.grid)
    ensures r.Err? <==> s.start.None? || s.end.None?
    ensures r.Ok? && r.value.Found? ==>
              && |r.value.path| >= 2
              && r.value.path[0] == s.start.value && r.value.path[|r.value.path| - 1] == s.end.value
              && r.value.distance == |r.value.path| - 1
              && forall i :: 0 <= i < |r.value.path| - 1 ==>
                   LegalStep(s.grid, s.teleports, r.value.path[i], r.value.path[i + 1])
    ensures Inv(s) && r.Ok? && r.value.Found? ==>
              forall w :: ForcedWalk(s.grid, s.teleports, w) && w[0] == s.start.value && w[|w| - 1] == s.end.value ==>
                r.value.distance <= |w| - 1
    ensures Inv(s) && r.Ok? && r.value.NotFound? ==>
              forall w :: ForcedWalk(s.grid, s.teleports, w) && w[0] == s.start.value ==> w[|w| - 1] != s.end.value
  {
    if s.start.None? || s.end.None? {
      return Err(MissingEndpoint);
    }
    var start, end := s.start.value, s.end.value;
    if Inv(s) {
      InvNoChaining(s);
    }
    var result, order, dist, pred := WaveAlgorithm(s.grid, s.teleports, start, end);
    r := Ok(result);
  }
}

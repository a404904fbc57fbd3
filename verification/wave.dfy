/** The wave (Lee) search of `PathfindingApp.wave_algorithm`: breadth-first
    search from `start` over the four orthogonal moves, where stepping onto a
    paired teleport-in cell whose exit has no distance yet lands on the exit
    instead, stopping as soon as a landing cell is `end`. */
module Wave {
  import opened Base
  import opened Board
  import opened Teleports

  /** `(path, distance)`, or `(None, None)` when the search gives up. */
  datatype PathResult = Found(path: seq<Coord>, distance: nat) | NotFound

  /** A teleport-in cell that is a registry key with an exit assigned. */
  predicate ActiveEntry(g: Grid, tp: Registry, n: Coord)
    requires WellFormed(g)
  {
    InBounds(n) && At(g, n) == TeleportIn && Lookup(tp, n).Some? && Lookup(tp, n).value.Some?
  }

  function ExitOf(g: Grid, tp: Registry, n: Coord): Coord
    requires WellFormed(g) && ActiveEntry(g, tp, n)
  {
    Lookup(tp, n).value.value
  }

  /** Where stepping into n ends if a paired entry always teleported: the
      reference semantics the search is measured against. */
  function Target(g: Grid, tp: Registry, n: Coord): Coord
    requires WellFormed(g)
  {
    if ActiveEntry(g, tp, n) then ExitOf(g, tp, n) else n
  }

  /** The cell a move into neighbour n lands on, given the cells that already
      hold a distance; None when the move is skipped. The landing agrees with
      the always-teleport target unless that target was reached before, in
      which case the entry itself is landed on. */
  function Landing(g: Grid, tp: Registry, seen: set<Coord>, n: Coord): (r: Option<Coord>)
    requires WellFormed(g)
    ensures r.None? <==> !Passable(g, n) || n in seen
    ensures r.Some? ==> r.value !in seen
    ensures r.Some? ==> r.value == Target(g, tp, n) || (r.value == n && Target(g, tp, n) in seen)
  {
    if !InBounds(n) || n in seen then None
    else
      match At(g, n)
      case Obstacle => None
      case TeleportIn =>
        (match Lookup(tp, n)
         case Some(Some(x)) => if x !in seen then Some(x) else Some(n)
         case _ => Some(n))
      case _ => Some(n)
  }

  /** p reaches q through an adjacent paired entry whose exit is q. */
  predicate Teleported(g: Grid, tp: Registry, p: Coord, q: Coord)
    requires WellFormed(g)
  {
    exists j :: 0 <= j < 4 && ActiveEntry(g, tp, Neighbors(p)[j]) && ExitOf(g, tp, Neighbors(p)[j]) == q
  }

  /** A step of a returned path: an ordinary move onto a passable neighbour, or a teleport jump. */
  predicate LegalStep(g: Grid, tp: Registry, p: Coord, q: Coord)
    requires WellFormed(g)
  {
    (q in Neighbors(p) && Passable(g, q)) || Teleported(g, tp, p, q)
  }

  /** One move under the always-teleport semantics. */
  ghost predicate ForcedStep(g: Grid, tp: Registry, p: Coord, q: Coord)
    requires WellFormed(g)
  {
    exists j :: 0 <= j < 4 && Passable(g, Neighbors(p)[j]) && Target(g, tp, Neighbors(p)[j]) == q
  }

  /** A non-empty walk of always-teleport moves. */
  ghost predicate ForcedWalk(g: Grid, tp: Registry, w: seq<Coord>)
    requires WellFormed(g)
  {
    |w| >= 1 && forall i :: 0 <= i < |w| - 1 ==> ForcedStep(g, tp, w[i], w[i + 1])
  }

  /** Neither the start nor any registered exit is itself a paired entry, so a
      teleport never chains into another. The editor's invariant implies it. */
  predicate NoChaining(g: Grid, tp: Registry, start: Coord)
    requires WellFormed(g)
  {
    !ActiveEntry(g, tp, start) && forall x :: x in Exits(tp) ==> !ActiveEntry(g, tp, x)
  }

  /** Every cell a search can ever record. */
  function Universe(tp: Registry, start: Coord): set<Coord> {
    Cells() + {start} + Exits(tp)
  }

  /** The distance and predecessor tables form a tree rooted at start. */
  ghost predicate PredLinks(pred: map<Coord, Coord>, dist: map<Coord, nat>, start: Coord) {
    && start in dist && dist[start] == 0 && start !in pred
    && (forall c :: c in dist && c != start ==> c in pred)
    && (forall c :: c in pred ==> c in dist && pred[c] in dist && dist[c] == dist[pred[c]] + 1)
  }

  /** A recorded paired entry has its exit recorded too. */
  ghost predicate Resolved(g: Grid, tp: Registry, dist: map<Coord, nat>)
    requires WellFormed(g)
  {
    forall c :: c in dist && ActiveEntry(g, tp, c) ==> ExitOf(g, tp, c) in dist
  }

  /** Moving from p into n reaches a recorded cell at most one further than p. */
  ghost predicate StepClosed(g: Grid, tp: Registry, dist: map<Coord, nat>, p: Coord, n: Coord)
    requires WellFormed(g) && p in dist
  {
    Passable(g, n) ==> Target(g, tp, n) in dist && dist[Target(g, tp, n)] <= dist[p] + 1
  }

  /** All four moves out of p are closed. */
  ghost predicate Closed(g: Grid, tp: Registry, dist: map<Coord, nat>, p: Coord)
    requires WellFormed(g)
  {
    p in dist && forall j :: 0 <= j < 4 ==> StepClosed(g, tp, dist, p, Neighbors(p)[j])
  }

  lemma StepClosedGrows(g: Grid, tp: Registry, dist: map<Coord, nat>, p: Coord, n: Coord, c: Coord, v: nat)
    requires WellFormed(g) && p in dist && c !in dist
    requires StepClosed(g, tp, dist, p, n)
    ensures StepClosed(g, tp, dist[c := v], p, n)
  {
  }

  lemma ClosedGrows(g: Grid, tp: Registry, dist: map<Coord, nat>, p: Coord, c: Coord, v: nat)
    requires WellFormed(g) && c !in dist
    requires Closed(g, tp, dist, p)
    ensures Closed(g, tp, dist[c := v], p)
  {
    forall j | 0 <= j < 4 ensures StepClosed(g, tp, dist[c := v], p, Neighbors(p)[j]) {
      StepClosedGrows(g, tp, dist, p, Neighbors(p)[j], c, v);
    }
  }

  /** If every recorded cell nearer than D is closed, a forced walk from start
      of at most D moves ends on a recorded cell no further than its length. */
  lemma {:induction false} WalkStaysInside(g: Grid, tp: Registry, dist: map<Coord, nat>, start: Coord, bound: nat,
                                           w: seq<Coord>)
    requires WellFormed(g)
    requires start in dist && dist[start] == 0
    requires forall c :: c in dist && dist[c] < bound ==> Closed(g, tp, dist, c)
    requires ForcedWalk(g, tp, w) && w[0] == start && |w| - 1 <= bound
    ensures w[|w| - 1] in dist && dist[w[|w| - 1]] <= |w| - 1
    decreases |w|
  {
    if |w| > 1 {
      var prefix := w[..|w| - 1];
      assert ForcedWalk(g, tp, prefix) by {
        forall i | 0 <= i < |prefix| - 1 ensures ForcedStep(g, tp, prefix[i], prefix[i + 1]) {
          assert prefix[i] == w[i] && prefix[i + 1] == w[i + 1];
        }
      }
      WalkStaysInside(g, tp, dist, start, bound, prefix);
      var p := w[|w| - 2];
      assert p == prefix[|prefix| - 1];
      assert Closed(g, tp, dist, p);
      assert ForcedStep(g, tp, p, w[|w| - 1]);
      var j :| 0 <= j < 4 && Passable(g, Neighbors(p)[j]) && Target(g, tp, Neighbors(p)[j]) == w[|w| - 1];
      assert StepClosed(g, tp, dist, p, Neighbors(p)[j]);
    }
  }

  /** When every recorded cell is closed and end is not recorded, no forced walk
      from start reaches end. */
  lemma ClosedSetTraps(g: Grid, tp: Registry, dist: map<Coord, nat>, start: Coord, end: Coord)
    requires WellFormed(g)
    requires start in dist && dist[start] == 0 && end !in dist
    requires forall c :: c in dist ==> Closed(g, tp, dist, c)
    ensures forall w :: ForcedWalk(g, tp, w) && w[0] == start ==> w[|w| - 1] != end
  {
    forall w | ForcedWalk(g, tp, w) && w[0] == start ensures w[|w| - 1] != end {
      WalkStaysInside(g, tp, dist, start, |w| - 1, w);
    }
  }

  /** When every recorded cell nearer than d is closed and end is not recorded,
      every forced walk from start to end has more than d moves. */
  lemma LayersBound(g: Grid, tp: Registry, dist: map<Coord, nat>, start: Coord, end: Coord, d: nat)
    requires WellFormed(g)
    requires start in dist && dist[start] == 0 && end !in dist
    requires forall c :: c in dist && dist[c] < d ==> Closed(g, tp, dist, c)
    ensures forall w :: ForcedWalk(g, tp, w) && w[0] == start && w[|w| - 1] == end ==> d + 1 <= |w| - 1
  {
    forall w | ForcedWalk(g, tp, w) && w[0] == start && w[|w| - 1] == end ensures d + 1 <= |w| - 1 {
      if |w| - 1 <= d {
        WalkStaysInside(g, tp, dist, start, d, w);
      }
    }
  }

  /** In a discovery order sorted by distance, the cells nearer than the one
      at position m all come before m. */
  lemma LowerLayersClosed(g: Grid, tp: Registry, dist: map<Coord, nat>, seen: seq<Coord>, m: nat)
    requires WellFormed(g)
    requires m < |seen|
    requires forall c :: c in dist <==> c in seen
    requires forall i, j :: 0 <= i <= j < |seen| ==> dist[seen[i]] <= dist[seen[j]]
    requires forall i :: 0 <= i < m ==> Closed(g, tp, dist, seen[i])
    ensures forall c :: c in dist && dist[c] < dist[seen[m]] ==> Closed(g, tp, dist, c)
  {
    forall c | c in dist && dist[c] < dist[seen[m]] ensures Closed(g, tp, dist, c) {
      var i :| 0 <= i < |seen| && seen[i] == c;
    }
  }

  /** Following predecessor links back from c, reversed: the path from start to c
      (Task5.py:139-143 builds it backwards and reverses it). */
  function Trace(pred: map<Coord, Coord>, dist: map<Coord, nat>, start: Coord, c: Coord): (path: seq<Coord>)
    requires c in dist && PredLinks(pred, dist, start)
    ensures |path| == dist[c] + 1
    ensures path[0] == start && path[|path| - 1] == c
    ensures forall i :: 0 <= i < |path| ==> path[i] in dist && dist[path[i]] == i
    ensures forall i :: 0 < i < |path| ==> path[i] in pred && pred[path[i]] == path[i - 1]
    decreases dist[c]
  {
    if c in pred then Trace(pred, dist, start, pred[c]) + [c] else [c]
  }

  /** A path with the i-th cell at distance i repeats no cell. */
  lemma TraceDistinct(path: seq<Coord>, dist: map<Coord, nat>)
    requires forall i :: 0 <= i < |path| ==> path[i] in dist && dist[path[i]] == i
    ensures Distinct(path)
  {
  }

  /** A search over in-bounds start and exits visits at most every board cell once. */
  lemma VisitBound(order: seq<Coord>, tp: Registry, start: Coord)
    requires Distinct(order)
    requires forall c :: c in order ==> InBounds(c) || c == start || c in Exits(tp)
    requires InBounds(start) && forall x :: x in Exits(tp) ==> InBounds(x)
    ensures |order| <= Size * Size
  {
    DistinctCard(order);
    forall c | c in Elements(order) ensures c in Cells() {
      InCells(c);
    }
    SubsetCard(Elements(order), Cells());
    CellsCard();
  }

  /** The landing of a move is a cell the search may record. */
  lemma LandingInUniverse(g: Grid, tp: Registry, seen: set<Coord>, start: Coord, n: Coord)
    requires WellFormed(g) && Landing(g, tp, seen, n).Some?
    ensures Landing(g, tp, seen, n).value in Universe(tp, start)
    ensures InBounds(Landing(g, tp, seen, n).value) || Landing(g, tp, seen, n).value in Exits(tp)
  {
    var c := Landing(g, tp, seen, n).value;
    if c == n {
      InCells(n);
    } else {
      assert ActiveEntry(g, tp, n);
    }
  }

  /** Each recorded cell was discovered exactly once, and is a board cell,
      the start or a registered exit. */
  ghost predicate Trail(tp: Registry, start: Coord, seen: seq<Coord>, dist: map<Coord, nat>) {
    && |seen| >= 1 && Distinct(seen) && seen[0] == start
    && (forall c :: c in dist <==> c in seen)
    && (forall c :: c in seen ==> InBounds(c) || c == start || c in Exits(tp))
  }

  /** Every recorded predecessor link is a legal step. */
  ghost predicate StepsLegal(g: Grid, tp: Registry, pred: map<Coord, Coord>)
    requires WellFormed(g)
  {
    forall c :: c in pred ==> LegalStep(g, tp, pred[c], c)
  }

  /** Cells were discovered in non-decreasing distance. */
  ghost predicate Sorted(seen: seq<Coord>, dist: map<Coord, nat>)
    requires forall c :: c in seen ==> c in dist
  {
    forall i, j :: 0 <= i <= j < |seen| ==> dist[seen[i]] <= dist[seen[j]]
  }

  /** What holds of the search tables at every point: each recorded cell was
      discovered once, in distance order, from a legal step out of its
      predecessor. */
  ghost predicate Discovered(g: Grid, tp: Registry, start: Coord, seen: seq<Coord>,
                             dist: map<Coord, nat>, pred: map<Coord, Coord>)
    requires WellFormed(g)
  {
    && Trail(tp, start, seen, dist)
    && PredLinks(pred, dist, start)
    && StepsLegal(g, tp, pred)
    && Sorted(seen, dist)
    && (NoChaining(g, tp, start) ==> Resolved(g, tp, dist))
  }

  /** The first m discovered cells have been expanded. */
  ghost predicate ClosedUpTo(g: Grid, tp: Registry, dist: map<Coord, nat>, seen: seq<Coord>, m: nat)
    requires WellFormed(g) && m <= |seen|
  {
    forall i :: 0 <= i < m ==> Closed(g, tp, dist, seen[i])
  }

  /** A skipped move out of current is closed already. */
  lemma SkipClosed(g: Grid, tp: Registry, start: Coord, seen: seq<Coord>, dist: map<Coord, nat>,
                   pred: map<Coord, Coord>, current: Coord, n: Coord)
    requires WellFormed(g) && Discovered(g, tp, start, seen, dist, pred) && NoChaining(g, tp, start)
    requires current in dist && forall c :: c in dist ==> dist[c] <= dist[current] + 1
    requires Landing(g, tp, dist.Keys, n).None?
    ensures StepClosed(g, tp, dist, current, n)
  {
  }

  /** What a landing cell c of a move from p into n is. */
  lemma LandingFacts(g: Grid, tp: Registry, start: Coord, dist: map<Coord, nat>, p: Coord, n: Coord, c: Coord)
    requires WellFormed(g) && n in Neighbors(p) && Landing(g, tp, dist.Keys, n) == Some(c)
    ensures c !in dist
    ensures LegalStep(g, tp, p, c)
    ensures InBounds(c) || c in Exits(tp)
    ensures NoChaining(g, tp, start) && ActiveEntry(g, tp, c) ==> ExitOf(g, tp, c) in dist || ExitOf(g, tp, c) == c
  {
    if c != n {
      assert ActiveEntry(g, tp, n);
      assert c in Exits(tp);
      var j :| 0 <= j < 4 && Neighbors(p)[j] == n;
    }
  }

  lemma RecordTrail(tp: Registry, start: Coord, seen: seq<Coord>, dist: map<Coord, nat>, c: Coord, v: nat)
    requires Trail(tp, start, seen, dist) && c !in dist && (InBounds(c) || c in Exits(tp))
    ensures Trail(tp, start, seen + [c], dist[c := v])
  {
  }

  lemma RecordLinks(pred: map<Coord, Coord>, dist: map<Coord, nat>, start: Coord, p: Coord, c: Coord)
    requires PredLinks(pred, dist, start) && p in dist && c !in dist
    ensures PredLinks(pred[c := p], dist[c := dist[p] + 1], start)
  {
  }

  lemma RecordSorted(tp: Registry, start: Coord, seen: seq<Coord>, dist: map<Coord, nat>, c: Coord, v: nat)
    requires Trail(tp, start, seen, dist) && Sorted(seen, dist) && c !in dist
    requires forall x :: x in dist ==> dist[x] <= v
    ensures forall x :: x in seen + [c] ==> x in dist[c := v]
    ensures Sorted(seen + [c], dist[c := v])
  {
    var seen', dist' := seen + [c], dist[c := v];
    forall i, j | 0 <= i <= j < |seen'| ensures dist'[seen'[i]] <= dist'[seen'[j]] {
      if j < |seen| {
        assert seen'[i] == seen[i] && seen'[j] == seen[j];
        assert seen[i] != c && seen[j] != c;
      } else if i < |seen| {
        assert seen'[i] == seen[i] && seen[i] in dist;
      }
    }
  }

  /** Moves already closed stay closed, and the move just taken closes too. */
  lemma KeepSteps(g: Grid, tp: Registry, before: map<Coord, nat>, after: map<Coord, nat>,
                  p: Coord, nbrs: seq<Coord>, k: nat)
    requires WellFormed(g) && p in before && p in after && k < |nbrs|
    requires forall j :: 0 <= j < k ==> StepClosed(g, tp, before, p, nbrs[j])
    requires forall m :: StepClosed(g, tp, before, p, m) ==> StepClosed(g, tp, after, p, m)
    requires StepClosed(g, tp, after, p, nbrs[k])
    ensures forall j :: 0 <= j < k + 1 ==> StepClosed(g, tp, after, p, nbrs[j])
  {
    forall j | 0 <= j < k + 1 ensures StepClosed(g, tp, after, p, nbrs[j]) {
      if j < k {
        assert StepClosed(g, tp, before, p, nbrs[j]);
      }
    }
  }

  lemma SliceAppend(s: seq<Coord>, i: nat, c: Coord)
    requires i <= |s|
    ensures (s + [c])[i..] == s[i..] + [c]
  {
  }

  lemma RecordClosed(g: Grid, tp: Registry, seen: seq<Coord>, dist: map<Coord, nat>, m: nat, c: Coord, v: nat)
    requires WellFormed(g) && m <= |seen| && c !in dist
    requires ClosedUpTo(g, tp, dist, seen, m)
    ensures ClosedUpTo(g, tp, dist[c := v], seen + [c], m)
  {
    forall i | 0 <= i < m ensures Closed(g, tp, dist[c := v], (seen + [c])[i]) {
      assert (seen + [c])[i] == seen[i];
      ClosedGrows(g, tp, dist, seen[i], c, v);
    }
  }

  /** The new predecessor link is a legal step, and a recorded paired entry
      still has its exit recorded. */
  lemma RecordLegal(g: Grid, tp: Registry, start: Coord, dist: map<Coord, nat>, pred: map<Coord, Coord>,
                    current: Coord, n: Coord, c: Coord, v: nat)
    requires WellFormed(g) && StepsLegal(g, tp, pred) && (NoChaining(g, tp, start) ==> Resolved(g, tp, dist))
    requires n in Neighbors(current) && Landing(g, tp, dist.Keys, n) == Some(c)
    ensures StepsLegal(g, tp, pred[c := current])
    ensures NoChaining(g, tp, start) ==> Resolved(g, tp, dist[c := v])
  {
    LandingFacts(g, tp, start, dist, current, n, c);
  }

  /** Recording c at one more than current closes the move from current into n. */
  lemma RecordCloses(g: Grid, tp: Registry, start: Coord, dist: map<Coord, nat>, current: Coord, n: Coord, c: Coord)
    requires WellFormed(g) && current in dist && NoChaining(g, tp, start)
    requires Resolved(g, tp, dist)
    requires forall x :: x in dist ==> dist[x] <= dist[current] + 1
    requires Landing(g, tp, dist.Keys, n) == Some(c)
    ensures StepClosed(g, tp, dist[c := dist[current] + 1], current, n)
  {
  }

  /** Recording a landing cell c for a move from current into n keeps the
      tables consistent. */
  lemma Record(g: Grid, tp: Registry, start: Coord, seen: seq<Coord>, dist: map<Coord, nat>,
               pred: map<Coord, Coord>, current: Coord, n: Coord, c: Coord)
    requires WellFormed(g) && Discovered(g, tp, start, seen, dist, pred)
    requires current in dist && forall x :: x in dist ==> dist[x] <= dist[current] + 1
    requires n in Neighbors(current) && Landing(g, tp, dist.Keys, n) == Some(c)
    ensures c !in dist
    ensures Discovered(g, tp, start, seen + [c], dist[c := dist[current] + 1], pred[c := current])
  {
    var v := dist[current] + 1;
    LandingFacts(g, tp, start, dist, current, n, c);
    RecordTrail(tp, start, seen, dist, c, v);
    RecordLinks(pred, dist, start, current, c);
    RecordSorted(tp, start, seen, dist, c, v);
    RecordLegal(g, tp, start, dist, pred, current, n, c, v);
  }

  /** Recording the landing cell keeps the expanded prefix closed, closes the
      move just taken, and keeps the moves of current closed so far closed. */
  lemma RecordClosing(g: Grid, tp: Registry, start: Coord, seen: seq<Coord>, dist: map<Coord, nat>,
                      popped: nat, current: Coord, n: Coord, c: Coord)
    requires WellFormed(g) && NoChaining(g, tp, start) && Resolved(g, tp, dist)
    requires 1 <= popped <= |seen| && current in dist
    requires forall x :: x in dist ==> dist[x] <= dist[current] + 1
    requires Landing(g, tp, dist.Keys, n) == Some(c)
    requires ClosedUpTo(g, tp, dist, seen, popped - 1)
    ensures ClosedUpTo(g, tp, dist[c := dist[current] + 1], seen + [c], popped - 1)
    ensures StepClosed(g, tp, dist[c := dist[current] + 1], current, n)
    ensures forall m :: StepClosed(g, tp, dist, current, m) ==>
                          StepClosed(g, tp, dist[c := dist[current] + 1], current, m)
  {
    var v := dist[current] + 1;
    RecordClosed(g, tp, seen, dist, popped - 1, c, v);
    RecordCloses(g, tp, start, dist, current, n, c);
    forall m | StepClosed(g, tp, dist, current, m) ensures StepClosed(g, tp, dist[c := v], current, m) {
      StepClosedGrows(g, tp, dist, current, m, c, v);
    }
  }

  /** Every recorded cell is at most one further than the next one to expand. */
  lemma SpanBound(g: Grid, tp: Registry, start: Coord, seen: seq<Coord>, dist: map<Coord, nat>,
                  pred: map<Coord, Coord>, m: nat)
    requires WellFormed(g) && Discovered(g, tp, start, seen, dist, pred)
    requires m < |seen| && dist[seen[|seen| - 1]] <= dist[seen[m]] + 1
    ensures forall x :: x in dist ==> dist[x] <= dist[seen[m]] + 1
  {
    forall x | x in dist ensures dist[x] <= dist[seen[m]] + 1 {
      var i :| 0 <= i < |seen| && seen[i] == x;
      assert dist[seen[i]] <= dist[seen[|seen| - 1]];
    }
  }

  /** The recorded cells all lie in the search's universe. */
  lemma TrailInUniverse(tp: Registry, start: Coord, seen: seq<Coord>, dist: map<Coord, nat>)
    requires Trail(tp, start, seen, dist)
    ensures dist.Keys <= Universe(tp, start)
  {
    forall c | c in dist ensures c in Universe(tp, start) {
      InCells(c);
    }
  }

  /** Closing the four moves of the m-th discovered cell extends the expanded prefix. */
  lemma CloseCurrent(g: Grid, tp: Registry, dist: map<Coord, nat>, seen: seq<Coord>, m: nat)
    requires WellFormed(g) && m < |seen| && seen[m] in dist
    requires ClosedUpTo(g, tp, dist, seen, m)
    requires forall j :: 0 <= j < 4 ==> StepClosed(g, tp, dist, seen[m], Neighbors(seen[m])[j])
    ensures ClosedUpTo(g, tp, dist, seen, m + 1)
  {
    assert Closed(g, tp, dist, seen[m]);
  }

  /** Everything recording the landing cell c of a move from current into n
      establishes about the updated tables. */
  lemma RecordMove(g: Grid, tp: Registry, start: Coord, end: Coord, current: Coord, n: Coord, c: Coord,
                   dist: map<Coord, nat>, pred: map<Coord, Coord>, seen: seq<Coord>, popped: nat)
    requires WellFormed(g) && Discovered(g, tp, start, seen, dist, pred)
    requires 1 <= popped <= |seen| && current == seen[popped - 1]
    requires n in Neighbors(current) && Landing(g, tp, dist.Keys, n) == Some(c)
    requires forall x :: x in dist ==> dist[x] <= dist[current] + 1
    requires end in dist ==> end == start
    requires NoChaining(g, tp, start) ==> ClosedUpTo(g, tp, dist, seen, popped - 1)
    ensures var dist', seen' := dist[c := dist[current] + 1], seen + [c];
      && c !in dist
      && Discovered(g, tp, start, seen', dist', pred[c := current])
      && seen'[popped..] == seen[popped..] + [c] && current == seen'[popped - 1]
      && (forall x :: x in dist' ==> dist'[x] <= dist[current] + 1)
      && (NoChaining(g, tp, start) ==> ClosedUpTo(g, tp, dist', seen', popped - 1))
      && (NoChaining(g, tp, start) ==> StepClosed(g, tp, dist', current, n))
      && (NoChaining(g, tp, start) ==>
            forall m :: StepClosed(g, tp, dist, current, m) ==> StepClosed(g, tp, dist', current, m))
      && (c != end ==> (end in dist' ==> end == start))
      && (c == end ==> end != start)
      && (c == end && NoChaining(g, tp, start) ==>
            forall w :: ForcedWalk(g, tp, w) && w[0] == start && w[|w| - 1] == end ==> dist'[end] <= |w| - 1)
  {
    var d := dist[current];
    Record(g, tp, start, seen, dist, pred, current, n, c);
    SliceAppend(seen, popped, c);
    if NoChaining(g, tp, start) {
      RecordClosing(g, tp, start, seen, dist, popped, current, n, c);
    }
    if c == end && NoChaining(g, tp, start) {
      LowerLayersClosed(g, tp, dist, seen, popped - 1);
      LayersBound(g, tp, dist, start, end, d);
    }
  }

  /** The tables dist, pred extend dist0, pred0 without changing any recorded
      entry, and every newly recorded cell lies at distance d + 1 with p as
      its predecessor. */
  ghost predicate Grows(dist0: map<Coord, nat>, pred0: map<Coord, Coord>,
                        dist: map<Coord, nat>, pred: map<Coord, Coord>, d: nat, p: Coord) {
    && (forall c :: c in dist0 ==> c in dist && dist[c] == dist0[c])
    && (forall c :: c in pred0 ==> c in pred && pred[c] == pred0[c])
    && (forall c :: c in dist && c !in dist0 ==> dist[c] == d + 1 && c in pred && pred[c] == p)
  }

  lemma GrowsTrans(dist0: map<Coord, nat>, pred0: map<Coord, Coord>, dist1: map<Coord, nat>,
                   pred1: map<Coord, Coord>, dist2: map<Coord, nat>, pred2: map<Coord, Coord>, d: nat, p: Coord)
    requires Grows(dist0, pred0, dist1, pred1, d, p) && Grows(dist1, pred1, dist2, pred2, d, p)
    ensures Grows(dist0, pred0, dist2, pred2, d, p)
  {
  }

  /** One move out of current into n (Task5.py:116-143): skip it, or record
      its landing cell; `hit` reports that the landing cell is end. */
  method Visit(g: Grid, tp: Registry, start: Coord, end: Coord, current: Coord, n: Coord,
               queue0: seq<Coord>, dist0: map<Coord, nat>, pred0: map<Coord, Coord>,
               ghost seen0: seq<Coord>, ghost popped: nat)
      returns (hit: bool, queue: seq<Coord>, distances: map<Coord, nat>, predecessors: map<Coord, Coord>,
               ghost seen: seq<Coord>)
    requires WellFormed(g) && Discovered(g, tp, start, seen0, dist0, pred0)
    requires 1 <= popped <= |seen0| && queue0 == seen0[popped..] && current == seen0[popped - 1]
    requires n in Neighbors(current)
    requires forall c :: c in dist0 ==> dist0[c] <= dist0[current] + 1
    requires end in dist0 ==> end == start
    requires NoChaining(g, tp, start) ==> ClosedUpTo(g, tp, dist0, seen0, popped - 1)
    ensures Discovered(g, tp, start, seen, distances, predecessors)
    ensures popped <= |seen| && queue == seen[popped..] && current == seen[popped - 1]
    ensures dist0.Keys <= distances.Keys && distances[current] == dist0[current]
    ensures distances.Keys == dist0.Keys ==> |queue| == |queue0|
    ensures forall c :: c in distances ==> distances[c] <= dist0[current] + 1
    ensures NoChaining(g, tp, start) ==> ClosedUpTo(g, tp, distances, seen, popped - 1)
    ensures NoChaining(g, tp, start) ==> StepClosed(g, tp, distances, current, n)
    ensures NoChaining(g, tp, start) ==>
              forall m :: StepClosed(g, tp, dist0, current, m) ==> StepClosed(g, tp, distances, current, m)
    ensures !hit ==> (end in distances ==> end == start)
    ensures hit ==> end in distances && end != start && distances[end] == dist0[current] + 1
    ensures hit && NoChaining(g, tp, start) ==>
              forall w :: ForcedWalk(g, tp, w) && w[0] == start && w[|w| - 1] == end ==> distances[end] <= |w| - 1
    // the move is skipped, or its landing cell is recorded one further than current and queued
    ensures match Landing(g, tp, dist0.Keys, n)
      case None => !hit && queue == queue0 && distances == dist0 && predecessors == pred0
      case Some(c) =>
        && hit == (c == end) && queue == queue0 + [c]
        && distances == dist0[c := dist0[current] + 1] && predecessors == pred0[c := current]
    ensures Grows(dist0, pred0, distances, predecessors, dist0[current], current)
  {
    var landing := Landing(g, tp, dist0.Keys, n);
    if landing.None? {
      if NoChaining(g, tp, start) {
        SkipClosed(g, tp, start, seen0, dist0, pred0, current, n);
      }
      return false, queue0, dist0, pred0, seen0;
    }
    var c := landing.value;
    RecordMove(g, tp, start, end, current, n, c, dist0, pred0, seen0, popped);
    hit := c == end;
    queue, distances := queue0 + [c], dist0[c := dist0[current] + 1];
    predecessors, seen := pred0[c := current], seen0 + [c];
  }

  /** The `for d in directions` loop (Task5.py:115-143) over the cell just
      taken off the queue; `hit` reports that end was landed on. */
  method Expand(g: Grid, tp: Registry, start: Coord, end: Coord, current: Coord,
                queue0: seq<Coord>, dist0: map<Coord, nat>, pred0: map<Coord, Coord>,
                ghost seen0: seq<Coord>, ghost popped: nat)
      returns (hit: bool, queue: seq<Coord>, distances: map<Coord, nat>, predecessors: map<Coord, Coord>,
               ghost seen: seq<Coord>)
    requires WellFormed(g) && Discovered(g, tp, start, seen0, dist0, pred0)
    requires 1 <= popped <= |seen0| && queue0 == seen0[popped..] && current == seen0[popped - 1]
    requires forall c :: c in dist0 ==> dist0[c] <= dist0[current] + 1
    requires end in dist0 ==> end == start
    requires NoChaining(g, tp, start) ==> ClosedUpTo(g, tp, dist0, seen0, popped - 1)
    ensures Discovered(g, tp, start, seen, distances, predecessors)
    ensures popped <= |seen| && queue == seen[popped..]
    ensures dist0.Keys <= distances.Keys
    ensures distances.Keys == dist0.Keys ==> |queue| == |queue0|
    ensures hit ==> end in distances && end != start && distances[end] == dist0[current] + 1
    ensures hit && NoChaining(g, tp, start) ==>
              forall w :: ForcedWalk(g, tp, w) && w[0] == start && w[|w| - 1] == end ==> distances[end] <= |w| - 1
    ensures !hit ==> (end in distances ==> end == start)
    ensures !hit && popped < |seen| ==> distances[seen[|seen| - 1]] <= distances[seen[popped]] + 1
    ensures !hit && NoChaining(g, tp, start) ==> ClosedUpTo(g, tp, distances, seen, popped)
    ensures Grows(dist0, pred0, distances, predecessors, dist0[current], current)
  {
    queue, distances, predecessors, seen := queue0, dist0, pred0, seen0;
    hit := false;
    var d := distances[current];
    var neighbors := Neighbors(current);
    for k := 0 to 4
      invariant !hit
      invariant Discovered(g, tp, start, seen, distances, predecessors)
      invariant popped <= |seen| && queue == seen[popped..]
      invariant current == seen[popped - 1] && distances[current] == d
      invariant forall c :: c in distances ==> distances[c] <= d + 1
      invariant end in distances ==> end == start
      invariant NoChaining(g, tp, start) ==> ClosedUpTo(g, tp, distances, seen, popped - 1)
      invariant NoChaining(g, tp, start) ==>
                  forall j :: 0 <= j < k ==> StepClosed(g, tp, distances, current, neighbors[j])
      invariant dist0.Keys <= distances.Keys
      invariant distances.Keys == dist0.Keys ==> |queue| == |queue0|
      invariant Grows(dist0, pred0, distances, predecessors, d, current)
    {
      ghost var before, predBefore := distances, predecessors;
      hit, queue, distances, predecessors, seen :=
        Visit(g, tp, start, end, current, neighbors[k], queue, distances, predecessors, seen, popped);
      GrowsTrans(dist0, pred0, before, predBefore, distances, predecessors, d, current);
      if hit {
        return;
      }
      if NoChaining(g, tp, start) {
        KeepSteps(g, tp, before, distances, current, neighbors, k);
      }
    }
    Expanded(g, tp, start, seen, distances, predecessors, popped, current);
  }

  /** Once all four moves of current, the cell at position popped - 1, are closed, the
      expanded prefix grows by one and the queue still spans at most one layer. */
  lemma Expanded(g: Grid, tp: Registry, start: Coord, seen: seq<Coord>, dist: map<Coord, nat>,
                 pred: map<Coord, Coord>, popped: nat, current: Coord)
    requires WellFormed(g) && Discovered(g, tp, start, seen, dist, pred)
    requires 1 <= popped <= |seen| && current == seen[popped - 1]
    requires forall c :: c in dist ==> dist[c] <= dist[current] + 1
    requires NoChaining(g, tp, start) ==> ClosedUpTo(g, tp, dist, seen, popped - 1)
    requires NoChaining(g, tp, start) ==>
               forall j :: 0 <= j < 4 ==> StepClosed(g, tp, dist, current, Neighbors(current)[j])
    ensures popped < |seen| ==> dist[seen[|seen| - 1]] <= dist[seen[popped]] + 1
    ensures NoChaining(g, tp, start) ==> ClosedUpTo(g, tp, dist, seen, popped)
  {
    if NoChaining(g, tp, start) {
      CloseCurrent(g, tp, dist, seen, popped - 1);
    }
    if popped < |seen| {
      assert dist[seen[popped - 1]] <= dist[seen[popped]];
    }
  }

  /** Recording new cells strictly shrinks the set of cells still unrecorded. */
  lemma Shrinks(universe: set<Coord>, before: set<Coord>, after: set<Coord>)
    requires before <= after <= universe && before != after
    ensures universe - after < universe - before
  {
    var x :| x in after && x !in before;
    assert x in universe - before;
  }

  /** Once every discovered cell is expanded and end was never recorded, end
      cannot be reached. */
  lemma Exhausted(g: Grid, tp: Registry, start: Coord, end: Coord, seen: seq<Coord>,
                  dist: map<Coord, nat>, pred: map<Coord, Coord>)
    requires WellFormed(g) && Discovered(g, tp, start, seen, dist, pred)
    requires NoChaining(g, tp, start) && ClosedUpTo(g, tp, dist, seen, |seen|)
    requires end !in dist
    ensures forall w :: ForcedWalk(g, tp, w) && w[0] == start ==> w[|w| - 1] != end
  {
    forall c | c in dist ensures Closed(g, tp, dist, c) {
      var i :| 0 <= i < |seen| && seen[i] == c;
    }
    ClosedSetTraps(g, tp, dist, start, end);
  }

  /** The `while queue` loop (Task5.py:107-136): expand queued cells in order
      until end is landed on (`hit`) or the queue runs dry. */
  method Search(g: Grid, tp: Registry, start: Coord, end: Coord)
      returns (hit: bool, distances: map<Coord, nat>, predecessors: map<Coord, Coord>, ghost seen: seq<Coord>)
    requires WellFormed(g)
    ensures Discovered(g, tp, start, seen, distances, predecessors)
    ensures hit ==> end in distances && end != start
    ensures hit && NoChaining(g, tp, start) ==>
              forall w :: ForcedWalk(g, tp, w) && w[0] == start && w[|w| - 1] == end ==> distances[end] <= |w| - 1
    ensures !hit ==> (end in distances ==> end == start)
    ensures !hit && NoChaining(g, tp, start) ==> ClosedUpTo(g, tp, distances, seen, |seen|)
  {
    var queue := [start];
    distances := map[start := 0];
    predecessors := map[];
    seen := [start];
    ghost var popped: nat := 0;
    ghost var universe := Universe(tp, start);
    hit := false;

    while queue != []
      invariant !hit
      invariant Discovered(g, tp, start, seen, distances, predecessors)
      invariant popped <= |seen| && queue == seen[popped..]
      invariant distances.Keys <= universe
      invariant popped < |seen| ==> distances[seen[|seen| - 1]] <= distances[seen[popped]] + 1
      invariant end in distances ==> end == start
      invariant NoChaining(g, tp, start) ==> ClosedUpTo(g, tp, distances, seen, popped)
      decreases universe - distances.Keys, |queue|
    {
      SpanBound(g, tp, start, seen, distances, predecessors, popped);
      ghost var keys0 := distances.Keys;
      var current := queue[0];
      popped := popped + 1;
      hit, queue, distances, predecessors, seen :=
        Expand(g, tp, start, end, current, queue[1..], distances, predecessors, seen, popped);
      if hit {
        return;
      }
      TrailInUniverse(tp, start, seen, distances);
      if distances.Keys != keys0 {
        Shrinks(universe, keys0, distances.Keys);
      }
    }
  }

  method WaveAlgorithm(g: Grid, tp: Registry, start: Coord, end: Coord)
      returns (r: PathResult, ghost order: seq<Coord>, ghost dist: map<Coord, nat>, ghost pred: map<Coord, Coord>)
    requires WellFormed(g)
    // the bookkeeping: every recorded cell discovered once, in distance order,
    // through a legal step from its predecessor
    ensures Discovered(g, tp, start, order, dist, pred)
    ensures InBounds(start) && (forall x :: x in Exits(tp) ==> InBounds(x)) ==> |order| <= Size * Size
    // the shape of the answer
    ensures start == end ==> r.NotFound?
    ensures r.Found? ==> |r.path| >= 2 && r.path[0] == start && r.path[|r.path| - 1] == end
    ensures r.Found? ==> r.distance == |r.path| - 1 && Distinct(r.path)
    ensures r.Found? ==> forall i :: 0 <= i < |r.path| - 1 ==> LegalStep(g, tp, r.path[i], r.path[i + 1])
    ensures r.Found? ==> end in dist && r.distance == dist[end] && r.path == Trace(pred, dist, start, end)
    // measured against always-teleport walks
    ensures r.Found? && NoChaining(g, tp, start) ==>
              forall w :: ForcedWalk(g, tp, w) && w[0] == start && w[|w| - 1] == end ==> r.distance <= |w| - 1
    ensures r.NotFound? ==> (end in dist ==> end == start)
    ensures r.NotFound? && start != end && NoChaining(g, tp, start) ==>
              forall w :: ForcedWalk(g, tp, w) && w[0] == start ==> w[|w| - 1] != end
  {
    var hit, distances, predecessors;
    hit, distances, predecessors, order := Search(g, tp, start, end);
    dist, pred := distances, predecessors;
    if hit {
      var path := Trace(predecessors, distances, start, end);
      TraceDistinct(path, distances);
      forall i | 0 <= i < |path| - 1 ensures LegalStep(g, tp, path[i], path[i + 1]) {
        assert predecessors[path[i + 1]] == path[i];
      }
      r := Found(path, distances[end]);
    } else {
      if start != end && NoChaining(g, tp, start) {
        Exhausted(g, tp, start, end, order, distances, predecessors);
      }
      r := NotFound;
    }
    if InBounds(start) && (forall x :: x in Exits(tp) ==> InBounds(x)) {
      VisitBound(order, tp, start);
    }
  }
}

/**
 * The board of one stage: its tiles, the player's flags and mistakes, the
 * counters the screen shows, the edge hints and the win state.  A Board
 * object changes in place as the player reveals cells and plants flags.
 */
module BoardEngine {
  import opened Common
  import opened Grid
  import opened BoardRules

  /** The board part of a stage description; a list the stage leaves out is empty. */
  datatype StageData = StageData(
    blocked: seq<Pos>,
    mines: seq<Pos>,
    startRevealed: seq<Pos>,
    startFlagged: seq<Pos>,
    hintTight: seq<Pos>,
    hintLoose: seq<Pos>,
    hintUnknown: seq<Pos>,
    edgeNormal: seq<EdgeEntry>,
    edgeTight: seq<EdgeEntry>,
    edgeLoose: seq<EdgeEntry>)

  /** Every edge hint of the stage names a direction index the direction table accepts. */
  predicate ValidDirs(st: StageData) {
    DirsInRange(st.edgeNormal) && DirsInRange(st.edgeTight) && DirsInRange(st.edgeLoose)
  }

  /** A mine is placed on p: the stage lists it as a mine and not as blocked. */
  predicate PlacedMine(st: StageData, p: Pos) {
    p in st.mines && p !in st.blocked
  }

  /** The state a cell starts in: blocked wins, then a start flag, then a start reveal of a safe cell. */
  function InitialState(st: StageData, p: Pos): CellState {
    if p in st.blocked then Blocked
    else if p in st.startFlagged then Flagged
    else if p in st.startRevealed && !PlacedMine(st, p) then Revealed
    else Covered
  }

  /** The number format a stage asks for on p; a later list overrides an earlier one. */
  function InitialHint(st: StageData, p: Pos): Option<HintTag> {
    if p in st.hintUnknown then Some(UnknownHint)
    else if p in st.hintLoose then Some(LooseHint)
    else if p in st.hintTight then Some(TightHint)
    else None
  }

  /** The number formats a new board carries: one per playable safe cell the stage tags. */
  function StartHints(st: StageData, cells: set<Pos>): map<Pos, HintTag> {
    map p | p in cells && p !in st.blocked && !PlacedMine(st, p) && InitialHint(st, p).Some? :: InitialHint(st, p).value
  }

  /** The flags a new board locks: start flags that sit on placed mines. */
  function StartLocked(st: StageData, cells: set<Pos>): set<Pos> {
    set p | p in cells && p in st.startFlagged && PlacedMine(st, p)
  }

  /** A number format may only be attached to a playable safe cell. */
  predicate HintTarget(tiles: Tiles, p: Pos) {
    p in tiles && tiles[p].state != Blocked && !tiles[p].isMine
  }

  /** Nothing flood fill can be started from: a missing, blocked, mined or numbered cell. */
  predicate FillStarts(tiles: Tiles, start: Pos) {
    start in tiles && !tiles[start].isMine && tiles[start].state != Blocked && tiles[start].number == 0
  }

  /**
   * What a flood fill from start over t0 achieves: zone is the least set that
   * holds start and every spreading neighbour of its cells, and the cells
   * opened are exactly the covered passable cells next to the zone.
   */
  ghost predicate FloodResult(cells: set<Pos>, t0: Tiles, start: Pos, zone: set<Pos>, chain: seq<Pos>) {
    && ZeroClosed(cells, t0, start, zone)
    && (forall S :: ZeroClosed(cells, t0, start, S) ==> zone <= S)
    && (forall c :: c in chain <==> c in t0 && t0[c].state == Covered && Passable(t0[c]) && Borders(cells, zone, c))
  }

  // ----- the steps that lay out a new board -----

  /** t with every listed cell blocked, all at once. */
  function Blocking(t: Tiles, blocked: seq<Pos>): Tiles {
    map p | p in t :: if p in blocked then t[p].(state := Blocked) else t[p]
  }

  /** t with a mine on every listed cell that is not blocked. */
  function Mining(t: Tiles, mines: seq<Pos>): Tiles {
    map p | p in t :: if p in mines && t[p].state != Blocked then t[p].(isMine := true) else t[p]
  }

  /** t with every listed playable safe cell revealed. */
  function StartRevealing(t: Tiles, cells: seq<Pos>): Tiles {
    map p | p in t :: if p in cells && HintTarget(t, p) then t[p].(state := Revealed) else t[p]
  }

  /** t with every listed cell that is not blocked flagged. */
  function StartFlagging(t: Tiles, cells: seq<Pos>): Tiles {
    map p | p in t :: if p in cells && t[p].state != Blocked then t[p].(state := Flagged) else t[p]
  }

  /** The listed cells whose start flag lands on a mine. */
  function StartLocks(t: Tiles, cells: seq<Pos>): set<Pos> {
    set p | p in t && p in cells && t[p].state != Blocked && t[p].isMine
  }

  /** h with tag attached to every listed playable safe cell. */
  function Hinting(h: map<Pos, HintTag>, t: Tiles, cells: seq<Pos>, tag: HintTag): map<Pos, HintTag> {
    map p | p in h.Keys + (set c | c in cells && HintTarget(t, c)) ::
      if p in cells && HintTarget(t, p) then tag else h[p]
  }

  /** Every cell of the grid as a fresh tile: safe, numbered 0 and covered. */
  function FreshTiles(cells: set<Pos>): Tiles {
    map p | p in cells :: Tile(false, 0, Covered)
  }

  /**
   * Blocking and then mining fresh tiles puts a mine exactly on the listed
   * cells that are not blocked, and leaves every cell not blocked covered.
   */
  lemma PlacedLayout(cells: set<Pos>, st: StageData)
    ensures var t := Mining(Blocking(FreshTiles(cells), st.blocked), st.mines);
      && t.Keys == cells
      && forall p :: p in t ==>
           t[p].isMine == PlacedMine(st, p) && t[p].state == (if p in st.blocked then Blocked else Covered)
  {
  }

  /**
   * Starting reveals and flags change only cover states, and leave each
   * cell in its initial state; the locks are the start flags on mines.
   */
  lemma StartLayout(cells: set<Pos>, st: StageData, numbered: Tiles)
    requires numbered.Keys == cells
    requires forall p :: p in numbered ==>
      numbered[p].isMine == PlacedMine(st, p) && numbered[p].state == (if p in st.blocked then Blocked else Covered)
    ensures var t := StartFlagging(StartRevealing(numbered, st.startRevealed), st.startFlagged);
      && SameLayout(numbered, t)
      && (forall p :: p in t ==> t[p].isMine == PlacedMine(st, p) && t[p].state == InitialState(st, p))
      && StartLocks(StartRevealing(numbered, st.startRevealed), st.startFlagged) == FlaggedMines(t)
      && FlaggedMines(t) == StartLocked(st, cells)
  {
    var r := StartRevealing(numbered, st.startRevealed);
    var t := StartFlagging(r, st.startFlagged);
    assert FlaggedMines(t) == StartLocks(r, st.startFlagged);
    assert FlaggedMines(t) == StartLocked(st, cells);
  }

  /** One more listed cell tags that cell, when it is a playable safe cell. */
  lemma HintingStep(h: map<Pos, HintTag>, t: Tiles, cells: seq<Pos>, i: nat, tag: HintTag)
    requires i < |cells|
    ensures Hinting(h, t, cells[..i + 1], tag) ==
      if HintTarget(t, cells[i]) then Hinting(h, t, cells[..i], tag)[cells[i] := tag] else Hinting(h, t, cells[..i], tag)
  {
    assert forall c :: c in cells[..i + 1] <==> c in cells[..i] || c == cells[i];
  }

  /** The three hint lists, applied in turn, give each playable safe cell its initial format. */
  lemma HintLayout(st: StageData, t: Tiles)
    requires forall p :: p in t ==> t[p].isMine == PlacedMine(st, p) && t[p].state == InitialState(st, p)
    ensures Hinting(Hinting(Hinting(map[], t, st.hintTight, TightHint), t, st.hintLoose, LooseHint), t, st.hintUnknown, UnknownHint)
      == StartHints(st, t.Keys)
  {
  }

  /** Setting p's number to its expected value keeps every other number that was already right. */
  lemma NumberUpdateKeeps(cells: set<Pos>, before: Tiles, p: Pos, number: int, todo: set<Pos>)
    requires p in before && number == ExpectedNumber(cells, before, p)
    requires forall c :: c in before && c !in todo ==> before[c].number == ExpectedNumber(cells, before, c)
    ensures var after := before[p := before[p].(number := number)];
      && Mines(after) == Mines(before)
      && forall c :: c in after && c !in todo - {p} ==> after[c].number == ExpectedNumber(cells, after, c)
  {
    var after := before[p := before[p].(number := number)];
    assert Mines(after) == Mines(before);
    forall c | c in after && c !in todo - {p}
      ensures after[c].number == ExpectedNumber(cells, after, c)
    {
      if c != p {
        assert before[c].number == ExpectedNumber(cells, before, c);
      }
    }
  }

  /**
   * What a left click on a covered safe cell p of t0 leads to: p and the
   * cells in chain open and nothing else changes; chain is empty unless p
   * shows 0, and then it is exactly what the flood fill from p opens.
   */
  ghost predicate RevealedSafely(t0: Tiles, p: Pos, t: Tiles, chain: seq<Pos>, zone: set<Pos>, cells: set<Pos>)
    requires p in t0
  {
    && OnlyOpened(t0, t)
    && p in t && t[p].state == Revealed
    && p !in chain && Distinct(chain)
    && (forall c :: c in t ==> (t[c] != t0[c] <==> c == p || c in chain))
    && (t0[p].number != 0 ==> chain == [])
    && (t0[p].number == 0 ==> FloodResult(cells, t0[p := Opened(t0[p])], p, zone, chain))
  }

  /** Opening the clicked cell and then running the fill from it is a safe reveal. */
  lemma ClickThenFill(cells: set<Pos>, t0: Tiles, p: Pos, t: Tiles, chain: seq<Pos>, zone: set<Pos>)
    requires p in t0 && t0[p].state == Covered && !t0[p].isMine
    requires OnlyOpened(t0[p := Opened(t0[p])], t) && Distinct(chain)
    requires forall c :: c in t ==> (t[c] != t0[p := Opened(t0[p])][c] <==> c in chain)
    requires t0[p].number != 0 ==> chain == []
    requires t0[p].number == 0 ==> FloodResult(cells, t0[p := Opened(t0[p])], p, zone, chain)
    ensures RevealedSafely(t0, p, t, chain, zone, cells)
  {
    var t1 := t0[p := Opened(t0[p])];
    OpenOne(t0, p);
    OnlyOpenedTrans(t0, t1, t);
    assert t[p] == t1[p];
    forall c | c in t ensures t[c] != t0[c] <==> c == p || c in chain {
      if c != p {
        assert t1[c] == t0[c];
      }
    }
  }

  /** A safe reveal keeps the tiles well formed, keeps every count but the revealed one, and adds the opened cells to that. */
  lemma SafeClick(cells: set<Pos>, t0: Tiles, p: Pos, t: Tiles, chain: seq<Pos>, zone: set<Pos>)
    requires WellFormed(cells, t0)
    requires p in t0 && t0[p].state == Covered && !t0[p].isMine
    requires OnlyOpened(t0[p := Opened(t0[p])], t) && Distinct(chain)
    requires forall c :: c in t ==> (t[c] != t0[p := Opened(t0[p])][c] <==> c in chain)
    requires |RevealedSafe(t)| == |RevealedSafe(t0[p := Opened(t0[p])])| + |chain|
    requires t0[p].number != 0 ==> chain == []
    requires t0[p].number == 0 ==> FloodResult(cells, t0[p := Opened(t0[p])], p, zone, chain)
    ensures RevealedSafely(t0, p, t, chain, zone, cells)
    ensures WellFormed(cells, t)
    ensures NonBlocked(t) == NonBlocked(t0) && LiveMines(t) == LiveMines(t0)
    ensures FlaggedCells(t) == FlaggedCells(t0) && FlaggedMines(t) == FlaggedMines(t0)
    ensures |RevealedSafe(t)| == |RevealedSafe(t0)| + 1 + |chain|
  {
    var t1 := t0[p := Opened(t0[p])];
    OpenOne(t0, p);
    ClickThenFill(cells, t0, p, t, chain, zone);
    OnlyOpenedTrans(t0, t1, t);
    OpeningKeepsLayout(cells, t0, t);
    OpeningKeepsCounts(t0, t);
  }

  // ----- bookkeeping of the flood fill -----

  /** What the fill has changed so far: exactly the cells of chain, each opened once from cover. */
  ghost predicate FillTracked(t0: Tiles, tiles: Tiles, chain: seq<Pos>) {
    && OnlyOpened(t0, tiles)
    && Distinct(chain)
    && (forall c :: c in tiles ==> (tiles[c] != t0[c] <==> c in chain))
    && (forall c :: c in chain ==> c in t0 && t0[c].state == Covered && Passable(t0[c]))
  }

  /** Every cell of done has had its passable neighbours opened and its spreading neighbours queued. */
  ghost predicate Explored(t0: Tiles, tiles: Tiles, seen: set<Pos>, done: set<Pos>)
    requires tiles.Keys == t0.Keys
  {
    forall z, n :: z in done && Adjacent(z, n) && n in t0 ==> Visited(t0, tiles, seen, n)
  }

  /** n, once passable, is open, and once spreading, is queued. */
  ghost predicate Visited(t0: Tiles, tiles: Tiles, seen: set<Pos>, n: Pos)
    requires tiles.Keys == t0.Keys
  {
    n in t0 ==> (Passable(t0[n]) ==> tiles[n].state == Revealed) && (Spreads(t0[n]) ==> n in seen)
  }

  /** Every opened cell was opened from a neighbour in zone. */
  ghost predicate Witnessed(chain: seq<Pos>, via: map<Pos, Pos>, zone: set<Pos>) {
    forall c :: c in chain ==> c in via && via[c] in zone && Adjacent(via[c], c)
  }

  /** A tile the fill has met is its starting tile, or that tile opened. */
  lemma TrackedTile(t0: Tiles, tiles: Tiles, chain: seq<Pos>, nb: Pos)
    requires tiles.Keys == t0.Keys && FillTracked(t0, tiles, chain) && nb in tiles
    ensures Passable(tiles[nb]) <==> Passable(t0[nb])
    ensures Spreads(tiles[nb]) <==> Spreads(t0[nb])
    ensures tiles[nb].number == t0[nb].number
    ensures tiles[nb].state != Revealed ==> tiles[nb] == t0[nb] && nb !in chain
  {
  }

  /** Opening a covered safe cell the fill has not opened extends the chain by it. */
  lemma OpenTracked(t0: Tiles, tiles: Tiles, chain: seq<Pos>, nb: Pos)
    requires tiles.Keys == t0.Keys && FillTracked(t0, tiles, chain)
    requires nb in tiles && tiles[nb].state == Covered && Passable(tiles[nb])
    ensures FillTracked(t0, tiles[nb := Opened(tiles[nb])], chain + [nb])
    ensures |RevealedSafe(tiles[nb := Opened(tiles[nb])])| == |RevealedSafe(tiles)| + 1
    ensures nb !in chain
  {
    var t1 := tiles[nb := Opened(tiles[nb])];
    OpenOne(tiles, nb);
    OnlyOpenedTrans(t0, tiles, t1);
    forall c | c in t1 ensures t1[c] != t0[c] <==> c in chain + [nb] {
      if c != nb { assert t1[c] == tiles[c]; }
    }
  }

  lemma WitnessedAdd(chain: seq<Pos>, via: map<Pos, Pos>, zone: set<Pos>, nb: Pos, cur: Pos)
    requires Witnessed(chain, via, zone) && nb !in chain && cur in zone && Adjacent(cur, nb)
    ensures Witnessed(chain + [nb], via[nb := cur], zone)
  {
    forall c | c in chain + [nb] ensures c in via[nb := cur] && via[nb := cur][c] in zone && Adjacent(via[nb := cur][c], c) {
      if c != nb { assert c in chain; }
    }
  }

  /** Opening more cells and queueing more keeps visited cells visited, and visits the cell just handled. */
  lemma StillVisited(t0: Tiles, tiles1: Tiles, tiles2: Tiles, seen1: set<Pos>, seen2: set<Pos>, ns: seq<Pos>, i: nat)
    requires tiles1.Keys == t0.Keys && tiles2.Keys == t0.Keys && seen1 <= seen2 && i < |ns|
    requires forall c :: c in tiles1 && tiles1[c].state == Revealed ==> tiles2[c].state == Revealed
    requires forall j :: 0 <= j < i ==> Visited(t0, tiles1, seen1, ns[j])
    requires Visited(t0, tiles2, seen2, ns[i])
    ensures forall j :: 0 <= j < i + 1 ==> Visited(t0, tiles2, seen2, ns[j])
  {
  }

  /** Once every neighbour of cur has been visited, cur counts as explored. */
  lemma ExploredAdd(cells: set<Pos>, t0: Tiles, tiles: Tiles, seen: set<Pos>, done: set<Pos>, cur: Pos, ns: seq<Pos>)
    requires tiles.Keys == t0.Keys == cells
    requires Explored(t0, tiles, seen, done)
    requires ns == Neighbors(cells, cur)
    requires forall j :: 0 <= j < |ns| ==> Visited(t0, tiles, seen, ns[j])
    ensures Explored(t0, tiles, seen, done + {cur})
  {
    forall z, n | z in done + {cur} && Adjacent(z, n) && n in t0 ensures Visited(t0, tiles, seen, n) {
      if z == cur {
        assert n in ns;
        var j :| 0 <= j < |ns| && ns[j] == n;
      }
    }
  }

  /** The fill opens neighbour nb when it is passable and not yet open. */
  predicate FillOpens(tiles: Tiles, nb: Pos) {
    nb in tiles && Passable(tiles[nb]) && tiles[nb].state != Revealed
  }

  /** The fill queues neighbour nb when it spreads and has not been queued before. */
  predicate FillQueues(tiles: Tiles, seen: set<Pos>, nb: Pos) {
    nb in tiles && Spreads(tiles[nb]) && nb !in seen
  }

  /**
   * Where a round of the fill stands after the first i neighbours ns of cur:
   * the fill bookkeeping holds, and those i neighbours have been visited.
   */
  ghost predicate RoundState(cells: set<Pos>, t0: Tiles, start: Pos, done: set<Pos>, cur: Pos, ns: seq<Pos>, i: nat,
                             seen0: set<Pos>, queue0: seq<Pos>, chain0: seq<Pos>,
                             tiles: Tiles, seen: set<Pos>, queue: seq<Pos>, chain: seq<Pos>, via: map<Pos, Pos>)
  {
    && tiles.Keys == t0.Keys == cells
    && i <= |ns|
    && FillTracked(t0, tiles, chain)
    && |chain0| <= |chain|
    && |RevealedSafe(tiles)| == |RevealedSafe(t0)| + |chain|
    && seen0 <= seen <= cells
    && seen == done + {cur} + Elems(queue)
    && Explored(t0, tiles, seen, done)
    && (forall j :: 0 <= j < i ==> Visited(t0, tiles, seen, ns[j]))
    && (forall S :: ZeroClosed(cells, t0, start, S) ==> seen <= S)
    && Witnessed(chain, via, done + {cur})
    && (seen == seen0 ==> queue == queue0)
  }

  /** Visiting more cells keeps every explored cell explored. */
  lemma ExploredGrows(t0: Tiles, tiles1: Tiles, tiles2: Tiles, seen1: set<Pos>, seen2: set<Pos>, done: set<Pos>)
    requires tiles1.Keys == t0.Keys && tiles2.Keys == t0.Keys && seen1 <= seen2
    requires forall c :: c in tiles1 && tiles1[c].state == Revealed ==> tiles2[c].state == Revealed
    requires Explored(t0, tiles1, seen1, done)
    ensures Explored(t0, tiles2, seen2, done)
  {
    forall z, n | z in done && Adjacent(z, n) && n in t0 ensures Visited(t0, tiles2, seen2, n) {
      assert Visited(t0, tiles1, seen1, n);
    }
  }

  /** Handling neighbour ns[i]: open it if the fill opens it, queue it if the fill queues it. */
  lemma VisitStep(cells: set<Pos>, t0: Tiles, start: Pos, done: set<Pos>, cur: Pos, ns: seq<Pos>, i: nat,
                  seen0: set<Pos>, queue0: seq<Pos>, chain0: seq<Pos>,
                  tiles: Tiles, seen: set<Pos>, queue: seq<Pos>, chain: seq<Pos>, via: map<Pos, Pos>,
                  tiles2: Tiles, seen2: set<Pos>, queue2: seq<Pos>, chain2: seq<Pos>, via2: map<Pos, Pos>)
    requires RoundState(cells, t0, start, done, cur, ns, i, seen0, queue0, chain0, tiles, seen, queue, chain, via)
    requires i < |ns| && Adjacent(cur, ns[i])
    requires tiles2 == if FillOpens(tiles, ns[i]) then tiles[ns[i] := Opened(tiles[ns[i]])] else tiles
    requires chain2 == if FillOpens(tiles, ns[i]) then chain + [ns[i]] else chain
    requires via2 == if FillOpens(tiles, ns[i]) then via[ns[i] := cur] else via
    requires seen2 == if FillQueues(tiles, seen, ns[i]) then seen + {ns[i]} else seen
    requires queue2 == if FillQueues(tiles, seen, ns[i]) then queue + [ns[i]] else queue
    ensures RoundState(cells, t0, start, done, cur, ns, i + 1, seen0, queue0, chain0, tiles2, seen2, queue2, chain2, via2)
  {
    var nb := ns[i];
    var opens := FillOpens(tiles, nb);
    var queues := FillQueues(tiles, seen, nb);
    if nb in tiles {
      TrackedTile(t0, tiles, chain, nb);
    }
    if opens {
      OpenTracked(t0, tiles, chain, nb);
      WitnessedAdd(chain, via, done + {cur}, nb, cur);
    }
    if queues {
      forall S | ZeroClosed(cells, t0, start, S) ensures nb in S {
        assert cur in S;
      }
      ElemsAppend(queue, nb);
    }
    assert Visited(t0, tiles2, seen2, nb);
    StillVisited(t0, tiles, tiles2, seen, seen2, ns, i);
    ExploredGrows(t0, tiles, tiles2, seen, seen2, done);
  }

  /** When the queue runs dry, seen is the zone and the chain is what borders it. */
  lemma FillComplete(cells: set<Pos>, t0: Tiles, start: Pos, tiles: Tiles, chain: seq<Pos>, seen: set<Pos>, via: map<Pos, Pos>)
    requires tiles.Keys == t0.Keys == cells
    requires FillTracked(t0, tiles, chain)
    requires start in seen
    requires Explored(t0, tiles, seen, seen)
    requires forall S :: ZeroClosed(cells, t0, start, S) ==> seen <= S
    requires Witnessed(chain, via, seen)
    ensures FloodResult(cells, t0, start, seen, chain)
  {
    forall c | c in chain ensures Borders(cells, seen, c) {
      assert via[c] in seen && Adjacent(via[c], c);
    }
    forall c | c in t0 && t0[c].state == Covered && Passable(t0[c]) && Borders(cells, seen, c) ensures c in chain {
      var z :| z in seen && Adjacent(z, c);
      assert Visited(t0, tiles, seen, c);
    }
  }

  class Board {
    const grid: HexGrid
    const stage: StageData
    var tiles: Tiles
    var isGameOver: bool
    var isWin: bool
    var mistakes: nat
    var lockedFlags: set<Pos>
    var numberHint: map<Pos, HintTag>
    var edgeHints: seq<EdgeHint>
    var totalCells: nat
    var totalMines: nat
    var flagCount: nat
    var revealedCount: nat
    var minesLeft: nat
    var lastFloodOpen: seq<Pos>

    /** The counters agree with the tiles. */
    ghost predicate CountersAgree()
      reads this`tiles, this`totalCells, this`totalMines, this`flagCount, this`revealedCount, this`minesLeft
    {
      && totalCells == |NonBlocked(tiles)|
      && totalMines == |LiveMines(tiles)|
      && flagCount == |FlaggedCells(tiles)|
      && revealedCount == |RevealedSafe(tiles)|
      && minesLeft == Max(0, totalMines - flagCount)
    }

    /**
     * The board invariant: the tiles cover the grid with correct numbers and
     * no open mine, the locked flags are exactly the flagged mines, the
     * counters are up to date, and the game is over, and won, exactly when
     * the puzzle is solved.
     */
    ghost predicate Valid()
      reads this`tiles, this`lockedFlags, this`isGameOver, this`isWin
      reads this`totalCells, this`totalMines, this`flagCount, this`revealedCount, this`minesLeft
    {
      && WellFormed(grid.cells, tiles)
      && lockedFlags == FlaggedMines(tiles)
      && CountersAgree()
      && isWin == isGameOver
      && (isGameOver <==> Solved(tiles))
    }

    // ----- construction -----

    constructor (grid: HexGrid, st: StageData)
      requires ValidDirs(st)
      ensures this.grid == grid && stage == st
      ensures Valid()
      ensures tiles.Keys == grid.cells
      ensures forall p :: p in tiles ==> tiles[p].isMine == PlacedMine(st, p) && tiles[p].state == InitialState(st, p)
      ensures lockedFlags == StartLocked(st, grid.cells)
      ensures numberHint == StartHints(st, grid.cells)
      ensures edgeHints == HintsFor(tiles, st.edgeNormal, Normal) + HintsFor(tiles, st.edgeTight, Tight) + HintsFor(tiles, st.edgeLoose, Loose)
      ensures mistakes == 0 && lastFloodOpen == []
    {
      this.grid := grid;
      stage := st;
      tiles := map[];
      isGameOver := false;
      isWin := false;
      mistakes := 0;
      lockedFlags := {};
      numberHint := map[];
      edgeHints := [];
      totalCells, totalMines, flagCount, revealedCount, minesLeft := 0, 0, 0, 0, 0;
      lastFloodOpen := [];
      new;
      Setup(st);
    }

    /** Builds a new board from the stage, in the order the steps are listed. */
    method Setup(st: StageData)
      requires ValidDirs(st)
      requires !isGameOver && !isWin && mistakes == 0 && lockedFlags == {}
      modifies this`tiles, this`lockedFlags, this`numberHint, this`edgeHints, this`lastFloodOpen
      modifies this`totalCells, this`totalMines, this`flagCount, this`revealedCount, this`minesLeft
      modifies this`isGameOver, this`isWin
      ensures Valid()
      ensures tiles.Keys == grid.cells
      ensures forall p :: p in tiles ==> tiles[p].isMine == PlacedMine(st, p) && tiles[p].state == InitialState(st, p)
      ensures lockedFlags == StartLocked(st, grid.cells)
      ensures numberHint == StartHints(st, grid.cells)
      ensures edgeHints == HintsFor(tiles, st.edgeNormal, Normal) + HintsFor(tiles, st.edgeTight, Tight) + HintsFor(tiles, st.edgeLoose, Loose)
      ensures mistakes == 0 && lastFloodOpen == []
    {
      LayOutTiles(st);
      ApplyNumberHints(st);
      FinishSetup(st);
      lastFloodOpen := [];
    }

    /** The last steps of construction: edge hints, counters and the win state. */
    method FinishSetup(st: StageData)
      requires ValidDirs(st)
      requires WellFormed(grid.cells, tiles) && lockedFlags == FlaggedMines(tiles)
      requires !isGameOver && !isWin
      modifies this`edgeHints, this`totalCells, this`totalMines, this`flagCount, this`revealedCount, this`minesLeft
      modifies this`isGameOver, this`isWin
      ensures Valid()
      ensures edgeHints == HintsFor(tiles, st.edgeNormal, Normal) + HintsFor(tiles, st.edgeTight, Tight) + HintsFor(tiles, st.edgeLoose, Loose)
    {
      BuildEdgeHints(st);
      Settle();
    }

    /** Recounts, then checks for a win: the two steps that close every change to the tiles. */
    method Settle()
      requires WellFormed(grid.cells, tiles) && lockedFlags == FlaggedMines(tiles)
      requires !isGameOver && !isWin
      modifies this`totalCells, this`totalMines, this`flagCount, this`revealedCount, this`minesLeft
      modifies this`isGameOver, this`isWin
      ensures Valid()
    {
      RecomputeCounters();
      CheckWinAndUpdate();
    }

    /**
     * Lays out fresh tiles: blocked cells, then mines on the cells not
     * blocked, then the numbers, then the start reveals and start flags,
     * locking the start flags that sit on mines.
     */
    method LayOutTiles(st: StageData)
      requires lockedFlags == {}
      modifies this`tiles, this`lockedFlags
      ensures WellFormed(grid.cells, tiles)
      ensures forall p :: p in tiles ==> tiles[p].isMine == PlacedMine(st, p) && tiles[p].state == InitialState(st, p)
      ensures lockedFlags == FlaggedMines(tiles)
      ensures lockedFlags == StartLocked(st, grid.cells)
    {
      tiles := FreshTiles(grid.cells);
      PlaceBlocked(st.blocked);
      PlaceMines(st.mines);
      PlacedLayout(grid.cells, st);
      RecomputeNumbers();
      ghost var numbered := tiles;
      ApplyStartRevealed(st.startRevealed);
      ApplyStartFlagged(st.startFlagged);
      StartLayout(grid.cells, st, numbered);
      LayoutKeepsNumbers(grid.cells, numbered, tiles);
    }

    /** Attaches the stage's number formats: tight, then loose, then unknown. */
    method ApplyNumberHints(st: StageData)
      requires forall p :: p in tiles ==> tiles[p].isMine == PlacedMine(st, p) && tiles[p].state == InitialState(st, p)
      modifies this`numberHint
      ensures numberHint == StartHints(st, tiles.Keys)
    {
      numberHint := map[];
      ApplyHints(st.hintTight, TightHint);
      ApplyHints(st.hintLoose, LooseHint);
      ApplyHints(st.hintUnknown, UnknownHint);
      HintLayout(st, tiles);
    }

    /** Marks every listed cell of the grid as blocked; cells outside the grid are ignored. */
    method PlaceBlocked(blocked: seq<Pos>)
      modifies this`tiles
      ensures tiles == Blocking(old(tiles), blocked)
    {
      for i := 0 to |blocked|
        invariant tiles == Blocking(old(tiles), blocked[..i])
      {
        var p := blocked[i];
        assert forall c :: c in blocked[..i + 1] <==> c in blocked[..i] || c == p;
        if p in tiles {
          tiles := tiles[p := tiles[p].(state := Blocked)];
        }
      }
      assert blocked[..|blocked|] == blocked;
    }

    /** Puts a mine on every listed cell of the grid that is not blocked. */
    method PlaceMines(mines: seq<Pos>)
      modifies this`tiles
      ensures tiles == Mining(old(tiles), mines)
    {
      for i := 0 to |mines|
        invariant tiles == Mining(old(tiles), mines[..i])
      {
        var p := mines[i];
        assert forall c :: c in mines[..i + 1] <==> c in mines[..i] || c == p;
        if p in tiles && tiles[p].state != Blocked {
          tiles := tiles[p := tiles[p].(isMine := true)];
        }
      }
      assert mines[..|mines|] == mines;
    }

    /** Opens every listed cell of the grid that is neither blocked nor a mine. */
    method ApplyStartRevealed(cells: seq<Pos>)
      modifies this`tiles
      ensures tiles == StartRevealing(old(tiles), cells)
    {
      for i := 0 to |cells|
        invariant tiles == StartRevealing(old(tiles), cells[..i])
      {
        var p := cells[i];
        assert forall c :: c in cells[..i + 1] <==> c in cells[..i] || c == p;
        if p in tiles {
          var t := tiles[p];
          if t.state != Blocked && !t.isMine {
            tiles := tiles[p := t.(state := Revealed)];
          }
        }
      }
      assert cells[..|cells|] == cells;
    }

    /** Flags every listed cell of the grid that is not blocked, and locks the flags that sit on mines. */
    method ApplyStartFlagged(cells: seq<Pos>)
      modifies this`tiles, this`lockedFlags
      ensures tiles == StartFlagging(old(tiles), cells)
      ensures lockedFlags == old(lockedFlags) + StartLocks(old(tiles), cells)
    {
      for i := 0 to |cells|
        invariant tiles == StartFlagging(old(tiles), cells[..i])
        invariant lockedFlags == old(lockedFlags) + StartLocks(old(tiles), cells[..i])
      {
        var p := cells[i];
        assert forall c :: c in cells[..i + 1] <==> c in cells[..i] || c == p;
        if p in tiles {
          var t := tiles[p];
          if t.state != Blocked {
            tiles := tiles[p := t.(state := Flagged)];
            if t.isMine {
              lockedFlags := lockedFlags + {p};
            }
          }
        }
      }
      assert cells[..|cells|] == cells;
    }

    /** Attaches tag to every listed playable safe cell, overriding an earlier tag. */
    method ApplyHints(cells: seq<Pos>, tag: HintTag)
      modifies this`numberHint
      ensures numberHint == Hinting(old(numberHint), tiles, cells, tag)
    {
      for i := 0 to |cells|
        invariant numberHint == Hinting(old(numberHint), tiles, cells[..i], tag)
      {
        var p := cells[i];
        HintingStep(old(numberHint), tiles, cells, i, tag);
        if p in tiles {
          var t := tiles[p];
          if t.state != Blocked && !t.isMine {
            numberHint := numberHint[p := tag];
          }
        }
      }
      assert cells[..|cells|] == cells;
    }

    // ----- numbers and counters -----

    /** Sets every tile's number: 0 when blocked, -1 on a mine, else its count of mine neighbours. */
    method RecomputeNumbers()
      requires tiles.Keys == grid.cells
      modifies this`tiles
      ensures tiles.Keys == old(tiles).Keys
      ensures forall p :: p in tiles ==> tiles[p].isMine == old(tiles)[p].isMine && tiles[p].state == old(tiles)[p].state
      ensures NumbersAgree(grid.cells, tiles)
    {
      var todo := tiles.Keys;
      while todo != {}
        invariant todo <= tiles.Keys
        invariant tiles.Keys == old(tiles).Keys
        invariant forall p :: p in tiles ==> tiles[p].isMine == old(tiles)[p].isMine && tiles[p].state == old(tiles)[p].state
        invariant forall p :: p in tiles && p !in todo ==> tiles[p].number == ExpectedNumber(grid.cells, tiles, p)
        decreases todo
      {
        var p :| p in todo;
        var number := TileNumber(p);
        ghost var before := tiles;
        tiles := tiles[p := tiles[p].(number := number)];
        NumberUpdateKeeps(grid.cells, before, p, number, todo);
        forall c | c in tiles
          ensures tiles[c].isMine == old(tiles)[c].isMine && tiles[c].state == old(tiles)[c].state
        {
          if c != p { assert tiles[c] == before[c]; }
        }
        todo := todo - {p};
      }
      assert forall p :: p in tiles ==> tiles[p].number == ExpectedNumber(grid.cells, tiles, p);
    }

    /** The number tile p must show, worked out as the recount does it. */
    method TileNumber(p: Pos) returns (number: int)
      requires p in tiles && tiles.Keys == grid.cells
      ensures number == ExpectedNumber(grid.cells, tiles, p)
    {
      var t := tiles[p];
      if t.state == Blocked {
        number := 0;
      } else if t.isMine {
        number := -1;
      } else {
        number := CountMineNeighbors(p);
      }
    }

    /** How many in-grid neighbours of p hold a mine. */
    method CountMineNeighbors(p: Pos) returns (cnt: nat)
      requires tiles.Keys == grid.cells
      ensures cnt == CountIn(Mines(tiles), Neighbors(grid.cells, p))
    {
      var ns := Neighbors(grid.cells, p);
      cnt := 0;
      for i := 0 to |ns|
        invariant cnt == CountIn(Mines(tiles), ns[..i])
      {
        assert ns[..i + 1][..i] == ns[..i];
        assert ns[i] in ns;
        if tiles[ns[i]].isMine {
          cnt := cnt + 1;
        }
      }
      assert ns[..|ns|] == ns;
    }

    /** Recounts the playable cells, live mines, flags and revealed safe cells. */
    method RecomputeCounters()
      modifies this`totalCells, this`totalMines, this`flagCount, this`revealedCount, this`minesLeft
      ensures CountersAgree()
    {
      totalCells := |NonBlocked(tiles)|;
      totalMines := |LiveMines(tiles)|;
      flagCount := |FlaggedCells(tiles)|;
      revealedCount := |RevealedSafe(tiles)|;
      minesLeft := Max(0, totalMines - flagCount);
    }

    // ----- edge hints -----

    /**
     * The cells an edge hint anchored at (q, r) looks along: starting at the
     * anchor, or one step in when the anchor lies outside, up to the first
     * cell off the board.
     */
    method LineCells(q: int, r: int, dirIdx: int) returns (path: seq<Pos>)
      requires -6 <= dirIdx < 6
      ensures path == LineRun(tiles.Keys, (q, r), DirVector(dirIdx))
      ensures Distinct(path) && forall i :: 0 <= i < |path| ==> path[i] in tiles
    {
      var d := DirVector(dirIdx);
      var (dq, dr) := d;
      var cq, cr := q, r;
      if (cq, cr) !in tiles {
        cq, cr := cq + dq, cr + dr;
      }
      ghost var s := (cq, cr);
      assert s == LineStart(tiles.Keys, (q, r), d);
      path := [];
      while (cq, cr) in tiles
        invariant (cq, cr) == Step(s, d, |path|)
        invariant forall j :: 0 <= j < |path| ==> Step(s, d, j) in tiles
        invariant path + RunFrom(tiles.Keys, s, d, |path|) == RunFrom(tiles.Keys, s, d, 0)
        decreases |tiles.Keys| - |path|
      {
        RunStep(tiles.Keys, s, d, |path|);
        path := path + [(cq, cr)];
        cq, cr := cq + dq, cr + dr;
      }
      LineRunMaximal(tiles.Keys, (q, r), d);
      StepsDistinct(s, d, path);
    }

    /** Appends one hint per entry, with style, to the edge hints. */
    method AddEdgeEntries(entries: seq<EdgeEntry>, style: EdgeStyle)
      requires DirsInRange(entries)
      modifies this`edgeHints
      ensures edgeHints == old(edgeHints) + HintsFor(tiles, entries, style)
    {
      for i := 0 to |entries|
        invariant edgeHints == old(edgeHints) + HintsFor(tiles, entries[..i], style)
      {
        var e := entries[i];
        var path := LineCells(e.pos.0, e.pos.1, e.dir);
        var play := Playable(tiles, path);
        var count := CountIn(Mines(tiles), play);
        edgeHints := edgeHints + [EdgeHint(e.pos, e.dir, count, style, e.labelPos, e.labelDir, e.labelDist, e.labelAngle)];
        assert entries[..i + 1][..i] == entries[..i];
      }
      assert entries[..|entries|] == entries;
    }

    /** Rebuilds the edge hints: the normal ones, then the tight ones, then the loose ones. */
    method BuildEdgeHints(st: StageData)
      requires ValidDirs(st)
      modifies this`edgeHints
      ensures edgeHints == HintsFor(tiles, st.edgeNormal, Normal) + HintsFor(tiles, st.edgeTight, Tight) + HintsFor(tiles, st.edgeLoose, Loose)
    {
      edgeHints := [];
      AddEdgeEntries(st.edgeNormal, Normal);
      assert edgeHints == HintsFor(tiles, st.edgeNormal, Normal);
      AddEdgeEntries(st.edgeTight, Tight);
      AddEdgeEntries(st.edgeLoose, Loose);
    }

    // ----- player actions -----

    /**
     * Right click on (q, r).  Nothing happens while the game is over, off the
     * board, on an open or blocked cell, or on a locked flag.  Another flag
     * comes off.  A covered mine gets a flag that is locked at once; a covered
     * safe cell keeps its cover and costs a mistake.
     */
    method ToggleFlag(q: int, r: int)
      requires Valid()
      modifies this`tiles, this`lockedFlags, this`mistakes, this`isGameOver, this`isWin
      modifies this`totalCells, this`totalMines, this`flagCount, this`revealedCount, this`minesLeft
      ensures Valid()
      ensures old(lockedFlags) <= lockedFlags
      ensures old(isGameOver) || (q, r) !in old(tiles) || old(tiles)[(q, r)].state in {Revealed, Blocked} || (q, r) in old(lockedFlags)
        ==> tiles == old(tiles) && mistakes == old(mistakes)
      ensures !old(isGameOver) && (q, r) in old(tiles) && old(tiles)[(q, r)].state == Flagged && (q, r) !in old(lockedFlags)
        ==> tiles == old(tiles)[(q, r) := old(tiles)[(q, r)].(state := Covered)] && mistakes == old(mistakes)
      ensures !old(isGameOver) && (q, r) in old(tiles) && old(tiles)[(q, r)].state == Covered && old(tiles)[(q, r)].isMine
        ==> tiles == old(tiles)[(q, r) := old(tiles)[(q, r)].(state := Flagged)] && mistakes == old(mistakes)
      ensures !old(isGameOver) && (q, r) in old(tiles) && old(tiles)[(q, r)].state == Covered && !old(tiles)[(q, r)].isMine
        ==> tiles == old(tiles) && mistakes == old(mistakes) + 1
    {
      if isGameOver {
        return;
      }
      var pos := (q, r);
      if pos !in tiles {
        return;
      }
      var t := tiles[pos];
      if t.state == Revealed || t.state == Blocked {
        return;
      }
      if t.state == Flagged {
        if pos in lockedFlags {
          return;
        }
        RestateKeepsLayout(grid.cells, tiles, pos, Covered);
        tiles := tiles[pos := t.(state := Covered)];
        assert FlaggedMines(tiles) == lockedFlags;
        Settle();
        return;
      }
      if t.isMine {
        RestateKeepsLayout(grid.cells, tiles, pos, Flagged);
        tiles := tiles[pos := t.(state := Flagged)];
        lockedFlags := lockedFlags + {pos};
        assert FlaggedMines(tiles) == lockedFlags;
      } else {
        mistakes := mistakes + 1;
      }
      Settle();
    }

    /**
     * Left click on (q, r).  Nothing happens while the game is over.  Off the
     * board and on a cell that is not covered only the flood log is cleared.
     * A covered mine stays covered and costs a mistake.  A covered safe cell
     * opens, and when its number is 0 the flood fill opens the covered
     * passable cells around the zero zone it lies in; the log records them.
     */
    method Reveal(q: int, r: int) returns (ghost zone: set<Pos>)
      requires Valid()
      modifies this`tiles, this`revealedCount, this`mistakes, this`lastFloodOpen, this`isGameOver, this`isWin
      ensures Valid()
      ensures old(isGameOver) ==> tiles == old(tiles) && mistakes == old(mistakes) && lastFloodOpen == old(lastFloodOpen)
      ensures !old(isGameOver) && !((q, r) in old(tiles) && old(tiles)[(q, r)].state == Covered)
        ==> tiles == old(tiles) && mistakes == old(mistakes) && lastFloodOpen == []
      ensures !old(isGameOver) && (q, r) in old(tiles) && old(tiles)[(q, r)].state == Covered && old(tiles)[(q, r)].isMine
        ==> tiles == old(tiles) && mistakes == old(mistakes) + 1 && lastFloodOpen == [] && !isGameOver
      ensures !old(isGameOver) && (q, r) in old(tiles) && old(tiles)[(q, r)].state == Covered && !old(tiles)[(q, r)].isMine
        ==> RevealedSafely(old(tiles), (q, r), tiles, lastFloodOpen, zone, grid.cells) && mistakes == old(mistakes)
    {
      zone := {};
      if isGameOver {
        return;
      }
      lastFloodOpen := [];
      var pos := (q, r);
      if pos !in tiles {
        return;
      }
      var t := tiles[pos];
      if t.state == Blocked || t.state == Revealed || t.state == Flagged {
        return;
      }
      if t.isMine {
        mistakes := mistakes + 1;
        CheckWinAndUpdate();
        return;
      }
      zone := OpenClicked(pos);
    }

    /** The safe-cell part of a click: open it, fill on from it, record the chain, settle the win. */
    method OpenClicked(pos: Pos) returns (ghost zone: set<Pos>)
      requires Valid() && !isGameOver
      requires pos in tiles && tiles[pos].state == Covered && !tiles[pos].isMine
      modifies this`tiles, this`revealedCount, this`lastFloodOpen, this`isGameOver, this`isWin
      ensures Valid()
      ensures RevealedSafely(old(tiles), pos, tiles, lastFloodOpen, zone, grid.cells)
    {
      var chain;
      chain, zone := OpenAndFill(pos);
      lastFloodOpen := chain;
      CheckWinAndUpdate();
    }

    /** Opens the clicked safe cell and, when it shows 0, runs the flood fill from it. */
    method OpenAndFill(pos: Pos) returns (chain: seq<Pos>, ghost zone: set<Pos>)
      requires WellFormed(grid.cells, tiles)
      requires pos in tiles && tiles[pos].state == Covered && !tiles[pos].isMine
      modifies this`tiles, this`revealedCount
      ensures RevealedSafely(old(tiles), pos, tiles, chain, zone, grid.cells)
      ensures WellFormed(grid.cells, tiles)
      ensures NonBlocked(tiles) == NonBlocked(old(tiles)) && LiveMines(tiles) == LiveMines(old(tiles))
      ensures FlaggedCells(tiles) == FlaggedCells(old(tiles)) && FlaggedMines(tiles) == FlaggedMines(old(tiles))
      ensures |RevealedSafe(tiles)| == |RevealedSafe(old(tiles))| + 1 + |chain|
      ensures revealedCount == old(revealedCount) + 1 + |chain|
    {
      zone := {};
      var t := tiles[pos];
      ghost var t0 := tiles;
      tiles := tiles[pos := Opened(t)];
      revealedCount := revealedCount + 1;
      chain := [];
      if t.number == 0 {
        chain, zone := FloodFillOpen(pos);
      }
      SafeClick(grid.cells, t0, pos, tiles, chain, zone);
    }

    /**
     * Opens, from start, every covered passable cell next to the zero zone
     * around start, and returns them in the order they were opened.  A start
     * off the board, on a mine, blocked or with a nonzero number opens nothing.
     */
    method FloodFillOpen(start: Pos) returns (chain: seq<Pos>, ghost zone: set<Pos>)
      requires tiles.Keys == grid.cells
      modifies this`tiles, this`revealedCount
      ensures OnlyOpened(old(tiles), tiles)
      ensures Distinct(chain)
      ensures forall c :: c in tiles ==> (tiles[c] != old(tiles)[c] <==> c in chain)
      ensures revealedCount == old(revealedCount) + |chain|
      ensures |RevealedSafe(tiles)| == |RevealedSafe(old(tiles))| + |chain|
      ensures !FillStarts(old(tiles), start) ==> chain == []
      ensures FillStarts(old(tiles), start) ==> FloodResult(grid.cells, old(tiles), start, zone, chain)
    {
      zone := {};
      if start !in tiles {
        return [], zone;
      }
      var st := tiles[start];
      if st.isMine || st.state == Blocked {
        return [], zone;
      }
      if st.number != 0 {
        return [], zone;
      }
      ghost var t0 := tiles;
      var queue := [start];
      var seen := {start};
      chain := [];
      ghost var done: set<Pos> := {};
      ghost var via: map<Pos, Pos> := map[];
      while queue != []
        invariant tiles.Keys == t0.Keys == grid.cells
        invariant FillTracked(t0, tiles, chain)
        invariant revealedCount == old(revealedCount) + |chain|
        invariant |RevealedSafe(tiles)| == |RevealedSafe(t0)| + |chain|
        invariant seen <= grid.cells && start in seen
        invariant seen == done + Elems(queue)
        invariant Explored(t0, tiles, seen, done)
        invariant forall S :: ZeroClosed(grid.cells, t0, start, S) ==> seen <= S
        invariant Witnessed(chain, via, done)
        decreases grid.cells - seen, |queue|
      {
        ghost var queueIn := queue;
        var cur := queue[0];
        queue := queue[1..];
        assert queueIn == [cur] + queue;
        assert Elems(queueIn) == {cur} + Elems(queue) by {
          assert forall c :: c in [cur] + queue <==> c == cur || c in queue;
        }
        seen, queue, chain, via := VisitNeighbors(t0, start, done, cur, seen, queue, chain, via);
        done := done + {cur};
      }
      zone := seen;
      FillComplete(grid.cells, t0, start, tiles, chain, seen, via);
    }

    /**
     * One round of the flood fill: looks at each in-grid neighbour of cur,
     * opens it when it is covered and passable, and queues it when it also
     * shows 0 and has not been queued before.
     */
    method VisitNeighbors(ghost t0: Tiles, ghost start: Pos, ghost done: set<Pos>, cur: Pos,
                          seen0: set<Pos>, queue0: seq<Pos>, chain0: seq<Pos>, ghost via0: map<Pos, Pos>)
      returns (seen: set<Pos>, queue: seq<Pos>, chain: seq<Pos>, ghost via: map<Pos, Pos>)
      requires RoundState(grid.cells, t0, start, done, cur, [], 0, seen0, queue0, chain0, tiles, seen0, queue0, chain0, via0)
      modifies this`tiles, this`revealedCount
      ensures tiles.Keys == t0.Keys
      ensures FillTracked(t0, tiles, chain)
      ensures |chain0| <= |chain| && revealedCount == old(revealedCount) + (|chain| - |chain0|)
      ensures |RevealedSafe(tiles)| == |RevealedSafe(t0)| + |chain|
      ensures seen0 <= seen <= grid.cells && seen == done + {cur} + Elems(queue)
      ensures Explored(t0, tiles, seen, done + {cur})
      ensures forall S :: ZeroClosed(grid.cells, t0, start, S) ==> seen <= S
      ensures Witnessed(chain, via, done + {cur})
      ensures seen == seen0 ==> queue == queue0
    {
      seen, queue, chain, via := seen0, queue0, chain0, via0;
      var ns := Neighbors(grid.cells, cur);
      for i := 0 to |ns|
        invariant RoundState(grid.cells, t0, start, done, cur, ns, i, seen0, queue0, chain0, tiles, seen, queue, chain, via)
        invariant revealedCount == old(revealedCount) + (|chain| - |chain0|)
      {
        var nb := ns[i];
        ghost var tiles1, seen1, queue1, chain1, via1 := tiles, seen, queue, chain, via;
        if nb in tiles {
          var t := tiles[nb];
          if t.state != Blocked && t.state != Flagged && !t.isMine {
            if t.state != Revealed {
              tiles := tiles[nb := Opened(t)];
              revealedCount := revealedCount + 1;
              chain := chain + [nb];
              via := via[nb := cur];
            }
            if t.number == 0 && nb !in seen {
              seen := seen + {nb};
              queue := queue + [nb];
            }
          }
        }
        assert nb in ns;
        VisitStep(grid.cells, t0, start, done, cur, ns, i, seen0, queue0, chain0, tiles1, seen1, queue1, chain1, via1,
                  tiles, seen, queue, chain, via);
      }
      ExploredAdd(grid.cells, t0, tiles, seen, done, cur, ns);
    }

    // ----- winning -----

    /** Whether every playable safe cell is revealed. */
    method AllSafeRevealed() returns (ok: bool)
      ensures ok <==> SafeCellsRevealed(tiles)
    {
      var todo := tiles.Keys;
      while todo != {}
        invariant todo <= tiles.Keys
        invariant forall p :: p in tiles && p !in todo && tiles[p].state != Blocked && !tiles[p].isMine ==> tiles[p].state == Revealed
        decreases todo
      {
        var p :| p in todo;
        var t := tiles[p];
        if t.state != Blocked && !t.isMine && t.state != Revealed {
          return false;
        }
        todo := todo - {p};
      }
      return true;
    }

    /** Whether every playable mine is flagged. */
    method AllMinesFlagged() returns (ok: bool)
      ensures ok <==> MinesFlagged(tiles)
    {
      var todo := tiles.Keys;
      while todo != {}
        invariant todo <= tiles.Keys
        invariant forall p :: p in tiles && p !in todo && tiles[p].state != Blocked && tiles[p].isMine ==> tiles[p].state == Flagged
        decreases todo
      {
        var p :| p in todo;
        var t := tiles[p];
        if t.state != Blocked && t.isMine && t.state != Flagged {
          return false;
        }
        todo := todo - {p};
      }
      return true;
    }

    /** Ends the game as won once the puzzle is solved; otherwise leaves the game state alone. */
    method CheckWinAndUpdate()
      modifies this`isGameOver, this`isWin
      ensures Solved(tiles) ==> isGameOver && isWin
      ensures !Solved(tiles) ==> isGameOver == old(isGameOver) && isWin == old(isWin)
    {
      var safe := AllSafeRevealed();
      if safe {
        var flagged := AllMinesFlagged();
        if flagged {
          isGameOver := true;
          isWin := true;
        }
      }
    }
  }
}

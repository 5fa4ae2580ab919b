/**
 * The rules of the board that do not depend on a particular Board object:
 * tiles and their states, mine counting, the rays behind edge hints, the
 * counters, the win condition and the zone a flood fill spreads over.
 */
module BoardRules {
  import opened Common
  import opened Grid

  datatype CellState = Covered | Revealed | Flagged | Blocked

  /** One cell of the board; number is -1 on a mine, else its count of mine neighbours. */
  datatype Tile = Tile(isMine: bool, number: int, state: CellState)

  type Tiles = map<Pos, Tile>

  /** Display format an author may attach to a cell's number; it never changes the number. */
  datatype HintTag = TightHint | LooseHint | UnknownHint

  /** Display style of an edge hint; it never changes the count. */
  datatype EdgeStyle = Normal | Tight | Loose

  /** An edge hint as a stage declares it: an anchor, a direction index and label overrides. */
  datatype EdgeEntry = EdgeEntry(
    pos: Pos,
    dir: int,
    labelPos: Option<Pos>,
    labelDir: Option<int>,
    labelDist: Option<real>,
    labelAngle: Option<real>)

  /** An edge hint as the board keeps it: the entry plus its mine count and style. */
  datatype EdgeHint = EdgeHint(
    pos: Pos,
    dir: int,
    count: nat,
    style: EdgeStyle,
    labelPos: Option<Pos>,
    labelDir: Option<int>,
    labelDist: Option<real>,
    labelAngle: Option<real>)

  // ----- mine counting -----

  function Mines(tiles: Tiles): set<Pos> {
    set p | p in tiles && tiles[p].isMine
  }

  /** How many entries of cells are mines (an entry listed twice counts twice). */
  function CountIn(mines: set<Pos>, cells: seq<Pos>): (n: nat)
    ensures n <= |cells|
  {
    if cells == [] then 0
    else
      var k := |cells| - 1;
      CountIn(mines, cells[..k]) + (if cells[k] in mines then 1 else 0)
  }

  /** The count is 0 exactly when no entry is a mine, and the full length exactly when every entry is. */
  lemma {:induction false} CountInExtremes(mines: set<Pos>, cells: seq<Pos>)
    ensures CountIn(mines, cells) == 0 <==> forall i :: 0 <= i < |cells| ==> cells[i] !in mines
    ensures CountIn(mines, cells) == |cells| <==> forall i :: 0 <= i < |cells| ==> cells[i] in mines
  {
    if cells != [] {
      var k := |cells| - 1;
      CountInExtremes(mines, cells[..k]);
      assert forall i :: 0 <= i < k ==> cells[..k][i] == cells[i];
    }
  }

  /** No entry of s is repeated. */
  predicate Distinct(s: seq<Pos>) {
    forall a, b :: 0 <= a < b < |s| ==> s[a] != s[b]
  }

  /** On a list without repeats, CountIn is the number of distinct listed mines. */
  lemma {:induction false} CountInDistinct(mines: set<Pos>, cells: seq<Pos>)
    requires Distinct(cells)
    ensures CountIn(mines, cells) == |Elems(cells) * mines|
  {
    if cells != [] {
      var k := |cells| - 1;
      var init, x := cells[..k], cells[k];
      DistinctSnoc(cells);
      CountInDistinct(mines, init);
      assert cells == init + [x];
      ElemsAppend(init, x);
      CardAddOne(Elems(init), mines, x);
    }
  }

  /** Adding a new cell to a set adds one to its mines exactly when that cell is a mine. */
  lemma CardAddOne(a: set<Pos>, mines: set<Pos>, x: Pos)
    requires x !in a
    ensures |(a + {x}) * mines| == |a * mines| + (if x in mines then 1 else 0)
  {
    if x in mines {
      assert (a + {x}) * mines == a * mines + {x};
    } else {
      assert (a + {x}) * mines == a * mines;
    }
  }

  /** Dropping the last entry of a list without repeats leaves one without repeats that lacks that entry. */
  lemma DistinctSnoc(s: seq<Pos>)
    requires Distinct(s) && s != []
    ensures Distinct(s[..|s| - 1]) && s[|s| - 1] !in s[..|s| - 1]
  {
    var k := |s| - 1;
    forall a, b | 0 <= a < b < k ensures s[..k][a] != s[..k][b] {
      assert s[..k][a] == s[a] && s[..k][b] == s[b];
    }
    forall i | 0 <= i < k ensures s[..k][i] != s[k] {
      assert s[..k][i] == s[i];
    }
  }

  /** The cells listed in s. */
  function Elems(s: seq<Pos>): set<Pos> {
    set c | c in s
  }

  lemma ElemsAppend(s: seq<Pos>, x: Pos)
    ensures Elems(s + [x]) == Elems(s) + {x}
  {
    assert forall c :: c in s + [x] <==> c in s || c == x;
  }

  /** The path cells an edge hint looks at: those of the path that are not blocked, in order. */
  function Playable(tiles: Tiles, path: seq<Pos>): (play: seq<Pos>)
    requires forall i :: 0 <= i < |path| ==> path[i] in tiles
    ensures |play| <= |path|
  {
    if path == [] then []
    else
      var k := |path| - 1;
      var init := Playable(tiles, path[..k]);
      if tiles[path[k]].state != Blocked then init + [path[k]] else init
  }

  /** The playable cells of a path are exactly its cells that are not blocked. */
  lemma {:induction false} PlayableMembers(tiles: Tiles, path: seq<Pos>)
    requires forall i :: 0 <= i < |path| ==> path[i] in tiles
    ensures forall p :: p in Playable(tiles, path) <==> p in path && tiles[p].state != Blocked
  {
    if path != [] {
      var k := |path| - 1;
      PlayableMembers(tiles, path[..k]);
      assert forall p :: p in path <==> p in path[..k] || p == path[k];
    }
  }


  /** Blocked cells hold no mine, so leaving them out of a path does not change its mine count. */
  lemma {:induction false} BlockedNeverCounted(tiles: Tiles, path: seq<Pos>)
    requires forall i :: 0 <= i < |path| ==> path[i] in tiles
    requires forall p :: p in tiles && tiles[p].state == Blocked ==> !tiles[p].isMine
    ensures CountIn(Mines(tiles), Playable(tiles, path)) == CountIn(Mines(tiles), path)
  {
    if path != [] {
      var k := |path| - 1;
      var init, x := path[..k], path[k];
      var mines := Mines(tiles);
      assert forall i :: 0 <= i < |init| ==> init[i] in tiles by {
        forall i | 0 <= i < |init| ensures init[i] in tiles {
          assert init[i] == path[i];
        }
      }
      BlockedNeverCounted(tiles, init);
      var play := Playable(tiles, init);
      assert CountIn(mines, path) == CountIn(mines, init) + (if x in mines then 1 else 0);
      if tiles[x].state != Blocked {
        assert Playable(tiles, path) == play + [x];
        assert (play + [x])[..|play|] == play;
        assert CountIn(mines, play + [x]) == CountIn(mines, play) + (if x in mines then 1 else 0);
      } else {
        assert Playable(tiles, path) == play;
        assert x !in mines;
      }
    }
  }

  // ----- tile numbers -----

  /** The number a tile must show: 0 when blocked, -1 on a mine, else its mine neighbours. */
  function ExpectedNumber(cells: set<Pos>, tiles: Tiles, p: Pos): (n: int)
    requires p in tiles
    ensures -1 <= n <= 6
    ensures n == -1 <==> tiles[p].state != Blocked && tiles[p].isMine
    ensures tiles[p].state == Blocked ==> n == 0
  {
    if tiles[p].state == Blocked then 0
    else if tiles[p].isMine then -1
    else CountIn(Mines(tiles), Neighbors(cells, p))
  }

  /** Every tile shows the number it must show. */
  ghost predicate NumbersAgree(cells: set<Pos>, tiles: Tiles) {
    forall p {:trigger ExpectedNumber(cells, tiles, p)} :: p in tiles ==> tiles[p].number == ExpectedNumber(cells, tiles, p)
  }

  /** A safe, open cell's number is the count of its in-grid neighbours that are mines. */
  lemma NumberCountsMineNeighbors(cells: set<Pos>, tiles: Tiles, p: Pos)
    requires NumbersAgree(cells, tiles)
    requires p in tiles && tiles[p].state != Blocked && !tiles[p].isMine
    ensures tiles[p].number == |set n | n in cells && Adjacent(p, n) && n in tiles && tiles[n].isMine|
  {
    var ns := Neighbors(cells, p);
    assert tiles[p].number == ExpectedNumber(cells, tiles, p);
    CountInDistinct(Mines(tiles), ns);
    assert Elems(ns) * Mines(tiles) == set n | n in cells && Adjacent(p, n) && n in tiles && tiles[n].isMine;
  }

  // ----- well-formed tile maps -----

  /** The layout invariant of a board's tiles over the grid cells. */
  ghost predicate WellFormed(cells: set<Pos>, tiles: Tiles) {
    && tiles.Keys == cells
    && (forall p :: p in tiles && tiles[p].state == Blocked ==> !tiles[p].isMine)
    && (forall p :: p in tiles && tiles[p].state == Revealed ==> !tiles[p].isMine)
    && NumbersAgree(cells, tiles)
  }

  /** t1 has the same cells, mines, numbers and blocked cells as t0; only cover states may differ. */
  ghost predicate SameLayout(t0: Tiles, t1: Tiles) {
    && t1.Keys == t0.Keys
    && forall p :: p in t1 ==>
         && t1[p].isMine == t0[p].isMine
         && t1[p].number == t0[p].number
         && (t1[p].state == Blocked <==> t0[p].state == Blocked)
  }

  /** Changing only cover states keeps the mines, the playable cells and every number correct. */
  lemma LayoutKeepsNumbers(cells: set<Pos>, t0: Tiles, t1: Tiles)
    requires SameLayout(t0, t1)
    ensures Mines(t1) == Mines(t0)
    ensures NonBlocked(t1) == NonBlocked(t0)
    ensures LiveMines(t1) == LiveMines(t0)
    ensures NumbersAgree(cells, t0) ==> NumbersAgree(cells, t1)
  {
    assert Mines(t1) == Mines(t0);
    assert NonBlocked(t1) == NonBlocked(t0);
    assert LiveMines(t1) == LiveMines(t0);
    if NumbersAgree(cells, t0) {
      forall p | p in t1 ensures t1[p].number == ExpectedNumber(cells, t1, p) {
        assert t0[p].number == ExpectedNumber(cells, t0, p);
      }
    }
  }

  /** Setting one playable cell to another playable cover state keeps the layout invariant. */
  lemma RestateKeepsLayout(cells: set<Pos>, t: Tiles, p: Pos, s: CellState)
    requires WellFormed(cells, t)
    requires p in t && t[p].state != Blocked && s != Blocked
    requires s == Revealed ==> !t[p].isMine
    ensures SameLayout(t, t[p := t[p].(state := s)])
    ensures WellFormed(cells, t[p := t[p].(state := s)])
  {
    var t1 := t[p := t[p].(state := s)];
    assert SameLayout(t, t1) by {
      forall c | c in t1
        ensures t1[c].isMine == t[c].isMine && t1[c].number == t[c].number
        ensures t1[c].state == Blocked <==> t[c].state == Blocked
      {
        if c == p { assert t1[c] == t[p].(state := s); } else { assert t1[c] == t[c]; }
      }
    }
    LayoutKeepsNumbers(cells, t, t1);
    forall c | c in t1 && t1[c].state == Revealed ensures !t1[c].isMine {
      if c != p { assert t1[c] == t[c]; }
    }
  }

  /** The cell has been opened: its state went from Covered to Revealed and nothing else changed. */
  function Opened(t: Tile): Tile { t.(state := Revealed) }

  /** t1 differs from t0 only in covered safe cells that have been opened. */
  ghost predicate OnlyOpened(t0: Tiles, t1: Tiles) {
    && t1.Keys == t0.Keys
    && forall p :: p in t1 ==>
         t1[p] == t0[p] || (t0[p].state == Covered && !t0[p].isMine && t1[p] == Opened(t0[p]))
  }

  // ----- counters -----

  function NonBlocked(tiles: Tiles): set<Pos> {
    set p | p in tiles && tiles[p].state != Blocked
  }

  function LiveMines(tiles: Tiles): set<Pos> {
    set p | p in tiles && tiles[p].isMine && tiles[p].state != Blocked
  }

  function FlaggedCells(tiles: Tiles): set<Pos> {
    set p | p in tiles && tiles[p].state == Flagged
  }

  function RevealedSafe(tiles: Tiles): set<Pos> {
    set p | p in tiles && tiles[p].state == Revealed && !tiles[p].isMine
  }

  function FlaggedMines(tiles: Tiles): set<Pos> {
    set p | p in tiles && tiles[p].state == Flagged && tiles[p].isMine
  }

  /** What opening cells leaves alone, tile by tile. */
  lemma OpenedTiles(t0: Tiles, t1: Tiles)
    requires OnlyOpened(t0, t1)
    ensures forall p :: p in t1 ==>
      && t1[p].isMine == t0[p].isMine
      && t1[p].number == t0[p].number
      && (t1[p].state == Blocked <==> t0[p].state == Blocked)
      && (t1[p].state == Flagged <==> t0[p].state == Flagged)
      && (t0[p].state == Revealed ==> t1[p].state == Revealed)
  {
  }

  /** Opening cells changes no mine, no blocked cell and no flag. */
  lemma OpeningKeepsCounts(t0: Tiles, t1: Tiles)
    requires OnlyOpened(t0, t1)
    ensures SameLayout(t0, t1)
    ensures Mines(t1) == Mines(t0)
    ensures NonBlocked(t1) == NonBlocked(t0)
    ensures LiveMines(t1) == LiveMines(t0)
    ensures FlaggedCells(t1) == FlaggedCells(t0)
    ensures FlaggedMines(t1) == FlaggedMines(t0)
    ensures RevealedSafe(t0) <= RevealedSafe(t1)
  {
    OpenedTiles(t0, t1);
    assert Mines(t1) == Mines(t0);
    assert NonBlocked(t1) == NonBlocked(t0);
    assert LiveMines(t1) == LiveMines(t0);
    assert FlaggedCells(t1) == FlaggedCells(t0);
    assert FlaggedMines(t1) == FlaggedMines(t0);
  }

  /** Opening cells keeps the layout invariant. */
  lemma OpeningKeepsLayout(cells: set<Pos>, t0: Tiles, t1: Tiles)
    requires OnlyOpened(t0, t1)
    requires WellFormed(cells, t0)
    ensures WellFormed(cells, t1)
  {
    OpenedTiles(t0, t1);
    OpeningKeepsCounts(t0, t1);
    forall p | p in t1 ensures t1[p].number == ExpectedNumber(cells, t1, p) {
      assert t0[p].number == ExpectedNumber(cells, t0, p);
    }
  }

  /** Opening one covered safe cell adds exactly that cell to the revealed safe cells. */
  lemma OpenOne(t: Tiles, p: Pos)
    requires p in t && t[p].state == Covered && !t[p].isMine
    ensures p !in RevealedSafe(t)
    ensures RevealedSafe(t[p := Opened(t[p])]) == RevealedSafe(t) + {p}
    ensures OnlyOpened(t, t[p := Opened(t[p])])
  {
  }

  /** OnlyOpened composes. */
  lemma OnlyOpenedTrans(t0: Tiles, t1: Tiles, t2: Tiles)
    requires OnlyOpened(t0, t1) && OnlyOpened(t1, t2)
    ensures OnlyOpened(t0, t2)
  {
  }

  // ----- winning -----

  predicate SafeCellsRevealed(tiles: Tiles) {
    forall p :: p in tiles && tiles[p].state != Blocked && !tiles[p].isMine ==> tiles[p].state == Revealed
  }

  predicate MinesFlagged(tiles: Tiles) {
    forall p :: p in tiles && tiles[p].state != Blocked && tiles[p].isMine ==> tiles[p].state == Flagged
  }

  /** The puzzle is solved: every open safe cell revealed and every open mine flagged. */
  predicate Solved(tiles: Tiles) {
    SafeCellsRevealed(tiles) && MinesFlagged(tiles)
  }

  /**
   * The win condition can be read off the counters: every playable safe cell
   * is revealed and every playable mine carries a flag exactly when the
   * revealed and flagged-mine counts reach their totals.
   */
  lemma SolvedByCounts(tiles: Tiles)
    ensures Solved(tiles) <==>
      |RevealedSafe(tiles)| == |NonBlocked(tiles)| - |LiveMines(tiles)| &&
      |FlaggedMines(tiles)| == |LiveMines(tiles)|
  {
    var safe := NonBlocked(tiles) - LiveMines(tiles);
    assert LiveMines(tiles) <= NonBlocked(tiles);
    assert |safe| == |NonBlocked(tiles)| - |LiveMines(tiles)|;
    assert RevealedSafe(tiles) <= safe;
    assert FlaggedMines(tiles) <= LiveMines(tiles);
    SubsetSameSize(RevealedSafe(tiles), safe);
    SubsetSameSize(FlaggedMines(tiles), LiveMines(tiles));
    assert SafeCellsRevealed(tiles) <==> RevealedSafe(tiles) == safe by {
      if RevealedSafe(tiles) == safe {
        forall p | p in tiles && tiles[p].state != Blocked && !tiles[p].isMine
          ensures tiles[p].state == Revealed
        {
          assert p in safe;
        }
      }
    }
    assert MinesFlagged(tiles) <==> FlaggedMines(tiles) == LiveMines(tiles) by {
      if FlaggedMines(tiles) == LiveMines(tiles) {
        forall p | p in tiles && tiles[p].state != Blocked && tiles[p].isMine
          ensures tiles[p].state == Flagged
        {
          assert p in LiveMines(tiles);
        }
      }
    }
  }

  /** A subset is the whole set exactly when it has the same size. */
  lemma SubsetSameSize<T>(a: set<T>, b: set<T>)
    requires a <= b
    ensures |a| <= |b|
    ensures |a| == |b| <==> a == b
  {
    assert b == a + (b - a);
    if |a| == |b| {
      assert |b - a| == 0;
    }
  }

  // ----- flood fill -----

  /** Flood fill never opens blocked cells, flags or mines. */
  predicate Passable(t: Tile) {
    t.state != Blocked && t.state != Flagged && !t.isMine
  }

  /** A passable cell with no mine neighbours: flood fill spreads on from it. */
  predicate Spreads(t: Tile) {
    Passable(t) && t.number == 0
  }

  /** zone contains start and every spreading in-grid neighbour of every cell it contains. */
  ghost predicate ZeroClosed(cells: set<Pos>, tiles: Tiles, start: Pos, zone: set<Pos>) {
    && start in zone
    && forall z, n :: z in zone && Adjacent(z, n) && n in cells && n in tiles && Spreads(tiles[n]) ==> n in zone
  }

  /** c is an in-grid neighbour of some cell of zone. */
  ghost predicate Borders(cells: set<Pos>, zone: set<Pos>, c: Pos) {
    c in cells && exists z :: z in zone && Adjacent(z, c)
  }

  /** Opening covered cells changes neither what is passable nor where a fill spreads. */
  lemma OpeningKeepsZones(cells: set<Pos>, t0: Tiles, t1: Tiles, start: Pos, zone: set<Pos>)
    requires OnlyOpened(t0, t1)
    ensures forall p :: p in t0 ==> (Passable(t1[p]) <==> Passable(t0[p])) && (Spreads(t1[p]) <==> Spreads(t0[p]))
    ensures ZeroClosed(cells, t1, start, zone) <==> ZeroClosed(cells, t0, start, zone)
  {
  }

  // ----- rays for edge hints -----

  /** The direction a stage's direction index names; negative indices count from the end. */
  function DirVector(dir: int): (d: Pos)
    requires -6 <= dir < 6
    ensures d in Directions
  {
    Directions[if dir < 0 then dir + 6 else dir]
  }

  /** The cell k steps from p in direction d. */
  function Step(p: Pos, d: Pos, k: nat): Pos {
    (p.0 + k * d.0, p.1 + k * d.1)
  }

  lemma StepInjective(p: Pos, d: Pos, j: nat, k: nat)
    requires d in Directions
    requires j != k
    ensures Step(p, d, j) != Step(p, d, k)
  {
    var jj: int, kk: int := j, k;
    if d.0 == 1 {
      assert jj * d.0 == jj && kk * d.0 == kk;
    } else if d.0 == -1 {
      assert jj * d.0 == -jj && kk * d.0 == -kk;
    } else if d.1 == 1 {
      assert jj * d.1 == jj && kk * d.1 == kk;
    } else {
      assert d.1 == -1;
      assert jj * d.1 == -jj && kk * d.1 == -kk;
    }
  }

  /** One more step is one more unit move. */
  lemma StepNext(p: Pos, d: Pos, k: nat)
    requires d in Directions
    ensures Step(p, d, k + 1) == Add(Step(p, d, k), d)
  {
    var kk: int := k;
    assert (kk + 1) * d.0 == kk * d.0 + d.0;
    assert (kk + 1) * d.1 == kk * d.1 + d.1;
  }

  /** A run along a ray never visits a cell twice. */
  lemma StepsDistinct(p: Pos, d: Pos, run: seq<Pos>)
    requires d in Directions
    requires forall i :: 0 <= i < |run| ==> run[i] == Step(p, d, i)
    ensures Distinct(run)
  {
    forall a, b | 0 <= a < b < |run| ensures run[a] != run[b] {
      StepInjective(p, d, a, b);
    }
  }

  /** The first k cells of the ray from p in direction d. */
  function StepSet(p: Pos, d: Pos, k: nat): set<Pos> {
    if k == 0 then {} else StepSet(p, d, k - 1) + {Step(p, d, k - 1)}
  }

  lemma {:induction false} StepSetSize(p: Pos, d: Pos, k: nat)
    requires d in Directions
    ensures |StepSet(p, d, k)| == k
    ensures forall j: nat :: j >= k ==> Step(p, d, j) !in StepSet(p, d, k)
  {
    if k > 0 {
      StepSetSize(p, d, k - 1);
      forall j: nat | j >= k ensures Step(p, d, j) !in StepSet(p, d, k) {
        StepInjective(p, d, j, k - 1);
      }
    }
  }

  lemma {:induction false} StepSetWithin(p: Pos, d: Pos, k: nat, cells: set<Pos>)
    requires forall j :: 0 <= j < k ==> Step(p, d, j) in cells
    ensures StepSet(p, d, k) <= cells
  {
    if k > 0 {
      StepSetWithin(p, d, k - 1, cells);
    }
  }

  /** A ray that stays in a finite set of cells for k steps has k distinct cells there. */
  lemma RayFits(cells: set<Pos>, p: Pos, d: Pos, k: nat)
    requires d in Directions
    requires forall j :: 0 <= j < k ==> Step(p, d, j) in cells
    ensures k <= |cells|
  {
    StepSetSize(p, d, k);
    StepSetWithin(p, d, k, cells);
    SubsetSameSize(StepSet(p, d, k), cells);
  }

  /** The cells of the ray from s in direction d, from step k on, up to the first cell outside. */
  function RunFrom(cells: set<Pos>, s: Pos, d: Pos, k: nat): seq<Pos>
    requires d in Directions
    requires forall j :: 0 <= j < k ==> Step(s, d, j) in cells
    decreases |cells| - k
  {
    if Step(s, d, k) in cells then
      RayFits(cells, s, d, k + 1);
      [Step(s, d, k)] + RunFrom(cells, s, d, k + 1)
    else []
  }

  /** One more in-grid step: the run from step k starts with that step, and the next step is one d further. */
  lemma RunStep(cells: set<Pos>, s: Pos, d: Pos, k: nat)
    requires d in Directions
    requires forall j :: 0 <= j < k ==> Step(s, d, j) in cells
    requires Step(s, d, k) in cells
    ensures forall j :: 0 <= j < k + 1 ==> Step(s, d, j) in cells
    ensures k + 1 <= |cells|
    ensures RunFrom(cells, s, d, k) == [Step(s, d, k)] + RunFrom(cells, s, d, k + 1)
    ensures Step(s, d, k + 1) == Add(Step(s, d, k), d)
  {
    RayFits(cells, s, d, k + 1);
    StepNext(s, d, k);
  }

  /** RunFrom lists consecutive steps, all inside, and stops at the first step outside. */
  lemma {:induction false} RunFromSpec(cells: set<Pos>, s: Pos, d: Pos, k: nat)
    requires d in Directions
    requires forall j :: 0 <= j < k ==> Step(s, d, j) in cells
    ensures forall i :: 0 <= i < |RunFrom(cells, s, d, k)| ==>
      RunFrom(cells, s, d, k)[i] == Step(s, d, k + i) && Step(s, d, k + i) in cells
    ensures Step(s, d, k + |RunFrom(cells, s, d, k)|) !in cells
    decreases |cells| - k
  {
    if Step(s, d, k) in cells {
      RayFits(cells, s, d, k + 1);
      RunFromSpec(cells, s, d, k + 1);
      var rest := RunFrom(cells, s, d, k + 1);
      assert RunFrom(cells, s, d, k) == [Step(s, d, k)] + rest;
      forall i | 0 <= i < |rest| + 1
        ensures ([Step(s, d, k)] + rest)[i] == Step(s, d, k + i) && Step(s, d, k + i) in cells
      {
        if i == 0 {
          assert k + i == k;
        } else {
          assert ([Step(s, d, k)] + rest)[i] == rest[i - 1] == Step(s, d, (k + 1) + (i - 1));
          assert (k + 1) + (i - 1) == k + i;
        }
      }
      assert k + |RunFrom(cells, s, d, k)| == (k + 1) + |rest|;
    }
  }

  /** Where a ray starts: at the anchor when it is inside, else one step further on. */
  function LineStart(cells: set<Pos>, anchor: Pos, d: Pos): Pos {
    if anchor in cells then anchor else Add(anchor, d)
  }

  /** The run of in-grid cells an edge hint anchored at anchor looks along. */
  function LineRun(cells: set<Pos>, anchor: Pos, d: Pos): seq<Pos>
    requires d in Directions
  {
    RunFrom(cells, LineStart(cells, anchor, d), d, 0)
  }

  /**
   * The run is the maximal contiguous run of in-grid cells start, start+d,
   * start+2d, ..., where start is the anchor when it is in the grid and the
   * next cell otherwise; it is empty when that cell is outside too.
   */
  lemma LineRunMaximal(cells: set<Pos>, anchor: Pos, d: Pos)
    requires d in Directions
    ensures var run := LineRun(cells, anchor, d);
      && (forall i :: 0 <= i < |run| ==> run[i] == Step(LineStart(cells, anchor, d), d, i) && run[i] in cells)
      && Step(LineStart(cells, anchor, d), d, |run|) !in cells
      && (LineStart(cells, anchor, d) !in cells ==> run == [])
  {
    RunFromSpec(cells, LineStart(cells, anchor, d), d, 0);
  }

  /** The hint a stage entry yields: the mines among the unblocked cells of its run. */
  function HintFor(tiles: Tiles, e: EdgeEntry, style: EdgeStyle): (h: EdgeHint)
    requires -6 <= e.dir < 6
  {
    var path := LineRun(tiles.Keys, e.pos, DirVector(e.dir));
    LineRunMaximal(tiles.Keys, e.pos, DirVector(e.dir));
    var count := CountIn(Mines(tiles), Playable(tiles, path));
    EdgeHint(e.pos, e.dir, count, style, e.labelPos, e.labelDir, e.labelDist, e.labelAngle)
  }

  predicate DirsInRange(entries: seq<EdgeEntry>) {
    forall i :: 0 <= i < |entries| ==> -6 <= entries[i].dir < 6
  }

  /** The hints of one list of stage entries, in order, all with one style. */
  function HintsFor(tiles: Tiles, entries: seq<EdgeEntry>, style: EdgeStyle): (hs: seq<EdgeHint>)
    requires DirsInRange(entries)
    ensures |hs| == |entries|
    ensures forall i :: 0 <= i < |entries| ==> hs[i] == HintFor(tiles, entries[i], style)
  {
    if entries == [] then []
    else HintsFor(tiles, entries[..|entries| - 1], style) + [HintFor(tiles, entries[|entries| - 1], style)]
  }

  /**
   * An edge hint's count is the number of distinct mines on its run: blocked
   * cells never hold one, so filtering them out changes nothing.
   */
  lemma HintCountsRayMines(tiles: Tiles, e: EdgeEntry, style: EdgeStyle)
    requires -6 <= e.dir < 6
    requires forall p :: p in tiles && tiles[p].state == Blocked ==> !tiles[p].isMine
    ensures var run := LineRun(tiles.Keys, e.pos, DirVector(e.dir));
      HintFor(tiles, e, style).count == |Elems(run) * Mines(tiles)|
  {
    var d := DirVector(e.dir);
    var run := LineRun(tiles.Keys, e.pos, d);
    LineRunMaximal(tiles.Keys, e.pos, d);
    StepsDistinct(LineStart(tiles.Keys, e.pos, d), d, run);
    BlockedNeverCounted(tiles, run);
    CountInDistinct(Mines(tiles), run);
  }
}

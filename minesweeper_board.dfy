/** The minesweeper board as a value: a rows-by-cols grid of cells, the sets
    of mined, flagged and hidden cells, and the count of mines around a cell.
    Row r, column c of a board g is g[r][c]. */
module MinesweeperBoard {
  import opened Grid

  /** OCULTA, REVELADA and MARCADA. */
  datatype CellState = Hidden | Revealed | Flagged

  /** One cell: whether it holds a mine, its visible state and the number of
      mines around it (written once the mines are placed). */
  datatype Cell = Cell(mine: bool, state: CellState, adjacent: int)

  /** A cell as created: no mine, hidden, count 0. */
  const FreshCell := Cell(false, Hidden, 0)

  type Board = seq<seq<Cell>>

  /** The eight offsets around a cell, in the order in which the nested
      loops over df and dc in [-1, 0, 1] visit them once (0, 0) is skipped. */
  const Around: seq<(int, int)> :=
    [(-1, -1), (-1, 0), (-1, 1), (0, -1), (0, 1), (1, -1), (1, 0), (1, 1)]

  predicate Shaped(g: Board, rows: int, cols: int)
  {
    0 <= cols && |g| == rows && forall r :: 0 <= r < rows ==> |g[r]| == cols
  }

  function FreshBoard(rows: nat, cols: nat): (g: Board)
    ensures Shaped(g, rows, cols)
  {
    seq(rows, _ => seq(cols, _ => FreshCell))
  }

  /** g with the cell at (r, c) replaced by x. */
  function Put(g: Board, rows: int, cols: int, r: int, c: int, x: Cell): (g': Board)
    requires Shaped(g, rows, cols) && InBounds(rows, cols, r, c)
    ensures Shaped(g', rows, cols)
    ensures g'[r][c] == x
    ensures forall i, j | InBounds(rows, cols, i, j) && (i, j) != (r, c) :: g'[i][j] == g[i][j]
  {
    g[r := g[r][c := x]]
  }

  /** Writing a cell back to what it held undoes an earlier write to it. */
  lemma PutBack(g: Board, rows: int, cols: int, r: int, c: int, x: Cell)
    requires Shaped(g, rows, cols) && InBounds(rows, cols, r, c)
    ensures Put(Put(g, rows, cols, r, c, x), rows, cols, r, c, g[r][c]) == g
  {
    var g2 := Put(Put(g, rows, cols, r, c, x), rows, cols, r, c, g[r][c]);
    forall i | 0 <= i < rows ensures g2[i] == g[i] {
      assert |g2[i]| == |g[i]|;
      forall j | 0 <= j < cols ensures g2[i][j] == g[i][j] { }
    }
  }

  predicate Mined(g: Board, rows: int, cols: int, p: Pos)
    requires Shaped(g, rows, cols)
  {
    InBounds(rows, cols, p.0, p.1) && g[p.0][p.1].mine
  }

  function MineSet(g: Board, rows: int, cols: int): set<Pos>
    requires Shaped(g, rows, cols)
  {
    set p | p in Cells(rows, cols) && g[p.0][p.1].mine
  }

  function FlagSet(g: Board, rows: int, cols: int): set<Pos>
    requires Shaped(g, rows, cols)
  {
    set p | p in Cells(rows, cols) && g[p.0][p.1].state == Flagged
  }

  function HiddenSet(g: Board, rows: int, cols: int): set<Pos>
    requires Shaped(g, rows, cols)
  {
    set p | p in Cells(rows, cols) && g[p.0][p.1].state == Hidden
  }

  /** How many cells are still hidden: what a reveal uses up. */
  function HiddenCount(g: Board, rows: int, cols: int): nat
    requires Shaped(g, rows, cols)
  {
    |HiddenSet(g, rows, cols)|
  }

  /** The eight cells around (r, c), written out. */
  function Ring(r: int, c: int): set<Pos>
  {
    {(r - 1, c - 1), (r - 1, c), (r - 1, c + 1),
     (r, c - 1),                 (r, c + 1),
     (r + 1, c - 1), (r + 1, c), (r + 1, c + 1)}
  }

  /** The mined cells among the up to eight grid cells around (r, c);
      cells beyond the edge do not exist (no wrap-around). */
  ghost function MinedNeighbours(g: Board, rows: int, cols: int, r: int, c: int): set<Pos>
    requires Shaped(g, rows, cols)
  {
    set p | p in Ring(r, c) && Mined(g, rows, cols, p)
  }

  function MineAt(g: Board, rows: int, cols: int, r: int, c: int): nat
    requires Shaped(g, rows, cols)
  {
    if InBounds(rows, cols, r, c) && g[r][c].mine then 1 else 0
  }

  /** The count the scanning loop accumulates over the offsets offs. */
  function MinesAmong(g: Board, rows: int, cols: int, r: int, c: int, offs: seq<(int, int)>): (n: nat)
    requires Shaped(g, rows, cols)
    ensures n <= |offs|
    decreases |offs|
  {
    if offs == [] then 0
    else
      var o := offs[|offs| - 1];
      MinesAmong(g, rows, cols, r, c, offs[..|offs| - 1]) + MineAt(g, rows, cols, r + o.0, c + o.1)
  }

  /** Every non-mined cell carries the number of mines around it. */
  ghost predicate Numbered(g: Board, rows: int, cols: int)
    requires Shaped(g, rows, cols)
  {
    forall r, c {:trigger MinedNeighbours(g, rows, cols, r, c)}
      | InBounds(rows, cols, r, c) && !g[r][c].mine ::
      g[r][c].adjacent == |MinedNeighbours(g, rows, cols, r, c)|
  }

  ghost predicate AllSafeRevealed(g: Board, rows: int, cols: int)
    requires Shaped(g, rows, cols)
  {
    forall r, c | InBounds(rows, cols, r, c) && !g[r][c].mine :: g[r][c].state == Revealed
  }

  ghost predicate AllMinesRevealed(g: Board, rows: int, cols: int)
    requires Shaped(g, rows, cols)
  {
    forall r, c | InBounds(rows, cols, r, c) && g[r][c].mine :: g[r][c].state == Revealed
  }

  ghost predicate NoneRevealed(g: Board, rows: int, cols: int)
    requires Shaped(g, rows, cols)
  {
    forall r, c | InBounds(rows, cols, r, c) :: g[r][c].state != Revealed
  }

  /** The two boards have the same mines and the same counts. */
  ghost predicate SameLayout(g0: Board, g1: Board, rows: int, cols: int)
    requires Shaped(g0, rows, cols) && Shaped(g1, rows, cols)
  {
    forall r, c | InBounds(rows, cols, r, c) ::
      g1[r][c].mine == g0[r][c].mine && g1[r][c].adjacent == g0[r][c].adjacent
  }

  /** Every cell keeps its state or has gone from hidden to revealed, and
      each newly revealed cell is safe. */
  ghost predicate Unveils(g0: Board, g1: Board, rows: int, cols: int)
    requires Shaped(g0, rows, cols) && Shaped(g1, rows, cols)
  {
    forall r, c | InBounds(rows, cols, r, c) ::
      g1[r][c].state == g0[r][c].state
      || (g0[r][c].state == Hidden && g1[r][c].state == Revealed && !g1[r][c].mine)
  }

  /** No cell goes back from revealed. */
  ghost predicate KeepsRevealed(g0: Board, g1: Board, rows: int, cols: int)
    requires Shaped(g0, rows, cols) && Shaped(g1, rows, cols)
  {
    forall r, c | InBounds(rows, cols, r, c) && g0[r][c].state == Revealed :: g1[r][c].state == Revealed
  }

  /** No cell among the first n neighbours of (r, c), in the order of
      Around, that lies on the board is still hidden. */
  ghost predicate ClearedUpTo(g: Board, rows: int, cols: int, r: int, c: int, n: int)
    requires Shaped(g, rows, cols)
  {
    forall i | 0 <= i < n && i < |Around| && InBounds(rows, cols, r + Around[i].0, c + Around[i].1) ::
      g[r + Around[i].0][c + Around[i].1].state != Hidden
  }

  ghost predicate NoHiddenAround(g: Board, rows: int, cols: int, r: int, c: int)
    requires Shaped(g, rows, cols)
  {
    ClearedUpTo(g, rows, cols, r, c, |Around|)
  }

  /** The cascade has run to completion: every cell revealed between g0 and
      g1 that is safe with count 0 has no hidden cell left around it. */
  ghost predicate Settled(g0: Board, g1: Board, rows: int, cols: int)
    requires Shaped(g0, rows, cols) && Shaped(g1, rows, cols)
  {
    forall r, c {:trigger NoHiddenAround(g1, rows, cols, r, c)}
      | InBounds(rows, cols, r, c) && g0[r][c].state == Hidden && g1[r][c].state == Revealed
        && !g1[r][c].mine && g1[r][c].adjacent == 0 ::
      NoHiddenAround(g1, rows, cols, r, c)
  }

  /** The board after a loss: every mine revealed, every other cell as before. */
  ghost predicate Exploded(g0: Board, g1: Board, rows: int, cols: int)
    requires Shaped(g0, rows, cols) && Shaped(g1, rows, cols)
  {
    forall r, c | InBounds(rows, cols, r, c) ::
      g1[r][c] == if g0[r][c].mine then g0[r][c].(state := Revealed) else g0[r][c]
  }

  /** p was hidden on g0 and is revealed on g. */
  ghost predicate NewlyRevealed(g0: Board, g: Board, rows: int, cols: int, p: Pos)
    requires Shaped(g0, rows, cols) && Shaped(g, rows, cols)
  {
    InBounds(rows, cols, p.0, p.1) && g0[p.0][p.1].state == Hidden && g[p.0][p.1].state == Revealed
  }

  /** A safe cell with no mine around it: revealing it reveals its neighbours. */
  ghost predicate Opening(g: Board, rows: int, cols: int, p: Pos)
    requires Shaped(g, rows, cols)
  {
    InBounds(rows, cols, p.0, p.1) && !g[p.0][p.1].mine && g[p.0][p.1].adjacent == 0
  }

  /** The cascade can go from a to b: a is an opening and b is one of the
      eight cells around it. */
  ghost predicate Link(g: Board, rows: int, cols: int, a: Pos, b: Pos)
    requires Shaped(g, rows, cols)
  {
    Opening(g, rows, cols, a) && b in Ring(a.0, a.1)
  }

  /** A path the cascade can take between g0 and g: every cell on it is
      newly revealed, and each step leaves an opening for one of the eight
      cells around it. */
  ghost predicate Trail(g0: Board, g: Board, rows: int, cols: int, path: seq<Pos>)
    requires Shaped(g0, rows, cols) && Shaped(g, rows, cols)
  {
    && |path| > 0
    && (forall k | 0 <= k < |path| :: NewlyRevealed(g0, g, rows, cols, path[k]))
    && (forall k | 0 <= k < |path| - 1 :: Link(g, rows, cols, path[k], path[k + 1]))
  }

  /** Some trail from a cell of `from` ends at p. */
  ghost predicate Reaches(g0: Board, g: Board, rows: int, cols: int, from: set<Pos>, p: Pos)
    requires Shaped(g0, rows, cols) && Shaped(g, rows, cols)
  {
    exists path {:trigger Trail(g0, g, rows, cols, path)} ::
      Trail(g0, g, rows, cols, path) && path[0] in from && path[|path| - 1] == p
  }

  /** Every cell revealed between g0 and g is reached by a trail from `from`:
      the cascade reveals nothing beyond the openings it passes through and
      the cells around them. */
  ghost predicate Spread(g0: Board, g: Board, rows: int, cols: int, from: set<Pos>)
    requires Shaped(g0, rows, cols) && Shaped(g, rows, cols)
  {
    forall p {:trigger Reaches(g0, g, rows, cols, from, p)}
      | NewlyRevealed(g0, g, rows, cols, p) :: Reaches(g0, g, rows, cols, from, p)
  }

  // ---------------------------------------------------------------------
  // Counting mines around a cell

  /** The mined cells around (r, c) reached through the offsets offs. */
  ghost function HitsAmong(g: Board, rows: int, cols: int, r: int, c: int, offs: seq<(int, int)>): set<Pos>
    requires Shaped(g, rows, cols)
  {
    set p | p in Ring(r, c) && (p.0 - r, p.1 - c) in offs && Mined(g, rows, cols, p)
  }

  lemma {:induction false} MinesAmongCountsHits(g: Board, rows: int, cols: int, r: int, c: int, offs: seq<(int, int)>)
    requires Shaped(g, rows, cols)
    requires forall i :: 0 <= i < |offs| ==> offs[i] in Around
    requires forall i, j :: 0 <= i < j < |offs| ==> offs[i] != offs[j]
    ensures MinesAmong(g, rows, cols, r, c, offs) == |HitsAmong(g, rows, cols, r, c, offs)|
    decreases |offs|
  {
    if offs == [] {
      assert HitsAmong(g, rows, cols, r, c, offs) == {};
    } else {
      var init, o := offs[..|offs| - 1], offs[|offs| - 1];
      assert offs == init + [o];
      MinesAmongCountsHits(g, rows, cols, r, c, init);
      var q := (r + o.0, c + o.1);
      var before, after := HitsAmong(g, rows, cols, r, c, init), HitsAmong(g, rows, cols, r, c, offs);
      assert o !in init;
      assert q !in before;
      HitsStep(g, rows, cols, r, c, init, o);
    }
  }

  lemma HitsStep(g: Board, rows: int, cols: int, r: int, c: int, init: seq<(int, int)>, o: (int, int))
    requires Shaped(g, rows, cols)
    requires o in Around
    ensures var q := (r + o.0, c + o.1);
      HitsAmong(g, rows, cols, r, c, init + [o])
      == HitsAmong(g, rows, cols, r, c, init) + (if Mined(g, rows, cols, q) then {q} else {})
  {
    var q := (r + o.0, c + o.1);
    assert q in Ring(r, c);
    forall p: Pos ensures (p.0 - r, p.1 - c) in init + [o] <==> (p.0 - r, p.1 - c) in init || p == q { }
  }

  /** The loop's count over Around is the number of mined cells among the
      eight around (r, c): each neighbour counted once, none beyond the edge. */
  lemma CountIsMinedNeighbours(g: Board, rows: int, cols: int, r: int, c: int)
    requires Shaped(g, rows, cols)
    ensures MinesAmong(g, rows, cols, r, c, Around) == |MinedNeighbours(g, rows, cols, r, c)| <= 8
  {
    MinesAmongCountsHits(g, rows, cols, r, c, Around);
    assert HitsAmong(g, rows, cols, r, c, Around) == MinedNeighbours(g, rows, cols, r, c);
  }

  /** A safe cell whose count is 0 has no mine next to it, so the cascade
      started from it never reaches a mine. */
  lemma ZeroCountNeighbourSafe(g: Board, rows: int, cols: int, r: int, c: int, i: int)
    requires Shaped(g, rows, cols) && Numbered(g, rows, cols)
    requires InBounds(rows, cols, r, c) && !g[r][c].mine && g[r][c].adjacent == 0
    requires 0 <= i < |Around|
    ensures !Mined(g, rows, cols, (r + Around[i].0, c + Around[i].1))
  {
    var q := (r + Around[i].0, c + Around[i].1);
    assert q in Ring(r, c);
    assert q !in MinedNeighbours(g, rows, cols, r, c);
  }

  // ---------------------------------------------------------------------
  // How the derived sets follow changes of the board

  /** Boards that agree on where the mines are have the same mine set and
      the same mined neighbours around every cell, whatever their counts
      and states. */
  lemma SameMines(g0: Board, g1: Board, rows: int, cols: int)
    requires Shaped(g0, rows, cols) && Shaped(g1, rows, cols)
    requires forall r, c | InBounds(rows, cols, r, c) :: g1[r][c].mine == g0[r][c].mine
    ensures MineSet(g1, rows, cols) == MineSet(g0, rows, cols)
    ensures forall r, c :: MinedNeighbours(g1, rows, cols, r, c) == MinedNeighbours(g0, rows, cols, r, c)
  {
  }

  lemma SameLayoutKeepsMines(g0: Board, g1: Board, rows: int, cols: int)
    requires Shaped(g0, rows, cols) && Shaped(g1, rows, cols) && SameLayout(g0, g1, rows, cols)
    ensures MineSet(g1, rows, cols) == MineSet(g0, rows, cols)
    ensures Numbered(g0, rows, cols) <==> Numbered(g1, rows, cols)
  {
    SameMines(g0, g1, rows, cols);
  }

  lemma UnveilsKeepsFlags(g0: Board, g1: Board, rows: int, cols: int)
    requires Shaped(g0, rows, cols) && Shaped(g1, rows, cols) && Unveils(g0, g1, rows, cols)
    ensures FlagSet(g1, rows, cols) == FlagSet(g0, rows, cols)
    ensures HiddenSet(g1, rows, cols) <= HiddenSet(g0, rows, cols)
    ensures HiddenCount(g1, rows, cols) <= HiddenCount(g0, rows, cols)
  {
    var h0, h1 := HiddenSet(g0, rows, cols), HiddenSet(g1, rows, cols);
    assert h0 == h1 + (h0 - h1);
  }

  lemma PlaceMineAdds(g: Board, rows: int, cols: int, r: int, c: int)
    requires Shaped(g, rows, cols) && InBounds(rows, cols, r, c) && !g[r][c].mine
    ensures MineSet(Put(g, rows, cols, r, c, g[r][c].(mine := true)), rows, cols)
            == MineSet(g, rows, cols) + {(r, c)}
  {
  }

  lemma StateChangeFlags(g: Board, rows: int, cols: int, r: int, c: int, s: CellState)
    requires Shaped(g, rows, cols) && InBounds(rows, cols, r, c)
    ensures FlagSet(Put(g, rows, cols, r, c, g[r][c].(state := s)), rows, cols)
            == (FlagSet(g, rows, cols) - {(r, c)}) + (if s == Flagged then {(r, c)} else {})
  {
  }

  lemma StateChangeHidden(g: Board, rows: int, cols: int, r: int, c: int, s: CellState)
    requires Shaped(g, rows, cols) && InBounds(rows, cols, r, c)
    ensures HiddenSet(Put(g, rows, cols, r, c, g[r][c].(state := s)), rows, cols)
            == (HiddenSet(g, rows, cols) - {(r, c)}) + (if s == Hidden then {(r, c)} else {})
  {
  }

  /** Changing only the state of one cell keeps the layout, hence the mines
      and the counts. */
  lemma PutStateKeepsLayout(g: Board, rows: int, cols: int, r: int, c: int, s: CellState)
    requires Shaped(g, rows, cols) && InBounds(rows, cols, r, c)
    ensures SameLayout(g, Put(g, rows, cols, r, c, g[r][c].(state := s)), rows, cols)
    ensures MineSet(Put(g, rows, cols, r, c, g[r][c].(state := s)), rows, cols) == MineSet(g, rows, cols)
    ensures Numbered(g, rows, cols) ==> Numbered(Put(g, rows, cols, r, c, g[r][c].(state := s)), rows, cols)
  {
    SameLayoutKeepsMines(g, Put(g, rows, cols, r, c, g[r][c].(state := s)), rows, cols);
  }

  /** Flagging a cell that is not flagged adds one flag; unflagging a
      flagged cell removes one. */
  lemma FlagCount(g: Board, rows: int, cols: int, r: int, c: int, s: CellState)
    requires Shaped(g, rows, cols) && InBounds(rows, cols, r, c)
    requires (s == Flagged) != (g[r][c].state == Flagged)
    ensures |FlagSet(Put(g, rows, cols, r, c, g[r][c].(state := s)), rows, cols)|
            == |FlagSet(g, rows, cols)| + (if s == Flagged then 1 else -1)
  {
    StateChangeFlags(g, rows, cols, r, c, s);
    var f := FlagSet(g, rows, cols);
    if s == Flagged {
      assert (r, c) !in f;
      assert (f - {(r, c)}) + {(r, c)} == f + {(r, c)};
    } else {
      assert (r, c) in f;
    }
  }

  lemma PutStateNoneRevealed(g: Board, rows: int, cols: int, r: int, c: int, s: CellState)
    requires Shaped(g, rows, cols) && InBounds(rows, cols, r, c) && s != Revealed
    requires NoneRevealed(g, rows, cols)
    ensures NoneRevealed(Put(g, rows, cols, r, c, g[r][c].(state := s)), rows, cols)
  {
  }

  /** Revealing one hidden cell leaves the flags alone. */
  lemma RevealKeepsFlags(g: Board, rows: int, cols: int, r: int, c: int)
    requires Shaped(g, rows, cols) && InBounds(rows, cols, r, c) && g[r][c].state == Hidden
    ensures FlagSet(Put(g, rows, cols, r, c, g[r][c].(state := Revealed)), rows, cols) == FlagSet(g, rows, cols)
  {
    StateChangeFlags(g, rows, cols, r, c, Revealed);
    assert (r, c) !in FlagSet(g, rows, cols);
  }

  /** Revealing one hidden cell takes it out of the hidden ones. */
  lemma RevealShrinksHidden(g: Board, rows: int, cols: int, r: int, c: int)
    requires Shaped(g, rows, cols) && InBounds(rows, cols, r, c) && g[r][c].state == Hidden
    ensures HiddenSet(Put(g, rows, cols, r, c, g[r][c].(state := Revealed)), rows, cols) < HiddenSet(g, rows, cols)
    ensures HiddenCount(Put(g, rows, cols, r, c, g[r][c].(state := Revealed)), rows, cols) < HiddenCount(g, rows, cols)
  {
    StateChangeHidden(g, rows, cols, r, c, Revealed);
    assert (r, c) in HiddenSet(g, rows, cols);
  }

  // ---------------------------------------------------------------------
  // Chaining the steps of a cascading reveal

  /** Boards whose cells have the same states have the same flags and the
      same hidden cells, and going from one to the other reveals nothing. */
  lemma SameStates(g0: Board, g1: Board, rows: int, cols: int)
    requires Shaped(g0, rows, cols) && Shaped(g1, rows, cols)
    requires forall r, c | InBounds(rows, cols, r, c) :: g1[r][c].state == g0[r][c].state
    ensures FlagSet(g1, rows, cols) == FlagSet(g0, rows, cols)
    ensures HiddenSet(g1, rows, cols) == HiddenSet(g0, rows, cols)
    ensures NoneRevealed(g0, rows, cols) ==> NoneRevealed(g1, rows, cols)
  {
  }

  /** Once no cell around (r, c) is hidden, further unveiling keeps it so. */
  lemma UnveilsKeepsNoHidden(g1: Board, g2: Board, rows: int, cols: int, r: int, c: int)
    requires Shaped(g1, rows, cols) && Shaped(g2, rows, cols)
    requires Unveils(g1, g2, rows, cols) && NoHiddenAround(g1, rows, cols, r, c)
    ensures NoHiddenAround(g2, rows, cols, r, c)
  {
    forall i | 0 <= i < |Around| && InBounds(rows, cols, r + Around[i].0, c + Around[i].1)
      ensures g2[r + Around[i].0][c + Around[i].1].state != Hidden
    {
      var nr, nc := r + Around[i].0, c + Around[i].1;
      assert g1[nr][nc].state != Hidden;
    }
  }

  /** Two cascade steps in a row make one: the layout stays, cells only go
      from hidden to revealed, and every zero cell revealed on the way has
      no hidden neighbour at the end. */
  lemma Chain(g0: Board, g1: Board, g2: Board, rows: int, cols: int)
    requires Shaped(g0, rows, cols) && Shaped(g1, rows, cols) && Shaped(g2, rows, cols)
    requires SameLayout(g0, g1, rows, cols) && Unveils(g0, g1, rows, cols) && Settled(g0, g1, rows, cols)
    requires SameLayout(g1, g2, rows, cols) && Unveils(g1, g2, rows, cols) && Settled(g1, g2, rows, cols)
    ensures SameLayout(g0, g2, rows, cols) && Unveils(g0, g2, rows, cols) && Settled(g0, g2, rows, cols)
  {
    forall r, c | InBounds(rows, cols, r, c) && g0[r][c].state == Hidden && g2[r][c].state == Revealed
                  && !g2[r][c].mine && g2[r][c].adjacent == 0
      ensures NoHiddenAround(g2, rows, cols, r, c)
    {
      if g1[r][c].state == Revealed {
        assert NoHiddenAround(g1, rows, cols, r, c);
        UnveilsKeepsNoHidden(g1, g2, rows, cols, r, c);
      }
    }
  }

  /** The first step of a reveal: (r, c) goes from hidden to revealed, and
      the neighbours of a zero cell are dealt with from there on. */
  lemma RevealStep(g0: Board, g1: Board, g2: Board, rows: int, cols: int, r: int, c: int)
    requires Shaped(g0, rows, cols) && InBounds(rows, cols, r, c)
    requires g0[r][c].state == Hidden && !g0[r][c].mine
    requires g1 == Put(g0, rows, cols, r, c, g0[r][c].(state := Revealed))
    requires Shaped(g2, rows, cols)
    requires SameLayout(g1, g2, rows, cols) && Unveils(g1, g2, rows, cols) && Settled(g1, g2, rows, cols)
    requires g0[r][c].adjacent == 0 ==> NoHiddenAround(g2, rows, cols, r, c)
    ensures SameLayout(g0, g2, rows, cols) && Unveils(g0, g2, rows, cols) && Settled(g0, g2, rows, cols)
  {
  }

  /** Revealing a mine and then every mine is the loss board of the start. */
  lemma ExplodedAfterReveal(g0: Board, g1: Board, g2: Board, rows: int, cols: int, r: int, c: int)
    requires Shaped(g0, rows, cols) && InBounds(rows, cols, r, c) && g0[r][c].mine
    requires g1 == Put(g0, rows, cols, r, c, g0[r][c].(state := Revealed))
    requires Shaped(g2, rows, cols) && Exploded(g1, g2, rows, cols)
    ensures Exploded(g0, g2, rows, cols) && SameLayout(g0, g2, rows, cols)
  {
  }

  // ---------------------------------------------------------------------
  // Where a cascade reaches

  /** Each of the eight offsets leads into the ring around (r, c). */
  lemma AroundInRing(r: int, c: int, i: int)
    requires 0 <= i < |Around|
    ensures (r + Around[i].0, c + Around[i].1) in Ring(r, c)
  {
  }

  /** Each cell of the ring around (r, c) is reached by one of the offsets. */
  lemma RingIndex(r: int, c: int, q: Pos) returns (i: int)
    requires q in Ring(r, c)
    ensures 0 <= i < |Around| && q == (r + Around[i].0, c + Around[i].1)
  {
    if q == (r - 1, c - 1) { i := 0; }
    else if q == (r - 1, c) { i := 1; }
    else if q == (r - 1, c + 1) { i := 2; }
    else if q == (r, c - 1) { i := 3; }
    else if q == (r, c + 1) { i := 4; }
    else if q == (r + 1, c - 1) { i := 5; }
    else if q == (r + 1, c) { i := 6; }
    else { i := 7; }
  }

  /** A trail stays a trail on boards that reveal at least the same cells
      and keep its openings. */
  lemma TrailTransfer(g0: Board, g: Board, h0: Board, h: Board, rows: int, cols: int, path: seq<Pos>)
    requires Shaped(g0, rows, cols) && Shaped(g, rows, cols) && Shaped(h0, rows, cols) && Shaped(h, rows, cols)
    requires Trail(g0, g, rows, cols, path)
    requires forall q :: NewlyRevealed(g0, g, rows, cols, q) ==> NewlyRevealed(h0, h, rows, cols, q)
    requires forall q :: Opening(g, rows, cols, q) ==> Opening(h, rows, cols, q)
    ensures Trail(h0, h, rows, cols, path)
  {
    forall k | 0 <= k < |path| ensures NewlyRevealed(h0, h, rows, cols, path[k]) {
      assert NewlyRevealed(g0, g, rows, cols, path[k]);
    }
    forall k | 0 <= k < |path| - 1 ensures Link(h, rows, cols, path[k], path[k + 1]) {
      assert Link(g, rows, cols, path[k], path[k + 1]);
    }
  }

  /** One more reveal of the cascade, started at a cell n of `from`: the
      cells revealed before it are reached as before, the cells it reveals
      are reached from n. */
  lemma SpreadStep(g1: Board, gb: Board, g2: Board, rows: int, cols: int, from: set<Pos>, n: Pos)
    requires Shaped(g1, rows, cols) && Shaped(gb, rows, cols) && Shaped(g2, rows, cols)
    requires Unveils(g1, gb, rows, cols) && Unveils(gb, g2, rows, cols) && SameLayout(gb, g2, rows, cols)
    requires Spread(g1, gb, rows, cols, from)
    requires n in from && Spread(gb, g2, rows, cols, {n})
    ensures Spread(g1, g2, rows, cols, from)
  {
    forall p | NewlyRevealed(g1, g2, rows, cols, p) ensures Reaches(g1, g2, rows, cols, from, p) {
      if gb[p.0][p.1].state == Revealed {
        assert NewlyRevealed(g1, gb, rows, cols, p) && Reaches(g1, gb, rows, cols, from, p);
        var path :| Trail(g1, gb, rows, cols, path) && path[0] in from && path[|path| - 1] == p;
        TrailTransfer(g1, gb, g1, g2, rows, cols, path);
      } else {
        assert NewlyRevealed(gb, g2, rows, cols, p) && Reaches(gb, g2, rows, cols, {n}, p);
        var path :| Trail(gb, g2, rows, cols, path) && path[0] in {n} && path[|path| - 1] == p;
        TrailTransfer(gb, g2, g1, g2, rows, cols, path);
      }
    }
  }

  /** The click on a safe hidden cell (r, c): it is revealed, and when it is
      an opening the cascade from the ring around it does the rest. Every
      cell revealed is then reached by a trail from (r, c). */
  lemma SpreadFromClick(g0: Board, g1: Board, g2: Board, rows: int, cols: int, r: int, c: int)
    requires Shaped(g0, rows, cols) && InBounds(rows, cols, r, c)
    requires g0[r][c].state == Hidden && !g0[r][c].mine
    requires g1 == Put(g0, rows, cols, r, c, g0[r][c].(state := Revealed))
    requires Shaped(g2, rows, cols) && Unveils(g1, g2, rows, cols) && SameLayout(g1, g2, rows, cols)
    requires g0[r][c].adjacent == 0 ==> Spread(g1, g2, rows, cols, Ring(r, c))
    requires g0[r][c].adjacent != 0 ==> g2 == g1
    ensures Spread(g0, g2, rows, cols, {(r, c)})
  {
    assert NewlyRevealed(g0, g2, rows, cols, (r, c));
    forall q | NewlyRevealed(g1, g2, rows, cols, q) ensures NewlyRevealed(g0, g2, rows, cols, q) {
      assert q != (r, c);
    }
    forall p | NewlyRevealed(g0, g2, rows, cols, p) ensures Reaches(g0, g2, rows, cols, {(r, c)}, p) {
      if p == (r, c) {
        var w := [(r, c)];
        assert Trail(g0, g2, rows, cols, w) && w[0] in {(r, c)} && w[|w| - 1] == p;
      } else {
        assert NewlyRevealed(g1, g2, rows, cols, p);
        assert g0[r][c].adjacent == 0;
        assert Opening(g2, rows, cols, (r, c));
        ReachedThroughOpening(g0, g1, g2, rows, cols, r, c, Ring(r, c), p);
      }
    }
  }

  /** A cell revealed by a cascade that starts next to the clicked opening
      (r, c) is reached by a trail from (r, c). */
  lemma ReachedThroughOpening(g0: Board, g1: Board, g2: Board, rows: int, cols: int,
                              r: int, c: int, from: set<Pos>, p: Pos)
    requires Shaped(g0, rows, cols) && Shaped(g1, rows, cols) && Shaped(g2, rows, cols)
    requires NewlyRevealed(g0, g2, rows, cols, (r, c))
    requires forall q | q in from :: Link(g2, rows, cols, (r, c), q)
    requires forall q :: NewlyRevealed(g1, g2, rows, cols, q) ==> NewlyRevealed(g0, g2, rows, cols, q)
    requires Spread(g1, g2, rows, cols, from)
    requires NewlyRevealed(g1, g2, rows, cols, p)
    ensures Reaches(g0, g2, rows, cols, {(r, c)}, p)
  {
    assert Reaches(g1, g2, rows, cols, from, p);
    var path :| Trail(g1, g2, rows, cols, path) && path[0] in from && path[|path| - 1] == p;
    TrailPrepend(g0, g1, g2, rows, cols, r, c, path);
    var w := [(r, c)] + path;
    assert w[0] in {(r, c)} && w[|w| - 1] == p;
  }

  /** A trail of the cascade that starts next to the clicked opening (r, c)
      extends back to (r, c). */
  lemma TrailPrepend(g0: Board, g1: Board, g2: Board, rows: int, cols: int, r: int, c: int, path: seq<Pos>)
    requires Shaped(g0, rows, cols) && Shaped(g1, rows, cols) && Shaped(g2, rows, cols)
    requires NewlyRevealed(g0, g2, rows, cols, (r, c))
    requires forall q :: NewlyRevealed(g1, g2, rows, cols, q) ==> NewlyRevealed(g0, g2, rows, cols, q)
    requires Trail(g1, g2, rows, cols, path) && Link(g2, rows, cols, (r, c), path[0])
    ensures Trail(g0, g2, rows, cols, [(r, c)] + path)
  {
    var longer := [(r, c)] + path;
    forall k | 0 <= k < |longer| ensures NewlyRevealed(g0, g2, rows, cols, longer[k]) {
      if k > 0 {
        assert longer[k] == path[k - 1];
      }
    }
    forall k | 0 <= k < |longer| - 1 ensures Link(g2, rows, cols, longer[k], longer[k + 1]) {
      if k > 0 {
        assert longer[k] == path[k - 1] && longer[k + 1] == path[k];
        assert Link(g2, rows, cols, path[k - 1], path[k]);
      }
    }
  }

  /** Trails only look at which cells were hidden on the first board, so
      a board with the same states has the same ones. */
  lemma SpreadSameStates(g0: Board, gm: Board, g: Board, rows: int, cols: int, from: set<Pos>)
    requires Shaped(g0, rows, cols) && Shaped(gm, rows, cols) && Shaped(g, rows, cols)
    requires forall i, j | InBounds(rows, cols, i, j) :: gm[i][j].state == g0[i][j].state
    requires Spread(gm, g, rows, cols, from)
    ensures Spread(g0, g, rows, cols, from)
  {
    forall p | NewlyRevealed(g0, g, rows, cols, p) ensures Reaches(g0, g, rows, cols, from, p) {
      assert NewlyRevealed(gm, g, rows, cols, p) && Reaches(gm, g, rows, cols, from, p);
      var path :| Trail(gm, g, rows, cols, path) && path[0] in from && path[|path| - 1] == p;
      TrailTransfer(gm, g, g0, g, rows, cols, path);
    }
  }

  /** Boards that agree on every cell are equal. */
  lemma BoardsEqual(g: Board, h: Board, rows: int, cols: int)
    requires Shaped(g, rows, cols) && Shaped(h, rows, cols)
    requires forall i, j | InBounds(rows, cols, i, j) :: g[i][j] == h[i][j]
    ensures g == h
  {
    forall i | 0 <= i < rows ensures g[i] == h[i] {
      forall j | 0 <= j < cols ensures g[i][j] == h[i][j] {
        assert InBounds(rows, cols, i, j);
      }
    }
  }

  /** A cascade that is settled on gB covers every trail of another one
      from the same board with the same layout and the same first cell. */
  lemma {:induction false} TrailCovered(g0: Board, gA: Board, gB: Board, rows: int, cols: int, path: seq<Pos>)
    requires Shaped(g0, rows, cols) && Shaped(gA, rows, cols) && Shaped(gB, rows, cols)
    requires SameLayout(gA, gB, rows, cols)
    requires Unveils(g0, gB, rows, cols) && Settled(g0, gB, rows, cols)
    requires Trail(g0, gA, rows, cols, path) && NewlyRevealed(g0, gB, rows, cols, path[0])
    ensures NewlyRevealed(g0, gB, rows, cols, path[|path| - 1])
    decreases |path|
  {
    if |path| > 1 {
      var front := path[..|path| - 1];
      assert Trail(g0, gA, rows, cols, front) by {
        forall k | 0 <= k < |front| ensures NewlyRevealed(g0, gA, rows, cols, front[k]) {
          assert front[k] == path[k];
        }
        forall k | 0 <= k < |front| - 1 ensures Link(gA, rows, cols, front[k], front[k + 1]) {
          assert front[k] == path[k] && front[k + 1] == path[k + 1];
          assert Link(gA, rows, cols, path[k], path[k + 1]);
        }
      }
      TrailCovered(g0, gA, gB, rows, cols, front);
      var a, b := path[|path| - 2], path[|path| - 1];
      assert Link(gA, rows, cols, path[|path| - 2], path[|path| - 2 + 1]);
      assert NoHiddenAround(gB, rows, cols, a.0, a.1);
      var i := RingIndex(a.0, a.1, b);
      assert NewlyRevealed(g0, gA, rows, cols, b);
      assert gB[b.0][b.1].state != Hidden;
    }
  }

  /** A trail that does not start at an opening goes nowhere. */
  lemma TrailStaysPut(g0: Board, g: Board, rows: int, cols: int, path: seq<Pos>)
    requires Shaped(g0, rows, cols) && Shaped(g, rows, cols)
    requires Trail(g0, g, rows, cols, path) && !Opening(g, rows, cols, path[0])
    ensures |path| == 1
  {
    assert |path| > 1 ==> Link(g, rows, cols, path[0], path[0 + 1]);
  }

  /** A cascade from (r, c) that is not an opening reveals (r, c) alone. */
  lemma SpreadFromNumbered(g0: Board, g: Board, rows: int, cols: int, r: int, c: int)
    requires Shaped(g0, rows, cols) && Shaped(g, rows, cols)
    requires Spread(g0, g, rows, cols, {(r, c)}) && !Opening(g, rows, cols, (r, c))
    ensures forall p | NewlyRevealed(g0, g, rows, cols, p) :: p == (r, c)
  {
    forall p | NewlyRevealed(g0, g, rows, cols, p) ensures p == (r, c) {
      assert Reaches(g0, g, rows, cols, {(r, c)}, p);
      var path :| Trail(g0, g, rows, cols, path) && path[0] in {(r, c)} && path[|path| - 1] == p;
      TrailStaysPut(g0, g, rows, cols, path);
    }
  }

  /** Two cascades from (r, c) over the same layout, the second settled:
      whatever the first reveals, the second reveals too. */
  lemma NewlyCovered(g0: Board, gA: Board, gB: Board, rows: int, cols: int, r: int, c: int)
    requires Shaped(g0, rows, cols) && Shaped(gA, rows, cols) && Shaped(gB, rows, cols)
    requires SameLayout(g0, gA, rows, cols) && SameLayout(g0, gB, rows, cols)
    requires Spread(g0, gA, rows, cols, {(r, c)})
    requires Unveils(g0, gB, rows, cols) && Settled(g0, gB, rows, cols) && NewlyRevealed(g0, gB, rows, cols, (r, c))
    ensures forall p | NewlyRevealed(g0, gA, rows, cols, p) :: NewlyRevealed(g0, gB, rows, cols, p)
  {
    assert SameLayout(gA, gB, rows, cols);
    forall p | NewlyRevealed(g0, gA, rows, cols, p) ensures NewlyRevealed(g0, gB, rows, cols, p) {
      assert Reaches(g0, gA, rows, cols, {(r, c)}, p);
      var path :| Trail(g0, gA, rows, cols, path) && path[0] in {(r, c)} && path[|path| - 1] == p;
      TrailCovered(g0, gA, gB, rows, cols, path);
    }
  }
}

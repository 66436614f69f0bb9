/** The minesweeper game: a board whose mines are placed on the first
    reveal, a cascading reveal, flag toggling, and the end of the game on a
    mine (loss) or once every safe cell is revealed (win). */
module Minesweeper {
  import opened Grid
  import opened MinesweeperBoard

  /** The fixed configuration of the game: FILAS, COLUMNAS and MINAS. */
  const StandardRows := 16
  const StandardCols := 16
  const StandardMines := 40

  /** The fixed configuration meets what a game requires of its dimensions
      and mine count: there is room for every mine and a safe first cell. */
  lemma StandardFits()
    ensures 0 < StandardRows && 0 < StandardCols && 0 < StandardMines < StandardRows * StandardCols
  {
  }

  /** What holds of a game between moves: the dimensions and the mine count
      are positive with room for a safe cell; before the first reveal there
      are no mines and nothing is revealed; afterwards there are exactly
      `mines` mines and every safe cell carries its count; a won game is over
      with every safe cell revealed; a lost game shows every mine; and unless
      the game is lost the counter is the mine count minus the flags. */
  ghost predicate Consistent(g: Board, rows: int, cols: int, mines: int,
                             firstClick: bool, over: bool, won: bool, flagsLeft: int)
  {
    && 0 < rows && 0 < cols && 0 < mines < rows * cols
    && Shaped(g, rows, cols)
    && (firstClick ==> MineSet(g, rows, cols) == {} && !over && NoneRevealed(g, rows, cols))
    && (!firstClick ==> |MineSet(g, rows, cols)| == mines && Numbered(g, rows, cols))
    && (won ==> over && AllSafeRevealed(g, rows, cols))
    && (over && !won ==> AllMinesRevealed(g, rows, cols))
    && ((over && !won) || flagsLeft == mines - |FlagSet(g, rows, cols)|)
  }

  // ---------------------------------------------------------------------
  // The steps of revelar_celda, one lemma each

  /** Placing the mines on the first reveal leaves a consistent game past
      its first click. */
  lemma MinesPlaced(g0: Board, g1: Board, rows: int, cols: int, mines: int, flagsLeft: int)
    requires Consistent(g0, rows, cols, mines, true, false, false, flagsLeft)
    requires Shaped(g1, rows, cols) && |MineSet(g1, rows, cols)| == mines && Numbered(g1, rows, cols)
    requires FlagSet(g1, rows, cols) == FlagSet(g0, rows, cols)
    ensures Consistent(g1, rows, cols, mines, false, false, false, flagsLeft)
  {
  }

  /** Revealing one hidden cell of a running game keeps it consistent and
      takes that cell out of the hidden ones. */
  lemma Uncovered(g0: Board, g1: Board, rows: int, cols: int, mines: int, flagsLeft: int, r: int, c: int)
    requires Consistent(g0, rows, cols, mines, false, false, false, flagsLeft)
    requires InBounds(rows, cols, r, c) && g0[r][c].state == Hidden
    requires g1 == Put(g0, rows, cols, r, c, g0[r][c].(state := Revealed))
    ensures Consistent(g1, rows, cols, mines, false, false, false, flagsLeft)
    ensures SameLayout(g0, g1, rows, cols)
    ensures HiddenCount(g1, rows, cols) < HiddenCount(g0, rows, cols)
  {
    PutStateKeepsLayout(g0, rows, cols, r, c, Revealed);
    RevealKeepsFlags(g0, rows, cols, r, c);
    RevealShrinksHidden(g0, rows, cols, r, c);
  }

  /** Revealing a mine and then every mine leaves a consistent lost game. */
  lemma Lost(g0: Board, g1: Board, g2: Board, rows: int, cols: int, mines: int, flagsLeft: int, r: int, c: int)
    requires Consistent(g0, rows, cols, mines, false, false, false, flagsLeft)
    requires InBounds(rows, cols, r, c) && g0[r][c].mine
    requires g1 == Put(g0, rows, cols, r, c, g0[r][c].(state := Revealed))
    requires Shaped(g2, rows, cols) && Exploded(g1, g2, rows, cols)
    ensures Consistent(g2, rows, cols, mines, false, true, false, flagsLeft)
    ensures Exploded(g0, g2, rows, cols) && SameLayout(g0, g2, rows, cols)
  {
    ExplodedAfterReveal(g0, g1, g2, rows, cols, r, c);
    SameLayoutKeepsMines(g0, g2, rows, cols);
  }

  /** One turn of the cascade around a safe zero cell (r, c): whatever the
      reveal of neighbour i did, the cascade so far still only unveils safe
      cells, keeps the layout and leaves no zero cell with a hidden
      neighbour, and neighbour i is no longer hidden. */
  lemma CascadeStep(g1: Board, gb: Board, g2: Board, rows: int, cols: int, mines: int, flagsLeft: int,
                    r: int, c: int, i: int, overB: bool, wonB: bool, first2: bool, over2: bool, won2: bool)
    requires Consistent(gb, rows, cols, mines, false, overB, wonB, flagsLeft) && (overB ==> wonB)
    requires Shaped(g1, rows, cols) && InBounds(rows, cols, r, c) && !g1[r][c].mine && g1[r][c].adjacent == 0
    requires SameLayout(g1, gb, rows, cols) && Unveils(g1, gb, rows, cols) && Settled(g1, gb, rows, cols)
    requires 0 <= i < |Around|
    requires Consistent(g2, rows, cols, mines, first2, over2, won2, flagsLeft)
    requires RevealOutcome(gb, false, overB, wonB, g2, first2, over2, won2,
                           rows, cols, r + Around[i].0, c + Around[i].1)
    ensures !first2 && (over2 ==> won2)
    ensures SameLayout(g1, g2, rows, cols) && Unveils(g1, g2, rows, cols) && Settled(g1, g2, rows, cols)
    ensures Unveils(gb, g2, rows, cols)
    ensures InBounds(rows, cols, r + Around[i].0, c + Around[i].1) ==>
      g2[r + Around[i].0][c + Around[i].1].state != Hidden && !g2[r + Around[i].0][c + Around[i].1].mine
  {
    var nr, nc := r + Around[i].0, c + Around[i].1;
    ZeroCountNeighbourSafe(gb, rows, cols, r, c, i);
    if InBounds(rows, cols, nr, nc) && gb[nr][nc].state == Hidden && !overB {
      assert !g2[nr][nc].mine;
      Chain(g1, gb, g2, rows, cols);
    } else if InBounds(rows, cols, nr, nc) && overB {
      assert !gb[nr][nc].mine;
    }
  }

  /** One turn of the cascade around (r, c), for its trails: every cell it
      has uncovered so far is still reached by a trail from a cell around
      (r, c). */
  lemma CascadeSpread(g1: Board, gb: Board, g2: Board, rows: int, cols: int,
                      r: int, c: int, i: int, overB: bool, wonB: bool, first2: bool, over2: bool, won2: bool)
    requires Shaped(g1, rows, cols) && Shaped(gb, rows, cols) && Shaped(g2, rows, cols)
    requires Unveils(g1, gb, rows, cols) && Unveils(gb, g2, rows, cols)
    requires Spread(g1, gb, rows, cols, Ring(r, c))
    requires 0 <= i < |Around|
    requires InBounds(rows, cols, r + Around[i].0, c + Around[i].1) ==> !g2[r + Around[i].0][c + Around[i].1].mine
    requires RevealOutcome(gb, false, overB, wonB, g2, first2, over2, won2,
                           rows, cols, r + Around[i].0, c + Around[i].1)
    ensures Spread(g1, g2, rows, cols, Ring(r, c))
  {
    var nr, nc := r + Around[i].0, c + Around[i].1;
    if InBounds(rows, cols, nr, nc) && gb[nr][nc].state == Hidden && !overB {
      AroundInRing(r, c, i);
      SpreadStep(g1, gb, g2, rows, cols, Ring(r, c), (nr, nc));
    }
  }

  /** Neighbours 0 .. i - 1 stay uncovered as the cascade goes on; with
      neighbour i uncovered too, the first i + 1 are. */
  lemma ClearedGrows(gb: Board, g2: Board, rows: int, cols: int, r: int, c: int, i: int)
    requires Shaped(gb, rows, cols) && Shaped(g2, rows, cols) && 0 <= i < |Around|
    requires ClearedUpTo(gb, rows, cols, r, c, i) && Unveils(gb, g2, rows, cols)
    requires InBounds(rows, cols, r + Around[i].0, c + Around[i].1) ==>
      g2[r + Around[i].0][c + Around[i].1].state != Hidden
    ensures ClearedUpTo(g2, rows, cols, r, c, i + 1)
  {
    forall j | 0 <= j < i + 1 && j < |Around| && InBounds(rows, cols, r + Around[j].0, c + Around[j].1)
      ensures g2[r + Around[j].0][c + Around[j].1].state != Hidden
    {
      if j < i {
        assert gb[r + Around[j].0][c + Around[j].1].state != Hidden;
      }
    }
  }

  /** Toggling the flag of a cell that is not revealed in a running game
      keeps it consistent, with the counter moved by one the other way. */
  lemma FlagToggled(g0: Board, g1: Board, rows: int, cols: int, mines: int,
                    firstClick: bool, flagsLeft: int, r: int, c: int, s: CellState)
    requires Consistent(g0, rows, cols, mines, firstClick, false, false, flagsLeft)
    requires InBounds(rows, cols, r, c) && g0[r][c].state != Revealed && s != Revealed
    requires (s == Flagged) != (g0[r][c].state == Flagged)
    requires g1 == Put(g0, rows, cols, r, c, g0[r][c].(state := s))
    ensures Consistent(g1, rows, cols, mines, firstClick, false, false,
                       flagsLeft + (if s == Flagged then -1 else 1))
    ensures KeepsRevealed(g0, g1, rows, cols)
  {
    FlagCount(g0, rows, cols, r, c, s);
    PutStateKeepsLayout(g0, rows, cols, r, c, s);
    if firstClick {
      PutStateNoneRevealed(g0, rows, cols, r, c, s);
    }
  }

  /** What revelar_celda promises for a click on (r, c), taking the game
      from board g0 (first0, over0, won0) to board g (first, over, won):
      - a click off the board, on a cell that is not hidden or in a game that
        is over changes nothing;
      - otherwise the clicked cell ends revealed and the mines are placed;
      - the first click never hits a mine;
      - the mines and counts stay as they were once placed;
      - a click on a mine loses: the game is over, not won, and the board is
        the old one with every mine shown;
      - a click on a safe cell only uncovers safe cells, each reached from
        (r, c) by a trail through revealed cells with no mine around them;
        it leaves no such cell with a hidden neighbour; and the game is won,
        and over, exactly when every safe cell is revealed. */
  ghost predicate RevealOutcome(g0: Board, first0: bool, over0: bool, won0: bool,
                                g: Board, first: bool, over: bool, won: bool,
                                rows: int, cols: int, r: int, c: int)
    requires Shaped(g0, rows, cols) && Shaped(g, rows, cols)
  {
    var effective := InBounds(rows, cols, r, c) && g0[r][c].state == Hidden && !over0;
    && (!effective ==> g == g0 && first == first0 && over == over0 && won == won0)
    && (effective ==> !first && g[r][c].state == Revealed)
    && (effective && first0 ==> !g[r][c].mine)
    && (!first0 ==> SameLayout(g0, g, rows, cols))
    && (effective && g[r][c].mine ==> over && !won && Exploded(g0, g, rows, cols))
    && (effective && !g[r][c].mine ==>
          && Unveils(g0, g, rows, cols) && Spread(g0, g, rows, cols, {(r, c)}) && Settled(g0, g, rows, cols)
          && over == won && (won <==> AllSafeRevealed(g, rows, cols)))
  }

  /** A click on a safe cell with a mine next to it reveals that cell and
      no other. */
  lemma NumberedClickRevealsOne(g0: Board, first0: bool, over0: bool, won0: bool,
                                g: Board, first: bool, over: bool, won: bool,
                                rows: int, cols: int, r: int, c: int)
    requires Shaped(g0, rows, cols) && Shaped(g, rows, cols)
    requires RevealOutcome(g0, first0, over0, won0, g, first, over, won, rows, cols, r, c)
    requires InBounds(rows, cols, r, c) && g0[r][c].state == Hidden && !over0
    requires !g[r][c].mine && g[r][c].adjacent != 0
    ensures g[r][c].state == Revealed
    ensures forall i, j | InBounds(rows, cols, i, j) && (i, j) != (r, c) :: g[i][j].state == g0[i][j].state
  {
    SpreadFromNumbered(g0, g, rows, cols, r, c);
    forall i, j | InBounds(rows, cols, i, j) && (i, j) != (r, c) ensures g[i][j].state == g0[i][j].state {
      assert NewlyRevealed(g0, g, rows, cols, (i, j)) ==> (i, j) == (r, c);
    }
  }

  /** Once the mines are placed RevealOutcome leaves no freedom: two
      results of the same click that both meet it are the same board and
      the same game state. The cells a safe click reveals are therefore
      exactly those the cascade reaches, and its trails and closure pin
      them down. */
  lemma RevealOutcomeUnique(g0: Board, over0: bool, won0: bool,
                            gA: Board, firstA: bool, overA: bool, wonA: bool,
                            gB: Board, firstB: bool, overB: bool, wonB: bool,
                            rows: int, cols: int, r: int, c: int)
    requires Shaped(g0, rows, cols) && Shaped(gA, rows, cols) && Shaped(gB, rows, cols)
    requires RevealOutcome(g0, false, over0, won0, gA, firstA, overA, wonA, rows, cols, r, c)
    requires RevealOutcome(g0, false, over0, won0, gB, firstB, overB, wonB, rows, cols, r, c)
    ensures gA == gB && firstA == firstB && overA == overB && wonA == wonB
  {
    if InBounds(rows, cols, r, c) && g0[r][c].state == Hidden && !over0 {
      if g0[r][c].mine {
        forall i, j | InBounds(rows, cols, i, j) ensures gA[i][j] == gB[i][j] { }
      } else {
        assert NewlyRevealed(g0, gA, rows, cols, (r, c)) && NewlyRevealed(g0, gB, rows, cols, (r, c));
        NewlyCovered(g0, gA, gB, rows, cols, r, c);
        NewlyCovered(g0, gB, gA, rows, cols, r, c);
        forall i, j | InBounds(rows, cols, i, j) ensures gA[i][j] == gB[i][j] {
          assert NewlyRevealed(g0, gA, rows, cols, (i, j)) == NewlyRevealed(g0, gB, rows, cols, (i, j));
        }
      }
      BoardsEqual(gA, gB, rows, cols);
    }
  }

  /** A click that revelar_celda ignores. */
  lemma IgnoredClick(g0: Board, first0: bool, over0: bool, won0: bool, rows: int, cols: int, r: int, c: int)
    requires Shaped(g0, rows, cols)
    requires !(InBounds(rows, cols, r, c) && g0[r][c].state == Hidden && !over0)
    ensures RevealOutcome(g0, first0, over0, won0, g0, first0, over0, won0, rows, cols, r, c)
  {
  }

  /** A click on a mine of a game whose mines are placed: the game ends
      lost with every mine shown. */
  lemma LostClick(gm: Board, g1: Board, g2: Board,
                  rows: int, cols: int, mines: int, flagsLeft: int, r: int, c: int)
    requires Consistent(gm, rows, cols, mines, false, false, false, flagsLeft)
    requires InBounds(rows, cols, r, c) && gm[r][c].state == Hidden && gm[r][c].mine
    requires g1 == Put(gm, rows, cols, r, c, gm[r][c].(state := Revealed))
    requires Shaped(g2, rows, cols) && Exploded(g1, g2, rows, cols)
    ensures Consistent(g2, rows, cols, mines, false, true, false, flagsLeft)
    ensures RevealOutcome(gm, false, false, false, g2, false, true, false, rows, cols, r, c)
  {
    Lost(gm, g1, g2, rows, cols, mines, flagsLeft, r, c);
  }

  /** A click on a safe cell, after the cascade (if any) and the victory
      check. */
  lemma SafeClick(gm: Board, g1: Board, g2: Board,
                  rows: int, cols: int, mines: int, flagsLeft: int, r: int, c: int,
                  overB: bool, wonB: bool, over: bool, won: bool)
    requires Shaped(gm, rows, cols) && InBounds(rows, cols, r, c)
    requires gm[r][c].state == Hidden && !gm[r][c].mine
    requires g1 == Put(gm, rows, cols, r, c, gm[r][c].(state := Revealed))
    requires Shaped(g2, rows, cols)
    requires gm[r][c].adjacent != 0 ==> g2 == g1
    requires gm[r][c].adjacent == 0 ==>
      && SameLayout(g1, g2, rows, cols) && Unveils(g1, g2, rows, cols) && Settled(g1, g2, rows, cols)
      && Spread(g1, g2, rows, cols, Ring(r, c)) && NoHiddenAround(g2, rows, cols, r, c)
    requires Consistent(g2, rows, cols, mines, false, overB, wonB, flagsLeft) && (overB ==> wonB)
    requires AllSafeRevealed(g2, rows, cols) ==> won && over
    requires !AllSafeRevealed(g2, rows, cols) ==> won == wonB && over == overB
    ensures Consistent(g2, rows, cols, mines, false, over, won, flagsLeft)
    ensures RevealOutcome(gm, false, false, false, g2, false, over, won, rows, cols, r, c)
  {
    RevealStep(gm, g1, g2, rows, cols, r, c);
    SpreadFromClick(gm, g1, g2, rows, cols, r, c);
    Checked(g2, rows, cols, mines, flagsLeft, overB, wonB, over, won);
  }

  /** The mines placed on the first click change no state and leave the
      clicked cell safe, so what the reveal does from the board with its
      mines it does from the board before them. */
  lemma FirstClickSafe(g0: Board, first0: bool, gm: Board, g: Board, first: bool, over: bool, won: bool,
                       rows: int, cols: int, r: int, c: int)
    requires Shaped(g0, rows, cols) && Shaped(gm, rows, cols) && Shaped(g, rows, cols)
    requires InBounds(rows, cols, r, c) && g0[r][c].state == Hidden
    requires first0 ==> !gm[r][c].mine && forall i, j | InBounds(rows, cols, i, j) :: gm[i][j].state == g0[i][j].state
    requires !first0 ==> gm == g0
    requires RevealOutcome(gm, false, false, false, g, first, over, won, rows, cols, r, c)
    ensures RevealOutcome(g0, first0, false, false, g, first, over, won, rows, cols, r, c)
  {
    if first0 {
      assert gm[r][c].state == Hidden && SameLayout(gm, g, rows, cols);
      assert !g[r][c].mine;
      Rebase(g0, gm, g, rows, cols, {(r, c)});
    }
  }

  /** After the victory check a game that was not lost is won, and over,
      exactly when every safe cell is revealed. */
  lemma Checked(g: Board, rows: int, cols: int, mines: int, flagsLeft: int,
                over: bool, won: bool, over2: bool, won2: bool)
    requires Consistent(g, rows, cols, mines, false, over, won, flagsLeft) && (over ==> won)
    requires AllSafeRevealed(g, rows, cols) ==> won2 && over2
    requires !AllSafeRevealed(g, rows, cols) ==> won2 == won && over2 == over
    ensures Consistent(g, rows, cols, mines, false, over2, won2, flagsLeft)
    ensures over2 == won2 && (won2 <==> AllSafeRevealed(g, rows, cols))
  {
  }

  /** Placing mines changes no state, so what a reveal unveils from the
      board with its mines placed, it unveils from the board before. */
  lemma Rebase(g0: Board, gm: Board, g2: Board, rows: int, cols: int, from: set<Pos>)
    requires Shaped(g0, rows, cols) && Shaped(gm, rows, cols) && Shaped(g2, rows, cols)
    requires forall r, c | InBounds(rows, cols, r, c) :: gm[r][c].state == g0[r][c].state
    requires Unveils(gm, g2, rows, cols) && Settled(gm, g2, rows, cols) && Spread(gm, g2, rows, cols, from)
    ensures Unveils(g0, g2, rows, cols) && Settled(g0, g2, rows, cols) && Spread(g0, g2, rows, cols, from)
  {
    SpreadSameStates(g0, gm, g2, rows, cols, from);
    forall r, c | InBounds(rows, cols, r, c) && g0[r][c].state == Hidden && g2[r][c].state == Revealed
                  && !g2[r][c].mine && g2[r][c].adjacent == 0
      ensures NoHiddenAround(g2, rows, cols, r, c)
    {
      assert gm[r][c].state == Hidden;
    }
  }

  class Buscaminas {
    const rows: int
    const cols: int
    const mines: int
    /** tablero */
    var board: Board
    /** juego_terminado */
    var over: bool
    /** juego_ganado */
    var won: bool
    /** primer_click: no reveal has happened yet, so no mine is placed */
    var firstClick: bool
    /** minas_restantes: mines minus flags placed; not clamped, may go negative */
    var flagsLeft: int

    ghost predicate Valid()
      reads this
    {
      Consistent(board, rows, cols, mines, firstClick, over, won, flagsLeft)
    }

    /** A fresh game: every cell hidden and unmined, no flags, mines to be placed. */
    ghost predicate Fresh()
      reads this
    {
      && 0 <= rows && 0 <= cols
      && board == FreshBoard(rows, cols)
      && !over && !won && firstClick && flagsLeft == mines
    }

    constructor (rows: int, cols: int, mines: int)
      requires 0 < rows && 0 < cols && 0 < mines < rows * cols
      ensures this.rows == rows && this.cols == cols && this.mines == mines
      ensures Valid() && Fresh()
    {
      this.rows, this.cols, this.mines := rows, cols, mines;
      board := FreshBoard(rows, cols);
      over, won, firstClick, flagsLeft := false, false, true, mines;
      new;
      FreshBoardFacts();
    }

    lemma FreshBoardFacts()
      requires 0 < rows && 0 < cols
      ensures MineSet(FreshBoard(rows, cols), rows, cols) == {}
      ensures FlagSet(FreshBoard(rows, cols), rows, cols) == {}
      ensures NoneRevealed(FreshBoard(rows, cols), rows, cols)
    {
      var g := FreshBoard(rows, cols);
      forall p: Pos | p in Cells(rows, cols) ensures g[p.0][p.1] == FreshCell { }
    }

    /** reiniciar: a fresh game with the same dimensions and mine count. */
    method Restart()
      requires Valid()
      modifies this
      ensures Valid() && Fresh()
    {
      board := FreshBoard(rows, cols);
      over, won, firstClick, flagsLeft := false, false, true, mines;
      FreshBoardFacts();
    }

    /** calcular_numeros, the count for one cell: the mines among the eight
        cells around (r, c) that lie on the board. */
    method CountAdjacent(r: int, c: int) returns (count: int)
      requires Shaped(board, rows, cols)
      ensures count == |MinedNeighbours(board, rows, cols, r, c)|
      ensures 0 <= count <= 8
    {
      count := 0;
      for i := 0 to |Around|
        invariant count == MinesAmong(board, rows, cols, r, c, Around[..i])
      {
        var nr, nc := r + Around[i].0, c + Around[i].1;
        assert Around[..i + 1][..i] == Around[..i];
        if 0 <= nr < rows && 0 <= nc < cols {
          if board[nr][nc].mine {
            count := count + 1;
          }
        }
      }
      assert Around[..|Around|] == Around;
      CountIsMinedNeighbours(board, rows, cols, r, c);
    }

    /** calcular_numeros: every safe cell gets the number of mines around
        it; mines, states and the counts of mined cells are left alone. */
    method ComputeNumbers()
      requires Shaped(board, rows, cols)
      modifies this`board
      ensures Shaped(board, rows, cols)
      ensures forall r, c | InBounds(rows, cols, r, c) ::
        && board[r][c].mine == old(board[r][c].mine)
        && board[r][c].state == old(board[r][c].state)
        && board[r][c].adjacent == if board[r][c].mine then old(board[r][c].adjacent)
                                   else |MinedNeighbours(old(board), rows, cols, r, c)|
      ensures Numbered(board, rows, cols)
    {
      ghost var g0: Board := board;
      for r := 0 to rows
        invariant Shaped(board, rows, cols)
        invariant forall i, j | InBounds(rows, cols, i, j) ::
          board[i][j].mine == g0[i][j].mine && board[i][j].state == g0[i][j].state
        invariant forall i, j | InBounds(rows, cols, i, j) && (i >= r || g0[i][j].mine) ::
          board[i][j] == g0[i][j]
        invariant forall i, j | InBounds(rows, cols, i, j) && i < r && !g0[i][j].mine ::
          board[i][j].adjacent == |MinedNeighbours(g0, rows, cols, i, j)|
      {
        for c := 0 to cols
          invariant Shaped(board, rows, cols)
          invariant forall i, j | InBounds(rows, cols, i, j) ::
            board[i][j].mine == g0[i][j].mine && board[i][j].state == g0[i][j].state
          invariant forall i, j | InBounds(rows, cols, i, j) && (i > r || (i == r && j >= c) || g0[i][j].mine) ::
            board[i][j] == g0[i][j]
          invariant forall i, j | InBounds(rows, cols, i, j) && (i < r || (i == r && j < c)) && !g0[i][j].mine ::
            board[i][j].adjacent == |MinedNeighbours(g0, rows, cols, i, j)|
        {
          if !board[r][c].mine {
            var count := CountAdjacent(r, c);
            SameMines(g0, board, rows, cols);
            board := Put(board, rows, cols, r, c, board[r][c].(adjacent := count));
          }
        }
      }
      forall r, c | InBounds(rows, cols, r, c) && !board[r][c].mine
        ensures board[r][c].adjacent == |MinedNeighbours(board, rows, cols, r, c)|
      {
        SameMines(g0, board, rows, cols);
      }
    }

    /** colocar_minas: `mines` distinct cells other than (safeRow, safeCol)
        become mined, then every count is computed. Each mine goes to a cell
        chosen freely among those that are neither mined yet nor the safe one,
        which is what the random retry loop of the game ends up doing. */
    method PlaceMines(safeRow: int, safeCol: int)
      requires 0 < rows && 0 < cols && 0 < mines < rows * cols
      requires Shaped(board, rows, cols) && MineSet(board, rows, cols) == {}
      requires InBounds(rows, cols, safeRow, safeCol)
      modifies this`board
      ensures Shaped(board, rows, cols)
      ensures |MineSet(board, rows, cols)| == mines
      ensures (safeRow, safeCol) !in MineSet(board, rows, cols) && !board[safeRow][safeCol].mine
      ensures Numbered(board, rows, cols)
      ensures forall r, c | InBounds(rows, cols, r, c) :: board[r][c].state == old(board[r][c].state)
      ensures FlagSet(board, rows, cols) == FlagSet(old(board), rows, cols)
      ensures HiddenSet(board, rows, cols) == HiddenSet(old(board), rows, cols)
    {
      ghost var g0: Board := board;
      var placed := 0;
      while placed < mines
        invariant 0 <= placed <= mines
        invariant Shaped(board, rows, cols)
        invariant |MineSet(board, rows, cols)| == placed
        invariant (safeRow, safeCol) !in MineSet(board, rows, cols)
        invariant forall r, c | InBounds(rows, cols, r, c) :: board[r][c].state == old(board[r][c].state)
      {
        var taken := MineSet(board, rows, cols) + {(safeRow, safeCol)};
        FreeCellForMine(board, placed, (safeRow, safeCol));
        var p :| p in Cells(rows, cols) - taken;
        AddMine(board, p, (safeRow, safeCol));
        board := Put(board, rows, cols, p.0, p.1, board[p.0][p.1].(mine := true));
        placed := placed + 1;
      }
      ghost var placedBoard: Board := board;
      ComputeNumbers();
      SameMines(placedBoard, board, rows, cols);
      SameStates(g0, board, rows, cols);
      assert (safeRow, safeCol) in Cells(rows, cols);
    }

    lemma FreeCellForMine(g: Board, placed: int, safe: Pos)
      requires 0 < rows && 0 < cols && Shaped(g, rows, cols)
      requires |MineSet(g, rows, cols)| == placed < mines < rows * cols && safe !in MineSet(g, rows, cols)
      ensures Cells(rows, cols) - (MineSet(g, rows, cols) + {safe}) != {}
    {
      FreeCell(rows, cols, MineSet(g, rows, cols) + {safe});
    }

    lemma AddMine(g: Board, p: Pos, safe: Pos)
      requires Shaped(g, rows, cols)
      requires InBounds(rows, cols, p.0, p.1) && !g[p.0][p.1].mine && p != safe
      requires safe !in MineSet(g, rows, cols)
      ensures var g' := Put(g, rows, cols, p.0, p.1, g[p.0][p.1].(mine := true));
        && MineSet(g', rows, cols) == MineSet(g, rows, cols) + {p}
        && |MineSet(g', rows, cols)| == |MineSet(g, rows, cols)| + 1
        && safe !in MineSet(g', rows, cols)
        && forall r, c | InBounds(rows, cols, r, c) :: g'[r][c].state == g[r][c].state
    {
      var g' := Put(g, rows, cols, p.0, p.1, g[p.0][p.1].(mine := true));
      assert p !in MineSet(g, rows, cols);
      PlaceMineAdds(g, rows, cols, p.0, p.1);
      assert MineSet(g', rows, cols) == MineSet(g, rows, cols) + {p};
      assert safe !in MineSet(g, rows, cols) + {p};
    }

    /** revelar_todas_minas: every mined cell becomes revealed, whatever
        its state was; nothing else changes. */
    method RevealAllMines()
      requires Shaped(board, rows, cols)
      modifies this`board
      ensures Shaped(board, rows, cols)
      ensures Exploded(old(board), board, rows, cols)
    {
      ghost var g0: Board := board;
      for r := 0 to rows
        invariant Shaped(board, rows, cols)
        invariant forall i, j | InBounds(rows, cols, i, j) ::
          board[i][j] == if i < r && g0[i][j].mine then g0[i][j].(state := Revealed) else g0[i][j]
      {
        for c := 0 to cols
          invariant Shaped(board, rows, cols)
          invariant forall i, j | InBounds(rows, cols, i, j) ::
            board[i][j] == if (i < r || (i == r && j < c)) && g0[i][j].mine
                           then g0[i][j].(state := Revealed) else g0[i][j]
        {
          if board[r][c].mine {
            board := Put(board, rows, cols, r, c, board[r][c].(state := Revealed));
          }
        }
      }
    }

    /** verificar_victoria: the game is won, and over, exactly when every
        safe cell is revealed; otherwise nothing changes. */
    method CheckVictory()
      requires Shaped(board, rows, cols)
      modifies this`won, this`over
      ensures AllSafeRevealed(board, rows, cols) ==> won && over
      ensures !AllSafeRevealed(board, rows, cols) ==> won == old(won) && over == old(over)
    {
      for r := 0 to rows
        invariant forall i, j | InBounds(rows, cols, i, j) && i < r && !board[i][j].mine ::
          board[i][j].state == Revealed
      {
        for c := 0 to cols
          invariant forall i, j | InBounds(rows, cols, i, j) && (i < r || (i == r && j < c)) && !board[i][j].mine ::
            board[i][j].state == Revealed
        {
          if !board[r][c].mine && board[r][c].state != Revealed {
            return;
          }
        }
      }
      won := true;
      over := true;
    }

    /** revelar_celda: see RevealOutcome. */
    method Reveal(r: int, c: int)
      requires Valid()
      modifies this`board, this`over, this`won, this`firstClick
      decreases HiddenCount(board, rows, cols), 1
      ensures Valid()
      ensures RevealOutcome(old(board), old(firstClick), old(over), old(won),
                            board, firstClick, over, won, rows, cols, r, c)
    {
      if !InBounds(rows, cols, r, c) || board[r][c].state != Hidden || over {
        IgnoredClick(board, firstClick, over, won, rows, cols, r, c);
        return;
      }
      ghost var g0: Board, first0 := board, firstClick;
      if firstClick {
        PlaceMines(r, c);
        firstClick := false;
        MinesPlaced(g0, board, rows, cols, mines, flagsLeft);
      }
      ghost var gm: Board := board;
      RevealHidden(r, c);
      FirstClickSafe(g0, first0, gm, board, firstClick, over, won, rows, cols, r, c);
    }

    /** revelar_celda once the click is known to count and the mines are
        placed: (r, c) is revealed; a mine ends the game lost, a cell with no
        mine around it starts the cascade, and then victory is checked. */
    method RevealHidden(r: int, c: int)
      requires Valid() && !firstClick && !over
      requires InBounds(rows, cols, r, c) && board[r][c].state == Hidden
      modifies this`board, this`over, this`won, this`firstClick
      decreases HiddenCount(board, rows, cols), 0
      ensures Valid()
      ensures RevealOutcome(old(board), false, false, false, board, firstClick, over, won, rows, cols, r, c)
    {
      ghost var gm: Board := board;
      board := Put(board, rows, cols, r, c, board[r][c].(state := Revealed));
      ghost var g1: Board := board;
      Uncovered(gm, g1, rows, cols, mines, flagsLeft, r, c);
      if board[r][c].mine {
        over := true;
        RevealAllMines();
        LostClick(gm, g1, board, rows, cols, mines, flagsLeft, r, c);
        return;
      }
      if board[r][c].adjacent == 0 {
        RevealAround(r, c);
      }
      ghost var overB, wonB := over, won;
      CheckVictory();
      SafeClick(gm, g1, board, rows, cols, mines, flagsLeft, r, c, overB, wonB, over, won);
    }

    /** The cascade of revelar_celda around a revealed safe cell (r, c)
        with no mine next to it: each of the eight cells around it is
        revealed in turn, in the order of Around. It only ever uncovers safe
        cells, each reached by a trail from a cell around (r, c), and when it
        is done no cell around (r, c) is hidden. */
    method RevealAround(r: int, c: int)
      requires Valid() && !firstClick && !over
      requires InBounds(rows, cols, r, c) && board[r][c].state == Revealed
      requires !board[r][c].mine && board[r][c].adjacent == 0
      modifies this`board, this`over, this`won, this`firstClick
      decreases HiddenCount(board, rows, cols), 2
      ensures Valid() && !firstClick && (over ==> won)
      ensures SameLayout(old(board), board, rows, cols) && Unveils(old(board), board, rows, cols)
      ensures Settled(old(board), board, rows, cols) && NoHiddenAround(board, rows, cols, r, c)
      ensures Spread(old(board), board, rows, cols, Ring(r, c))
    {
      ghost var g1: Board := board;
      for i := 0 to |Around|
        invariant Valid() && !firstClick && (over ==> won)
        invariant SameLayout(g1, board, rows, cols) && Unveils(g1, board, rows, cols)
        invariant Settled(g1, board, rows, cols) && ClearedUpTo(board, rows, cols, r, c, i)
        invariant Spread(g1, board, rows, cols, Ring(r, c))
      {
        ghost var gb: Board := board;
        ghost var overB, wonB := over, won;
        UnveilsKeepsFlags(g1, gb, rows, cols);
        Reveal(r + Around[i].0, c + Around[i].1);
        CascadeStep(g1, gb, board, rows, cols, mines, flagsLeft, r, c, i, overB, wonB, firstClick, over, won);
        CascadeSpread(g1, gb, board, rows, cols, r, c, i, overB, wonB, firstClick, over, won);
        ClearedGrows(gb, board, rows, cols, r, c, i);
      }
    }

    /** marcar_celda: a hidden cell becomes flagged and one fewer mine is
        left to flag; a flagged cell becomes hidden again and one more is
        left. Off the board, on a revealed cell or once the game is over,
        nothing changes. */
    method ToggleFlag(r: int, c: int)
      requires Valid()
      modifies this`board, this`flagsLeft
      ensures Valid()
      ensures !old(InBounds(rows, cols, r, c) && board[r][c].state != Revealed && !over) ==>
        board == old(board) && flagsLeft == old(flagsLeft)
      ensures old(InBounds(rows, cols, r, c) && board[r][c].state == Hidden && !over) ==>
        board == Put(old(board), rows, cols, r, c, old(board[r][c]).(state := Flagged))
        && flagsLeft == old(flagsLeft) - 1
      ensures old(InBounds(rows, cols, r, c) && board[r][c].state == Flagged && !over) ==>
        board == Put(old(board), rows, cols, r, c, old(board[r][c]).(state := Hidden))
        && flagsLeft == old(flagsLeft) + 1
      ensures KeepsRevealed(old(board), board, rows, cols)
    {
      if !InBounds(rows, cols, r, c) || board[r][c].state == Revealed || over {
        return;
      }
      ghost var g0: Board := board;
      if board[r][c].state == Hidden {
        board := Put(board, rows, cols, r, c, board[r][c].(state := Flagged));
        flagsLeft := flagsLeft - 1;
        FlagToggled(g0, board, rows, cols, mines, firstClick, old(flagsLeft), r, c, Flagged);
      } else if board[r][c].state == Flagged {
        board := Put(board, rows, cols, r, c, board[r][c].(state := Hidden));
        flagsLeft := flagsLeft + 1;
        FlagToggled(g0, board, rows, cols, mines, firstClick, old(flagsLeft), r, c, Hidden);
      }
    }

    /** Two flag toggles on the same cell undo each other: state and counter. */
    method ToggleTwice(r: int, c: int)
      requires Valid()
      modifies this`board, this`flagsLeft
      ensures Valid()
      ensures board == old(board) && flagsLeft == old(flagsLeft)
    {
      ghost var g0: Board := board;
      var live := InBounds(rows, cols, r, c) && board[r][c].state != Revealed && !over;
      ToggleFlag(r, c);
      if live {
        ghost var g1: Board := board;
        assert g1[r][c].state != Revealed;
        ToggleFlag(r, c);
        PutBack(g0, rows, cols, r, c, g1[r][c]);
        if g0[r][c].state == Hidden {
          assert g0[r][c].(state := Flagged).(state := Hidden) == g0[r][c];
        } else {
          assert g0[r][c].(state := Hidden).(state := Flagged) == g0[r][c];
        }
      } else {
        ToggleFlag(r, c);
      }
    }
  }
}

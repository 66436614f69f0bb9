/** Positions on a finite rectangular grid, shared by both games.
    A position is a pair of integers; the grid of extent (w, h) holds the
    pairs (x, y) with 0 <= x < w and 0 <= y < h. */
module Grid {

  type Pos = (int, int)

  predicate InBounds(w: int, h: int, x: int, y: int)
  {
    0 <= x < w && 0 <= y < h
  }

  /** The cells of column x: (x, 0) .. (x, h - 1). */
  function Line(x: int, h: int): (s: set<Pos>)
    requires 0 <= h
    ensures forall p :: p in s <==> p.0 == x && 0 <= p.1 < h
    ensures |s| == h
    decreases h
  {
    if h == 0 then {} else Line(x, h - 1) + {(x, h - 1)}
  }

  /** Every cell of the w-by-h grid. */
  function Cells(w: int, h: int): (s: set<Pos>)
    ensures forall p :: p in s <==> InBounds(w, h, p.0, p.1)
  {
    var s := set x, y | 0 <= x < w && 0 <= y < h :: (x, y);
    forall p: Pos | InBounds(w, h, p.0, p.1) ensures p in s {
      assert p == (p.0, p.1);
    }
    s
  }

  /** The grid of extent (w, h) has exactly w * h cells: the first w - 1
      columns and then one column of h more. */
  lemma {:induction false} CellsCount(w: int, h: int)
    requires 0 <= w && 0 <= h
    ensures |Cells(w, h)| == w * h
    decreases w
  {
    if w == 0 {
      assert Cells(w, h) == {} by {
        forall p | p in Cells(w, h) ensures false { }
      }
    } else {
      var front, last := Cells(w - 1, h), Line(w - 1, h);
      CellsCount(w - 1, h);
      assert front * last == {} by {
        forall p | p in front ensures p !in last { }
      }
      assert Cells(w, h) == front + last;
      MulStep(w, h);
    }
  }

  lemma MulStep(w: int, h: int)
    ensures (w - 1) * h + h == w * h
  {
  }

  /** A grid with more cells than `taken` holds still has a free cell. */
  lemma FreeCell(w: int, h: int, taken: set<Pos>)
    requires 0 <= w && 0 <= h
    requires |taken| < w * h
    ensures Cells(w, h) - taken != {}
  {
    var all := Cells(w, h);
    CellsCount(w, h);
    assert all == (all * taken) + (all - taken);
    assert taken == (all * taken) + (taken - all);
    assert |all - taken| >= |all| - |taken|;
  }

  predicate Distinct(s: seq<Pos>)
  {
    forall i, j :: 0 <= i < j < |s| ==> s[i] != s[j]
  }

  /** A sequence without repetitions occupies as many cells as it is long. */
  lemma {:induction false} DistinctSize(s: seq<Pos>)
    requires Distinct(s)
    ensures |set p | p in s| == |s|
  {
    if s != [] {
      var rest := s[1..];
      assert Distinct(rest) by {
        forall i, j | 0 <= i < j < |rest| ensures rest[i] != rest[j] {
          assert rest[i] == s[i + 1] && rest[j] == s[j + 1];
        }
      }
      DistinctSize(rest);
      assert (set p | p in s) == (set p | p in rest) + {s[0]};
      assert s[0] !in (set p | p in rest);
    }
  }
}

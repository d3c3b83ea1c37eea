/**
 The 3x3 grid of the game: its cells, the two players' marks, the eight
 winning lines and the two read-only queries on a grid (the win scan and the
 full-board test). Cells are numbered 0..8 row by row.
 */
module Board {

  datatype Option<+T> = None | Some(value: T)

  /** The two players; each owns the mark of the same name. */
  datatype Player = X | O

  /** The player who is not `p` (the `opponentMark` and `switchPlayer` toggle). */
  function Opponent(p: Player): (q: Player)
    ensures q != p
  {
    if p == X then O else X
  }

  /** A cell is empty (`null` in script.js) or holds one player's mark. */
  datatype Cell = Empty | Mark(player: Player)

  /** Number of cells of the grid. */
  const CellCount: nat := 9

  /** A grid is exactly nine cells. */
  predicate IsGrid(g: seq<Cell>) {
    |g| == CellCount
  }

  /** The grid at game start: nine empty cells. */
  function EmptyGrid(): (g: seq<Cell>)
    ensures IsGrid(g)
    ensures forall i :: 0 <= i < |g| ==> g[i] == Empty
  {
    seq(CellCount, _ => Empty)
  }

  /** A line of three cell indices. */
  datatype Line = Line(a: nat, b: nat, c: nat)

  /** The eight lines, in the order the win scan visits them:
      three rows, three columns, then the two diagonals. */
  const WinCombinations: seq<Line> := [
    Line(0, 1, 2), Line(3, 4, 5), Line(6, 7, 8),
    Line(0, 3, 6), Line(1, 4, 7), Line(2, 5, 8),
    Line(0, 4, 8), Line(2, 4, 6)
  ]

  /** Every line lies on the grid. */
  lemma WinCombinationsOnGrid()
    ensures forall k :: 0 <= k < |WinCombinations| ==>
      WinCombinations[k].a < CellCount && WinCombinations[k].b < CellCount && WinCombinations[k].c < CellCount
  {
  }

  /** The scan's test of one line: the first cell holds a mark and the
      other two hold the same thing. */
  predicate LineWon(g: seq<Cell>, l: Line) {
    l.a < |g| && l.b < |g| && l.c < |g| &&
    g[l.a] != Empty && g[l.a] == g[l.b] && g[l.a] == g[l.c]
  }

  /** Independent statement of a completed line: all three cells hold `p`'s mark. */
  predicate Owns(g: seq<Cell>, l: Line, p: Player) {
    l.a < |g| && l.b < |g| && l.c < |g| &&
    g[l.a] == Mark(p) && g[l.b] == Mark(p) && g[l.c] == Mark(p)
  }

  /** Line `k` of the scan is completed and no earlier line is. */
  predicate FirstCompleted(g: seq<Cell>, k: int, p: Player) {
    0 <= k < |WinCombinations| && Owns(g, WinCombinations[k], p) &&
    forall j, q :: 0 <= j < k ==> !Owns(g, WinCombinations[j], q)
  }

  /** The index of the first line, at or after `k`, that the scan accepts;
      `|WinCombinations|` when there is none. */
  function FirstWonLine(g: seq<Cell>, k: nat): (r: nat)
    requires k <= |WinCombinations|
    ensures k <= r <= |WinCombinations|
    ensures r < |WinCombinations| ==> LineWon(g, WinCombinations[r])
    ensures forall j :: k <= j < r ==> !LineWon(g, WinCombinations[j])
    decreases |WinCombinations| - k
  {
    if k == |WinCombinations| then k
    else if LineWon(g, WinCombinations[k]) then k
    else FirstWonLine(g, k + 1)
  }

  /** The scan's accepting test is exactly "some player owns the line". */
  lemma LineWonIsOwned(g: seq<Cell>, l: Line)
    ensures LineWon(g, l) <==> exists p :: Owns(g, l, p)
    ensures LineWon(g, l) ==> Owns(g, l, g[l.a].player)
  {
    if LineWon(g, l) {
      assert Owns(g, l, g[l.a].player);
    }
  }

  /** The result of a win scan: who won and along which line. */
  datatype Win = Win(winner: Player, combination: Line)

  /** The win scan: the first line, in the listed order, whose three cells
      hold the same mark, reported with that mark's owner; `None` exactly
      when no line is completed. */
  function CheckWin(g: seq<Cell>): (r: Option<Win>)
    ensures r.None? <==> forall k, p :: 0 <= k < |WinCombinations| ==> !Owns(g, WinCombinations[k], p)
    ensures r.Some? ==>
      exists k :: FirstCompleted(g, k, r.value.winner) && WinCombinations[k] == r.value.combination
  {
    var k := FirstWonLine(g, 0);
    if k < |WinCombinations| then
      LineWonIsOwned(g, WinCombinations[k]);
      assert forall j, q :: 0 <= j < k ==> !Owns(g, WinCombinations[j], q) by {
        forall j, q | 0 <= j < k ensures !Owns(g, WinCombinations[j], q) {
          LineWonIsOwned(g, WinCombinations[j]);
        }
      }
      Some(Win(g[WinCombinations[k].a].player, WinCombinations[k]))
    else
      assert forall j, q :: 0 <= j < |WinCombinations| ==> !Owns(g, WinCombinations[j], q) by {
        forall j, q | 0 <= j < |WinCombinations| ensures !Owns(g, WinCombinations[j], q) {
          LineWonIsOwned(g, WinCombinations[j]);
        }
      }
      None
  }

  /** Every cell holds a mark. */
  function IsBoardFull(g: seq<Cell>): (r: bool)
    ensures r <==> forall i :: 0 <= i < |g| ==> g[i] != Empty
  {
    if g == [] then true else g[0] != Empty && IsBoardFull(g[1..])
  }
}

/** The tic-tac-toe board, the computer's move and the parsing of the player's (tictactoe_gm.c, tictactoe_player.c). */
module TicTacToe {
  const GRID_SIZE := 9
  const EMPTY_ID := 0

  type Id = x: int | x != 0 witness 1
  type Positive = x: int | x > 0 witness 1

  const AI_ID: Id
  const PLAYER_ID: int := -(AI_ID as int)
  const MAX_DEPTH: Positive
  const MAX_BUFFER_LENGTH: Positive

  /** The eight lines, in the order of win: rows, columns, diagonals. */
  function Cell(line: nat, n: nat): (c: nat)
    requires line < 8 && n < 3
    ensures c < GRID_SIZE
  {
    if line < 3 then 3 * line + n
    else if line < 6 then line - 3 + 3 * n
    else if line == 6 then 4 * n
    else 2 + 2 * n
  }

  predicate Owns(grid: seq<int>, line: nat, id: int)
    requires |grid| == GRID_SIZE && line < 8
  {
    grid[Cell(line, 0)] == id && grid[Cell(line, 1)] == id && grid[Cell(line, 2)] == id
  }

  predicate HasLine(grid: seq<int>, id: int)
    requires |grid| == GRID_SIZE
  {
    exists line: nat :: line < 8 && Owns(grid, line, id)
  }

  datatype State = Progress | Won | Draw

  function StateOf(grid: seq<int>): State
    requires |grid| == GRID_SIZE
  {
    if HasLine(grid, PLAYER_ID) || HasLine(grid, AI_ID) then Won
    else if EMPTY_ID in grid then Progress
    else Draw
  }

  /** Line 158 and its seven siblings. */
  predicate Aligned(grid: seq<int>, a: nat, b: nat, c: nat)
    requires |grid| == GRID_SIZE && a < GRID_SIZE && b < GRID_SIZE && c < GRID_SIZE
  {
    (grid[a] == PLAYER_ID || grid[a] == AI_ID) && grid[a] == grid[b] && grid[b] == grid[c]
  }

  predicate SomeAligned(grid: seq<int>)
    requires |grid| == GRID_SIZE
  {
    || Aligned(grid, 0, 1, 2) || Aligned(grid, 3, 4, 5) || Aligned(grid, 6, 7, 8)
    || Aligned(grid, 0, 3, 6) || Aligned(grid, 1, 4, 7) || Aligned(grid, 2, 5, 8)
    || Aligned(grid, 0, 4, 8) || Aligned(grid, 2, 4, 6)
  }

  /** The code's eight tests find a line exactly when one of the two sides owns one. */
  lemma SomeAlignedIsLine(grid: seq<int>)
    requires |grid| == GRID_SIZE
    ensures SomeAligned(grid) <==> HasLine(grid, PLAYER_ID) || HasLine(grid, AI_ID)
  {
    forall line: nat | line < 8 && (Owns(grid, line, PLAYER_ID) || Owns(grid, line, AI_ID)) ensures SomeAligned(grid) {
    }
    if SomeAligned(grid) {
      var line: nat :=
        if Aligned(grid, 0, 1, 2) then 0 else if Aligned(grid, 3, 4, 5) then 1 else if Aligned(grid, 6, 7, 8) then 2
        else if Aligned(grid, 0, 3, 6) then 3 else if Aligned(grid, 1, 4, 7) then 4 else if Aligned(grid, 2, 5, 8) then 5
        else if Aligned(grid, 0, 4, 8) then 6 else 7;
      assert Owns(grid, line, PLAYER_ID) || Owns(grid, line, AI_ID);
    }
  }

  /** The eight lines are the rows, the columns and the two diagonals. */
  lemma LinesAre(grid: seq<int>, id: int)
    requires |grid| == GRID_SIZE
    ensures HasLine(grid, id) <==>
            || grid[0] == grid[1] == grid[2] == id || grid[3] == grid[4] == grid[5] == id || grid[6] == grid[7] == grid[8] == id
            || grid[0] == grid[3] == grid[6] == id || grid[1] == grid[4] == grid[7] == id || grid[2] == grid[5] == grid[8] == id
            || grid[0] == grid[4] == grid[8] == id || grid[2] == grid[4] == grid[6] == id
  {
    if HasLine(grid, id) {
      var line: nat :| line < 8 && Owns(grid, line, id);
    }
    assert (|| Owns(grid, 0, id) || Owns(grid, 1, id) || Owns(grid, 2, id) || Owns(grid, 3, id)
            || Owns(grid, 4, id) || Owns(grid, 5, id) || Owns(grid, 6, id) || Owns(grid, 7, id)) ==> HasLine(grid, id);
  }

  /** win: a line counts even on a full board, and only a full board without one is a draw. */
  method Win(grid: array<int>) returns (state: State)
    requires grid.Length == GRID_SIZE
    ensures state == Won <==> HasLine(grid[..], PLAYER_ID) || HasLine(grid[..], AI_ID)
    ensures state == Draw <==> !HasLine(grid[..], PLAYER_ID) && !HasLine(grid[..], AI_ID) && forall i :: 0 <= i < GRID_SIZE ==> grid[i] != EMPTY_ID
    ensures state == StateOf(grid[..])
  {
    SomeAlignedIsLine(grid[..]);
    if SomeAligned(grid[..]) {
      return Won;
    }
    var i := 0;
    while i < GRID_SIZE
      invariant 0 <= i <= GRID_SIZE && EMPTY_ID !in grid[..i]
    {
      if grid[i] == EMPTY_ID {
        return Progress;
      }
      i := i + 1;
    }
    return Draw;
  }

  /** minmax: it never looks for a winner, so that every score is 0. The grid comes back as it was. */
  method Minmax(grid: array<int>, player: int, depth: nat) returns (score: int)
    requires grid.Length == GRID_SIZE
    modifies grid
    ensures grid[..] == old(grid[..]) && score == 0
    decreases depth
  {
    if depth == 0 {
      return 0;
    }
    var move := -1;
    score := -2;
    var i := 0;
    while i < GRID_SIZE
      invariant 0 <= i <= GRID_SIZE && grid[..] == old(grid[..])
      invariant if move == -1 then score == -2 else score == 0
    {
      if grid[i] == EMPTY_ID {
        grid[i] := player;
        var next := Minmax(grid, -player, depth - 1);
        if -next > score {
          score, move := -next, i;
        }
        grid[i] := 0;
        assert grid[..] == old(grid[..]);
        if score > 0 {
          break;  // line 62: return score
        }
      }
      i := i + 1;
    }
    if move == -1 {
      return 0;
    }
  }

  /** The lowest empty cell, or GRID_SIZE. */
  function FirstEmpty(grid: seq<int>, n: nat): (c: nat)
    requires n <= |grid| == GRID_SIZE
    ensures c < n || c == GRID_SIZE
    ensures c < n ==> grid[c] == EMPTY_ID
    ensures forall i :: 0 <= i < n && i < c ==> grid[i] != EMPTY_ID
  {
    if n == 0 then GRID_SIZE
    else if FirstEmpty(grid, n - 1) < GRID_SIZE then FirstEmpty(grid, n - 1)
    else if grid[n - 1] == EMPTY_ID then n - 1 else GRID_SIZE
  }

  /** computers_turn: one more than the lowest empty cell, and 0 only when there is none. */
  method ComputersTurn(grid: array<int>) returns (turn: int)
    requires grid.Length == GRID_SIZE
    modifies grid
    ensures grid[..] == old(grid[..])
    ensures EMPTY_ID in grid[..] ==>
              1 <= turn <= GRID_SIZE && grid[turn - 1] == EMPTY_ID && turn - 1 == FirstEmpty(grid[..], GRID_SIZE)
    ensures EMPTY_ID !in grid[..] ==> turn == 0
  {
    var move, score := -1, -2;
    var i := 0;
    while i < GRID_SIZE
      invariant 0 <= i <= GRID_SIZE && grid[..] == old(grid[..])
      invariant -1 <= move < GRID_SIZE
      invariant if move == -1 then score == -2 && FirstEmpty(grid[..], i) == GRID_SIZE else score == 0 && FirstEmpty(grid[..], i) == move
    {
      if grid[i] == EMPTY_ID {
        grid[i] := AI_ID;
        var temp := Minmax(grid, AI_ID, MAX_DEPTH - 1);
        if -temp > score {
          score, move := -temp, i;
        }
        grid[i] := 0;
        assert grid[..] == old(grid[..]);
      }
      i := i + 1;
    }
    turn := move + 1;
  }

  // The player's input.

  predicate IsNumber(s: seq<char>) {
    forall i :: 0 <= i < |s| ==> '0' <= s[i] <= '9'
  }

  /** atoi on digits. */
  function Decimal(s: seq<char>): nat
    requires IsNumber(s)
  {
    if s == [] then 0 else 10 * Decimal(s[..|s| - 1]) + (s[|s| - 1] as int - '0' as int)
  }

  /** A number is from 1 to 9 exactly if it is a digit other than 0 after zeros only, and then it is that digit. */
  lemma {:induction false} OneDigit(s: seq<char>)
    requires IsNumber(s)
    ensures Decimal(s) == 0 <==> forall k :: 0 <= k < |s| ==> s[k] == '0'
    ensures s != [] ==>
              var last := |s| - 1;
              && (1 <= Decimal(s) <= 9 <==> s[last] != '0' && forall k :: 0 <= k < last ==> s[k] == '0')
              && (1 <= Decimal(s) <= 9 ==> Decimal(s) == s[last] as int - '0' as int)
  {
    if s != [] {
      var last := |s| - 1;
      OneDigit(s[..last]);
      assert forall k :: 0 <= k < last ==> s[..last][k] == s[k];
    }
  }

  /** parse_line: a short enough decimal number from 1 to 9, and nothing else, names a cell. */
  method ParseLine(str: seq<char>) returns (ok: bool, index: int)
    ensures ok <==> 0 < |str| < MAX_BUFFER_LENGTH && IsNumber(str) && 1 <= Decimal(str) <= 9
    ensures ok ==> 0 <= index < GRID_SIZE && index == Decimal(str) - 1
    ensures ok <==> && 0 < |str| < MAX_BUFFER_LENGTH && '1' <= str[|str| - 1] <= '9'
                    && forall k :: 0 <= k < |str| - 1 ==> str[k] == '0'
    ensures ok ==> index == str[|str| - 1] as int - '1' as int
  {
    index := -1;
    if |str| == 0 {
      return false, index;
    }
    var i := 0;
    var buffer: seq<char> := [];
    while i < MAX_BUFFER_LENGTH
      invariant 0 <= i <= |str| && i <= MAX_BUFFER_LENGTH
      invariant buffer == str[..i] && IsNumber(buffer)
    {
      if i < |str| && '0' <= str[i] <= '9' {
        buffer := buffer + [str[i]];
        i := i + 1;
      } else if i == |str| {
        assert buffer == str;
        OneDigit(buffer);
        index := Decimal(buffer);
        if index <= 0 || index > 9 {
          return false, index;
        }
        return true, index - 1;
      } else {
        return false, index;
      }
    }
    return false, index;
  }
}

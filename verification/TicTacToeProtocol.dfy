/** One game between the two processes over two FIFO queues (tictactoe_gm.c, tictactoe_player.c). */
module TicTacToeProtocol {
  import opened TicTacToe
  import opened Runs

  datatype Cmd = GameStart | YouCanPlay | MoveRejected | YouWin | YouLose | NoWinner | GameEnd

  /** Where the manager is: before GAME_START, at the loop's test, in gm_get_cmd, before check_game_state, or done. */
  datatype Point = Start | Loop | Await | Check | Done

  datatype Manager = Manager(at: Point, grid: seq<int>, over: bool, player: int, move: int)

  function Other(id: int): int {
    if id == PLAYER_ID then AI_ID else PLAYER_ID
  }

  predicate Legal(grid: seq<int>, move: int)
    requires |grid| == GRID_SIZE
  {
    0 <= move < GRID_SIZE && grid[move] == EMPTY_ID
  }

  /** The board has room for the computer, if it is its turn. */
  predicate Ready(g: Manager) {
    |g.grid| == GRID_SIZE && (!g.over && g.player != PLAYER_ID ==> EMPTY_ID in g.grid)
  }

  /** From the loop's test on, with the messages sent. */
  function Round(g: Manager): (Manager, seq<Cmd>)
    requires Ready(g)
  {
    if g.over then (g.(at := Done), [GameEnd])
    else if g.player == PLAYER_ID then (g.(at := Await), [YouCanPlay])
    else
      var move := FirstEmpty(g.grid, GRID_SIZE);
      (g.(at := Check, grid := g.grid[move := AI_ID], move := move), [])
  }

  function Take(g: Manager, move: int): (Manager, seq<Cmd>)
    requires |g.grid| == GRID_SIZE
  {
    if Legal(g.grid, move) then (g.(at := Check, grid := g.grid[move := PLAYER_ID], move := move), [])
    else (g, [MoveRejected])
  }

  function Judge(g: Manager): (Manager, seq<Cmd>)
    requires |g.grid| == GRID_SIZE
  {
    var next := g.(at := Loop, player := Other(g.player));
    match StateOf(g.grid)
    case Progress => (next, [])
    case Won => (next.(over := true), [if g.player == PLAYER_ID then YouWin else YouLose])
    case Draw => (next.(over := true), [NoWinner])
  }

  /** The manager process; sent is the end of the queue that it writes to. */
  class GameManager {
    const grid: array<int>
    var over: bool
    var player: int
    var move: int
    var at: Point
    var sent: seq<Cmd>

    ghost function View(): Manager
      reads this, grid
    {
      Manager(at, grid[..], over, player, move)
    }

    /** init_game and the start of game_manager. */
    constructor ()
      ensures fresh(grid) && View() == Fresh() && sent == []
      ensures grid[..] == [0, 0, 0, 0, 0, 0, 0, 0, 0] && !over && player == PLAYER_ID
    {
      grid := new int[GRID_SIZE](_ => EMPTY_ID);
      over, player, move, at, sent := false, PLAYER_ID, -1, Start, [];
    }

    method Begin()
      modifies this
      ensures View() == old(View()).(at := Loop) && sent == old(sent) + [GameStart]
    {
      sent := sent + [GameStart];
      at := Loop;
    }

    /** One round of the loop in game_manager, up to where it waits or calls check_game_state. */
    method PlayRound()
      requires grid.Length == GRID_SIZE && Ready(View())
      modifies this, grid
      ensures View() == Round(old(View())).0 && sent == old(sent) + Round(old(View())).1
    {
      if over {
        sent := sent + [GameEnd];
        at := Done;
      } else if player == PLAYER_ID {
        sent := sent + [YouCanPlay];
        at := Await;
      } else {
        var turn := ComputersTurn(grid);
        move := turn - 1;
        grid[move] := AI_ID;
        at := Check;
      }
    }

    /** One round of the loop in get_player_move, and the move it lets through. */
    method TakeMove(choice: int)
      requires grid.Length == GRID_SIZE
      modifies this, grid
      ensures View() == Take(old(View()), choice).0 && sent == old(sent) + Take(old(View()), choice).1
      ensures if 0 <= choice < GRID_SIZE && old(grid[choice]) == EMPTY_ID
              then grid[..] == old(grid[..])[choice := PLAYER_ID] && at == Check && sent == old(sent)
              else grid[..] == old(grid[..]) && at == old(at) && sent == old(sent) + [MoveRejected]
    {
      if choice < 0 || choice > GRID_SIZE - 1 || grid[choice] != 0 {
        sent := sent + [MoveRejected];
      } else {
        move := choice;
        grid[move] := PLAYER_ID;
        at := Check;
      }
    }

    /** check_game_state, and the change of turn after it. */
    method CheckGameState()
      requires grid.Length == GRID_SIZE
      modifies this
      ensures View() == Judge(old(View())).0 && sent == old(sent) + Judge(old(View())).1
      ensures sent == old(sent) +
                if HasLine(grid[..], PLAYER_ID) || HasLine(grid[..], AI_ID) then [if old(player) == PLAYER_ID then YouWin else YouLose]
                else if EMPTY_ID in grid[..] then [] else [NoWinner]
      ensures over == (old(over) || sent != old(sent)) && player == if old(player) == PLAYER_ID then AI_ID else PLAYER_ID
    {
      var state := Win(grid);
      match state {
        case Progress =>
        case Won =>
          if player == PLAYER_ID {
            sent := sent + [YouWin];
          } else {
            sent := sent + [YouLose];
          }
          over := true;
        case Draw =>
          sent := sent + [NoWinner];
          over := true;
      }
      player := if player == PLAYER_ID then AI_ID else PLAYER_ID;
      at := Loop;
    }
  }

  datatype PlayerAt = Reading | Typing | Over(result: Cmd)

  /** The switch in the player's main. */
  function Handle(cmd: Cmd): PlayerAt {
    match cmd
    case GameStart => Reading
    case YouCanPlay => Typing
    case MoveRejected => Typing
    case _ => Over(cmd)
  }

  datatype Game = Game(gm: Manager, toPlayer: seq<Cmd>, toManager: seq<int>, player: PlayerAt)

  function Fresh(): Manager {
    Manager(Start, seq(GRID_SIZE, _ => EMPTY_ID), false, PLAYER_ID, -1)
  }

  function Init(): Game {
    Game(Fresh(), [], [], Reading)
  }

  datatype Op = ManagerActs | PlayerReads | UserTypes(move: int)

  function Sent(s: Game, r: (Manager, seq<Cmd>)): Game {
    s.(gm := r.0, toPlayer := s.toPlayer + r.1)
  }

  /** One process does one thing; get_input_move lets the user name cells 0 to 8 only. */
  predicate Step(a: Game, op: Op, b: Game) {
    match op
    case ManagerActs =>
      && |a.gm.grid| == GRID_SIZE
      && (match a.gm.at
          case Start => b == Sent(a, (a.gm.(at := Loop), [GameStart]))
          case Loop => Ready(a.gm) && b == Sent(a, Round(a.gm))
          case Await => a.toManager != [] && b == Sent(a, Take(a.gm, a.toManager[0])).(toManager := a.toManager[1..])
          case Check => b == Sent(a, Judge(a.gm))
          case Done => false)
    case PlayerReads =>
      a.player == Reading && a.toPlayer != [] && b == a.(toPlayer := a.toPlayer[1..], player := Handle(a.toPlayer[0]))
    case UserTypes(m) =>
      a.player == Typing && 0 <= m < GRID_SIZE && b == a.(toManager := a.toManager + [m], player := Reading)
  }

  // The invariant.

  predicate Through(line: nat, c: int)
    requires line < 8
  {
    c == Cell(line, 0) || c == Cell(line, 1) || c == Cell(line, 2)
  }

  predicate OnBoard(grid: seq<int>, move: int) {
    |grid| == GRID_SIZE && 0 <= move < GRID_SIZE
  }

  /** id owns a line that the last move completed: before it there was none. */
  predicate WonBy(grid: seq<int>, move: int, id: int)
    requires OnBoard(grid, move)
  {
    && !HasLine(grid[move := EMPTY_ID], PLAYER_ID) && !HasLine(grid[move := EMPTY_ID], AI_ID)
    && exists line: nat :: line < 8 && Owns(grid, line, id) && Through(line, move)
  }

  /** What a message about the outcome says about the board. */
  predicate Truthful(grid: seq<int>, move: int, cmd: Cmd) {
    && OnBoard(grid, move)
    && (match cmd
        case YouWin => WonBy(grid, move, PLAYER_ID) && !HasLine(grid, AI_ID)
        case YouLose => WonBy(grid, move, AI_ID) && !HasLine(grid, PLAYER_ID)
        case NoWinner => !HasLine(grid, PLAYER_ID) && !HasLine(grid, AI_ID) && EMPTY_ID !in grid
        case _ => false)
  }

  predicate Quiet(s: Game) {
    s.toPlayer == [] && s.toManager == [] && s.player == Reading
  }

  /** The player owes a move: the question, the typing or the answer is under way. */
  predicate Asked(s: Game) {
    || (s.toManager == [] && s.player == Reading
        && (s.toPlayer == [YouCanPlay] || s.toPlayer == [GameStart, YouCanPlay] || s.toPlayer == [MoveRejected]))
    || (s.toManager == [] && s.player == Typing && s.toPlayer == [])
    || (s.player == Reading && s.toPlayer == [] && |s.toManager| == 1)
  }

  /** The outcome is on its way, or has arrived; end is what follows it in the queue. */
  predicate Told(s: Game, end: seq<Cmd>) {
    && s.toManager == []
    && (|| (s.player == Reading && s.toPlayer != [] && s.toPlayer[1..] == end && Truthful(s.gm.grid, s.gm.move, s.toPlayer[0]))
        || (s.player.Over? && s.toPlayer == end && Truthful(s.gm.grid, s.gm.move, s.player.result)))
  }

  predicate Inv(s: Game) {
    && |s.gm.grid| == GRID_SIZE
    && s.gm.player in {PLAYER_ID, AI_ID}
    && match s.gm.at
       case Start => s == Init()
       case Loop =>
         if s.gm.over then Told(s, [])
         else
           && StateOf(s.gm.grid) == Progress
           && (Quiet(s) || (s.gm.player == PLAYER_ID && Quiet(s.(toPlayer := [])) && s.toPlayer == [GameStart]))
       case Await => !s.gm.over && s.gm.player == PLAYER_ID && StateOf(s.gm.grid) == Progress && Asked(s)
       case Check =>
         && !s.gm.over && OnBoard(s.gm.grid, s.gm.move) && s.gm.grid[s.gm.move] == s.gm.player
         && StateOf(s.gm.grid[s.gm.move := EMPTY_ID]) == Progress && Quiet(s)
       case Done => s.gm.over && Told(s, [GameEnd])
  }

  /** A line that a move completes belongs to the one who moved. */
  lemma LastMoveWins(grid: seq<int>, move: int)
    requires OnBoard(grid, move) && StateOf(grid[move := EMPTY_ID]) == Progress && grid[move] in {PLAYER_ID, AI_ID}
    ensures StateOf(grid) == Won ==> WonBy(grid, move, grid[move]) && !HasLine(grid, Other(grid[move]))
  {
    var before := grid[move := EMPTY_ID];
    forall line: nat, id | line < 8 && id in {PLAYER_ID, AI_ID} && Owns(grid, line, id)
      ensures Through(line, move) && id == grid[move]
    {
      assert !Owns(before, line, id);
    }
  }

  lemma EmptyBoard()
    ensures StateOf(Fresh().grid) == Progress
  {
    assert Fresh().grid[0] == EMPTY_ID;
  }

  lemma ManagerKeepsInv(a: Game, b: Game)
    requires Inv(a) && Step(a, ManagerActs, b)
    ensures Inv(b)
  {
    EmptyBoard();
    var grid, move := b.gm.grid, b.gm.move;
    assert [] + [YouCanPlay] == [YouCanPlay] && [GameStart] + [YouCanPlay] == [GameStart, YouCanPlay];
    if a.gm.at.Check? {
      LastMoveWins(grid, move);
    } else if a.gm.at.Await? {
      assert a.toManager[1..] == [];
      if b.gm.at.Check? {
        assert grid[move := EMPTY_ID] == a.gm.grid;
      } else {
        assert b.toPlayer == [MoveRejected];
      }
    } else if b.gm.at.Check? {
      assert grid[move := EMPTY_ID] == a.gm.grid;
    }
  }

  lemma PlayerKeepsInv(a: Game, op: Op, b: Game)
    requires Inv(a) && Step(a, op, b) && op != ManagerActs
    ensures Inv(b)
  {
    hide StateOf, WonBy, HasLine;
    assert [GameStart, YouCanPlay][1..] == [YouCanPlay];
  }

  lemma InvStep(a: Game, op: Op, b: Game)
    requires Inv(a) && Step(a, op, b)
    ensures Inv(b)
  {
    hide Inv, Step;
    if op.ManagerActs? {
      ManagerKeepsInv(a, b);
    } else {
      PlayerKeepsInv(a, op, b);
    }
  }

  lemma {:induction false} InvThroughout(states: seq<Game>, ops: seq<Op>, n: nat)
    requires IsRun(Step, states, ops) && n < |states| && states[0] == Init()
    ensures Inv(states[n])
  {
    forall a, op, b | Inv(a) && Step(a, op, b) ensures Inv(b) {
      InvStep(a, op, b);
    }
    Throughout(Step, Inv, states, ops, n);
  }

  /**
   * In every state of every game: short queues, room for the computer's move, an unfinished board
   * while the game goes on, no GAME_END taken for an outcome, and the true outcome at the end,
   * whose winner owns a line through the last move.
   */
  lemma GameSafe(states: seq<Game>, ops: seq<Op>, n: nat)
    requires IsRun(Step, states, ops) && n < |states| && states[0] == Init()
    ensures |states[n].toPlayer| <= 2 && |states[n].toManager| <= 1
    ensures states[n].gm.at == Loop ==> Ready(states[n].gm)
    ensures var g := states[n].gm;
            |g.grid| == GRID_SIZE && (!g.over && (g.at == Loop || g.at == Await) ==>
                                        !HasLine(g.grid, PLAYER_ID) && !HasLine(g.grid, AI_ID) && EMPTY_ID in g.grid)
    ensures states[n].player == Reading && states[n].toPlayer != [] ==> states[n].toPlayer[0] != GameEnd
    ensures states[n].player.Over? ==> Truthful(states[n].gm.grid, states[n].gm.move, states[n].player.result)
    ensures states[n].player.Over? ==>
              var r, grid := states[n].player.result, states[n].gm.grid;
              && (r == YouWin <==> HasLine(grid, PLAYER_ID)) && (r == YouLose <==> HasLine(grid, AI_ID))
              && (r == NoWinner <==> !HasLine(grid, PLAYER_ID) && !HasLine(grid, AI_ID) && EMPTY_ID !in grid)
  {
    hide HasLine;
    InvThroughout(states, ops, n);
    if states[n].player.Over? {
      LastLine(states[n].gm.grid, states[n].gm.move, states[n].player.result);
    }
  }

  lemma LastLine(grid: seq<int>, move: int, cmd: Cmd)
    requires Truthful(grid, move, cmd)
    ensures cmd == YouWin ==> HasLine(grid, PLAYER_ID)
    ensures cmd == YouLose ==> HasLine(grid, AI_ID)
  {
  }

  // The moves.

  /** c more of the player's marks than of the computer's. */
  predicate Ahead(grid: seq<int>, c: int) {
    multiset(grid)[PLAYER_ID] == multiset(grid)[AI_ID] + c
  }

  /** The two take turns, and the player begins. */
  predicate InTurn(s: Game) {
    Inv(s) && Ahead(s.gm.grid, if (s.gm.player == PLAYER_ID) == s.gm.at.Check? then 1 else 0)
  }

  /**
   * Each step leaves the board or puts one mark: the player's where the user said, if that cell was
   * empty, or the computer's in the lowest empty cell.
   */
  lemma BoardStep(a: Game, op: Op, b: Game)
    requires Inv(a) && Step(a, op, b)
    ensures var grid := a.gm.grid;
            b.gm.grid ==
            if op == ManagerActs && a.gm.at == Await && 0 <= a.toManager[0] < GRID_SIZE && grid[a.toManager[0]] == EMPTY_ID
            then grid[a.toManager[0] := PLAYER_ID]
            else if op == ManagerActs && a.gm.at == Loop && !a.gm.over && a.gm.player != PLAYER_ID
            then grid[FirstEmpty(grid, GRID_SIZE) := AI_ID]
            else grid
    ensures op == ManagerActs && a.gm.at == Await ==>
              (b.toPlayer == [MoveRejected] <==> !(0 <= a.toManager[0] < GRID_SIZE && a.gm.grid[a.toManager[0]] == EMPTY_ID))
  {
    hide HasLine, WonBy, Truthful, StateOf;
  }

  lemma Marked(grid: seq<int>, cell: nat, id: int, other: int)
    requires cell < |grid| && grid[cell] == EMPTY_ID && id != EMPTY_ID && other != EMPTY_ID && id != other
    ensures multiset(grid[cell := id])[id] == multiset(grid)[id] + 1
    ensures multiset(grid[cell := id])[other] == multiset(grid)[other]
  {
  }

  lemma InTurnStep(a: Game, op: Op, b: Game)
    requires InTurn(a) && Step(a, op, b)
    ensures InTurn(b)
  {
    InvStep(a, op, b);
    BoardStep(a, op, b);
    if op == ManagerActs {
      InTurnManager(a, b);
    }
  }

  lemma InTurnManager(a: Game, b: Game)
    requires InTurn(a) && Step(a, ManagerActs, b)
    ensures Ahead(b.gm.grid, if (b.gm.player == PLAYER_ID) == b.gm.at.Check? then 1 else 0)
  {
    hide HasLine, WonBy, Truthful, StateOf, Told, Asked;
    var grid := a.gm.grid;
    if a.gm.at == Await && Legal(grid, a.toManager[0]) {
      Marked(grid, a.toManager[0], PLAYER_ID, AI_ID);
    } else if a.gm.at == Loop && !a.gm.over && a.gm.player != PLAYER_ID {
      Marked(grid, FirstEmpty(grid, GRID_SIZE), AI_ID, PLAYER_ID);
    }
  }

  /** In every game the computer has as many marks as the player, or one less after the player's move. */
  lemma TurnsAlternate(states: seq<Game>, ops: seq<Op>, n: nat)
    requires IsRun(Step, states, ops) && n < |states| && states[0] == Init()
    ensures var s := states[n];
            multiset(s.gm.grid)[PLAYER_ID] ==
            multiset(s.gm.grid)[AI_ID] + if (s.gm.player == PLAYER_ID) == s.gm.at.Check? then 1 else 0
  {
    assert InTurn(Init()) by { assert Fresh().grid == [0, 0, 0, 0, 0, 0, 0, 0, 0]; }
    forall a, op, b | InTurn(a) && Step(a, op, b) ensures InTurn(b) {
      InTurnStep(a, op, b);
    }
    Throughout(Step, InTurn, states, ops, n);
  }

  predicate Finished(s: Game) {
    s.gm.at == Done && s.player.Over?
  }

  ghost predicate Enabled(s: Game, op: Op) {
    exists b :: Step(s, op, b)
  }

  lemma ManagerEnabled(s: Game)
    requires Inv(s) && !Finished(s) && s.player != Typing && (s.player == Reading ==> s.toPlayer == [])
    ensures Enabled(s, ManagerActs)
  {
    match s.gm.at
    case Start => assert Step(s, ManagerActs, Sent(s, (s.gm.(at := Loop), [GameStart])));
    case Loop => assert Step(s, ManagerActs, Sent(s, Round(s.gm)));
    case Await => assert Step(s, ManagerActs, Sent(s, Take(s.gm, s.toManager[0])).(toManager := s.toManager[1..]));
    case Check => assert Step(s, ManagerActs, Sent(s, Judge(s.gm)));
    case Done =>
  }

  /** Until both sides have finished, one of them can go on, with whatever cell the user names. */
  lemma NoDeadlock(states: seq<Game>, ops: seq<Op>, n: nat)
    requires IsRun(Step, states, ops) && n < |states| && states[0] == Init() && !Finished(states[n])
    ensures Enabled(states[n], ManagerActs) || Enabled(states[n], PlayerReads) ||
            forall m :: 0 <= m < GRID_SIZE ==> Enabled(states[n], UserTypes(m))
  {
    hide StateOf, HasLine;
    var s := states[n];
    InvThroughout(states, ops, n);
    if s.player == Typing {
      forall m | 0 <= m < GRID_SIZE ensures Enabled(s, UserTypes(m)) {
        assert Step(s, UserTypes(m), s.(toManager := s.toManager + [m], player := Reading));
      }
    } else if s.player == Reading && s.toPlayer != [] {
      assert Step(s, PlayerReads, s.(toPlayer := s.toPlayer[1..], player := Handle(s.toPlayer[0])));
    } else {
      ManagerEnabled(s);
    }
  }

  // Progress: only a rejected move gives no ground.

  predicate Rejects(s: Game, op: Op) {
    op == ManagerActs && s.gm.at == Await && |s.gm.grid| == GRID_SIZE && s.toManager != [] && !Legal(s.gm.grid, s.toManager[0])
  }

  function Weight(at: Point): nat {
    match at
    case Start => 11
    case Loop => 6
    case Await => 0
    case Check => 12
    case Done => 0
  }

  function Empties(grid: seq<int>): nat {
    multiset(grid)[EMPTY_ID]
  }

  function Rank(s: Game): nat {
    20 * Empties(s.gm.grid) + Weight(s.gm.at) + 4 * |s.toPlayer| + 2 * |s.toManager| + if s.player == Typing then 3 else 0
  }

  lemma Placed(grid: seq<int>, move: int, id: int)
    requires |grid| == GRID_SIZE && Legal(grid, move) && id != EMPTY_ID
    ensures Empties(grid[move := id]) == Empties(grid) - 1
  {
  }

  lemma ManagerRank(a: Game, b: Game)
    requires Inv(a) && Step(a, ManagerActs, b)
    ensures Rank(b) + 1 <= Rank(a) + if Rejects(a, ManagerActs) then 3 else 0
  {
    hide StateOf, HasLine, WonBy, Truthful, Empties;
    if b.gm.at.Check? {
      Placed(a.gm.grid, b.gm.move, b.gm.grid[b.gm.move]);
    }
  }

  lemma RankFalls(a: Game, op: Op, b: Game)
    requires Inv(a) && Step(a, op, b)
    ensures Rank(b) + 1 <= Rank(a) + if Rejects(a, op) then 3 else 0
  {
    hide StateOf, HasLine, WonBy, Truthful, Empties, Inv;
    if op.ManagerActs? {
      ManagerRank(a, b);
    }
  }

  function Rejections(states: seq<Game>, ops: seq<Op>, n: nat): nat
    requires n <= |ops| && |states| == |ops| + 1
  {
    if n == 0 then 0 else Rejections(states, ops, n - 1) + if Rejects(states[n - 1], ops[n - 1]) then 1 else 0
  }

  /** A game ends: its length is bounded by the number of moves that the manager rejects. */
  lemma {:induction false} GameLength(states: seq<Game>, ops: seq<Op>, n: nat)
    requires IsRun(Step, states, ops) && n < |states| && states[0] == Init()
    ensures n + Rank(states[n]) <= 191 + 3 * Rejections(states, ops, n)
  {
    hide Step;
    if n == 0 {
      assert Fresh().grid == [0, 0, 0, 0, 0, 0, 0, 0, 0];
    } else {
      GameLength(states, ops, n - 1);
      InvThroughout(states, ops, n - 1);
      RankFalls(states[n - 1], ops[n - 1], states[n]);
    }
  }
}

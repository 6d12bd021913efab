/** The two-dimensional Pong game of the front end, without its drawing: the
    state of one game and the per-frame update the animation loop applies to it,
    the mouse-driven player paddle, and the start, pause and reset buttons. */
module Pong {

  const CanvasWidth: int := 800
  const CanvasHeight: int := 400
  const PaddleHeight: int := 80
  const PaddleWidth: int := 10
  const BallSize: int := 10

  /** Lowest paddle position: the paddle's top edge when its bottom touches the canvas bottom. */
  const PaddleMax: int := CanvasHeight - PaddleHeight

  datatype Ball = Ball(x: int, y: int, dx: int, dy: int)

  datatype GameState = GameState(
    ball: Ball,
    playerPaddle: int,
    aiPaddle: int,
    playerScore: nat,
    aiScore: nat,
    gameRunning: bool)

  /** Where the ball is put back after a point: the centre, moving right. */
  const ServeBall: Ball := Ball(CanvasWidth / 2, CanvasHeight / 2, 4, 3)

  const InitialState: GameState := GameState(ServeBall, 150, 150, 0, 0, false)

  predicate PaddleInBounds(y: int) { 0 <= y <= PaddleMax }

  // ---------------------------------------------------------------------------
  // The per-frame update, as a composition of its rules

  /** The ball touches or crosses the top or the bottom wall. */
  predicate HitsWall(y: int) { y <= 0 || y >= CanvasHeight - BallSize }

  /** The ball is in the player's paddle band (left edge) at height y. */
  predicate HitsPlayerPaddle(b: Ball, paddle: int) {
    b.x <= PaddleWidth && paddle <= b.y <= paddle + PaddleHeight
  }

  /** The ball is in the computer's paddle band (right edge) at height y. */
  predicate HitsAiPaddle(b: Ball, paddle: int) {
    b.x >= CanvasWidth - PaddleWidth - BallSize && paddle <= b.y <= paddle + PaddleHeight
  }

  /** The computer's paddle after it has followed the ball for one frame: outside a
      dead zone of 5 around the paddle centre it moves 3 toward the ball centre, stopping
      at the canvas edge. */
  function TrackBall(paddle: int, ballY: int): (r: int)
    ensures PaddleInBounds(paddle) ==> PaddleInBounds(r) && -3 <= r - paddle <= 3
    ensures -5 <= (ballY + BallSize / 2) - (paddle + PaddleHeight / 2) <= 5 ==> r == paddle
    ensures PaddleInBounds(paddle) && (ballY + BallSize / 2) - (paddle + PaddleHeight / 2) > 5 ==>
      (r == paddle + 3 || r == PaddleMax) && (paddle < PaddleMax ==> r > paddle)
    ensures PaddleInBounds(paddle) && (paddle + PaddleHeight / 2) - (ballY + BallSize / 2) > 5 ==>
      (r == paddle - 3 || r == 0) && (paddle > 0 ==> r < paddle)
  {
    var paddleCentre := paddle + PaddleHeight / 2;
    var ballCentre := ballY + BallSize / 2;
    if paddleCentre < ballCentre - 5 then Min(paddle + 3, PaddleMax)
    else if paddleCentre > ballCentre + 5 then Max(paddle - 3, 0)
    else paddle
  }

  function Min(a: int, b: int): int { if a <= b then a else b }
  function Max(a: int, b: int): int { if a >= b then a else b }

  /** The ball after moving by its velocity for one frame. */
  function Advance(b: Ball): Ball {
    b.(x := b.x + b.dx, y := b.y + b.dy)
  }

  /** The ball's position after one frame is scored for the computer (left edge passed)
      or for the player (right edge passed). */
  predicate ScoresForAi(b: Ball) { Advance(b).x < 0 }
  predicate ScoresForPlayer(b: Ball) { Advance(b).x > CanvasWidth }

  /** One frame of the running game: move, bounce, follow, score. */
  function Step(s: GameState): (r: GameState)
    // the ball moves by exactly its velocity unless a point is scored
    ensures !ScoresForAi(s.ball) && !ScoresForPlayer(s.ball) ==>
      r.ball.x == Advance(s.ball).x && r.ball.y == Advance(s.ball).y
    // vertical bounce exactly at the walls, horizontal bounce exactly at a paddle
    ensures !ScoresForAi(s.ball) && !ScoresForPlayer(s.ball) ==>
      r.ball.dy == (if HitsWall(Advance(s.ball).y) then -s.ball.dy else s.ball.dy) &&
      r.ball.dx == (if HitsPlayerPaddle(Advance(s.ball), s.playerPaddle) || HitsAiPaddle(Advance(s.ball), s.aiPaddle)
                    then -s.ball.dx else s.ball.dx)
    // the computer's paddle moves at most 3 per frame, toward the ball, and stays on the canvas
    ensures PaddleInBounds(s.aiPaddle) ==> PaddleInBounds(r.aiPaddle) && -3 <= r.aiPaddle - s.aiPaddle <= 3
    ensures PaddleInBounds(s.aiPaddle) && r.aiPaddle > s.aiPaddle ==> s.aiPaddle + PaddleHeight / 2 < Advance(s.ball).y + BallSize / 2 - 5
    ensures PaddleInBounds(s.aiPaddle) && r.aiPaddle < s.aiPaddle ==> s.aiPaddle + PaddleHeight / 2 > Advance(s.ball).y + BallSize / 2 + 5
    ensures -5 <= (Advance(s.ball).y + BallSize / 2) - (s.aiPaddle + PaddleHeight / 2) <= 5 ==> r.aiPaddle == s.aiPaddle
    ensures PaddleInBounds(s.aiPaddle) && (Advance(s.ball).y + BallSize / 2) - (s.aiPaddle + PaddleHeight / 2) > 5 ==>
      (r.aiPaddle == s.aiPaddle + 3 || r.aiPaddle == PaddleMax) && (s.aiPaddle < PaddleMax ==> r.aiPaddle > s.aiPaddle)
    ensures PaddleInBounds(s.aiPaddle) && (s.aiPaddle + PaddleHeight / 2) - (Advance(s.ball).y + BallSize / 2) > 5 ==>
      (r.aiPaddle == s.aiPaddle - 3 || r.aiPaddle == 0) && (s.aiPaddle > 0 ==> r.aiPaddle < s.aiPaddle)
    // scoring: at most one point per frame, and the ball is served again from the centre
    ensures r.aiScore == s.aiScore + (if ScoresForAi(s.ball) then 1 else 0)
    ensures r.playerScore == s.playerScore + (if ScoresForPlayer(s.ball) then 1 else 0)
    ensures ScoresForAi(s.ball) ==> r.ball == Ball(400, 200, 4, 3)
    ensures ScoresForPlayer(s.ball) ==> r.ball == Ball(400, 200, -4, 3)
    // the player's paddle and the running flag are not the loop's business
    ensures r.playerPaddle == s.playerPaddle && r.gameRunning == s.gameRunning
  {
    var moved := Advance(s.ball);
    var dy := if HitsWall(moved.y) then -moved.dy else moved.dy;
    var dx := if HitsPlayerPaddle(moved, s.playerPaddle) || HitsAiPaddle(moved, s.aiPaddle) then -moved.dx else moved.dx;
    var ai := TrackBall(s.aiPaddle, moved.y);
    if moved.x < 0 then
      s.(ball := ServeBall, aiPaddle := ai, aiScore := s.aiScore + 1)
    else if moved.x > CanvasWidth then
      s.(ball := ServeBall.(dx := -4), aiPaddle := ai, playerScore := s.playerScore + 1)
    else
      s.(ball := Ball(moved.x, moved.y, dx, dy), aiPaddle := ai)
  }

  /** The animation loop does nothing while the game is paused. */
  function Frame(s: GameState): GameState {
    if s.gameRunning then Step(s) else s
  }

  /** The state after `n` frames. */
  function Frames(s: GameState, n: nat): GameState
    decreases n
  {
    if n == 0 then s else Frames(Frame(s), n - 1)
  }

  /** Both paddles stay on the canvas for as long as the game goes on. */
  lemma {:induction false} FramesKeepPaddlesInBounds(s: GameState, n: nat)
    requires PaddleInBounds(s.playerPaddle) && PaddleInBounds(s.aiPaddle)
    ensures PaddleInBounds(Frames(s, n).playerPaddle) && PaddleInBounds(Frames(s, n).aiPaddle)
    decreases n
  {
    if n > 0 {
      FramesKeepPaddlesInBounds(Frame(s), n - 1);
    }
  }

  /** Scores never go down, and at most one point is scored per frame. */
  lemma {:induction false} FramesScoreAtMostOnePerFrame(s: GameState, n: nat)
    ensures s.playerScore <= Frames(s, n).playerScore && s.aiScore <= Frames(s, n).aiScore
    ensures Frames(s, n).playerScore + Frames(s, n).aiScore <= s.playerScore + s.aiScore + n
    decreases n
  {
    if n > 0 {
      FramesScoreAtMostOnePerFrame(Frame(s), n - 1);
    }
  }

  /** A paused game stays exactly as it is. */
  lemma {:induction false} PausedGameIsFrozen(s: GameState, n: nat)
    requires !s.gameRunning
    ensures Frames(s, n) == s
    decreases n
  {
    if n > 0 {
      PausedGameIsFrozen(Frame(s), n - 1);
    }
  }

  /** The reset state is the state the component starts in. */
  lemma ResetIsInitial()
    ensures ResetGame() == InitialState && PaddleInBounds(ResetGame().aiPaddle)
  {
  }

  /** The state updater applied by the animation loop, one field after another. */
  method GameLoopUpdate(prev: GameState) returns (next: GameState)
    ensures next == Step(prev)
  {
    var ballX, ballY, ballDx, ballDy := prev.ball.x, prev.ball.y, prev.ball.dx, prev.ball.dy;
    var aiPaddle := prev.aiPaddle;
    var playerScore, aiScore := prev.playerScore, prev.aiScore;

    ballX := ballX + ballDx;
    ballY := ballY + ballDy;

    if ballY <= 0 || ballY >= CanvasHeight - BallSize {
      ballDy := -ballDy;
    }
    if ballX <= PaddleWidth && ballY >= prev.playerPaddle && ballY <= prev.playerPaddle + PaddleHeight {
      ballDx := -ballDx;
    }
    if ballX >= CanvasWidth - PaddleWidth - BallSize && ballY >= aiPaddle && ballY <= aiPaddle + PaddleHeight {
      ballDx := -ballDx;
    }

    var aiCentre := aiPaddle + PaddleHeight / 2;
    var ballCentre := ballY + BallSize / 2;
    if aiCentre < ballCentre - 5 {
      aiPaddle := Min(aiPaddle + 3, CanvasHeight - PaddleHeight);
    } else if aiCentre > ballCentre + 5 {
      aiPaddle := Max(aiPaddle - 3, 0);
    }

    if ballX < 0 {
      aiScore := aiScore + 1;
      ballX, ballY, ballDx, ballDy := CanvasWidth / 2, CanvasHeight / 2, 4, 3;
    } else if ballX > CanvasWidth {
      playerScore := playerScore + 1;
      ballX, ballY, ballDx, ballDy := CanvasWidth / 2, CanvasHeight / 2, -4, 3;
    }

    next := prev.(ball := Ball(ballX, ballY, ballDx, ballDy), aiPaddle := aiPaddle,
                  playerScore := playerScore, aiScore := aiScore);
  }

  /** The player paddle follows the mouse, centred on it and kept inside the canvas. */
  function HandleMouseMove(s: GameState, mouseY: int): (r: GameState)
    ensures !s.gameRunning ==> r == s
    ensures s.gameRunning ==> r == s.(playerPaddle := r.playerPaddle)
    ensures s.gameRunning ==> PaddleInBounds(r.playerPaddle)
    ensures s.gameRunning && PaddleInBounds(mouseY - PaddleHeight / 2) ==> r.playerPaddle == mouseY - PaddleHeight / 2
    ensures s.gameRunning && mouseY - PaddleHeight / 2 < 0 ==> r.playerPaddle == 0
    ensures s.gameRunning && mouseY - PaddleHeight / 2 > PaddleMax ==> r.playerPaddle == PaddleMax
  {
    if !s.gameRunning then s
    else s.(playerPaddle := Max(0, Min(mouseY - PaddleHeight / 2, CanvasHeight - PaddleHeight)))
  }

  function StartGame(s: GameState): (r: GameState)
    ensures r.gameRunning && r == s.(gameRunning := true)
  {
    s.(gameRunning := true)
  }

  function StopGame(s: GameState): (r: GameState)
    ensures !r.gameRunning && r == s.(gameRunning := false)
  {
    s.(gameRunning := false)
  }

  function ResetGame(): (r: GameState)
    ensures r.ball == Ball(400, 200, 4, 3)
    ensures r.playerPaddle == 150 && r.aiPaddle == 150
    ensures r.playerScore == 0 && r.aiScore == 0 && !r.gameRunning
  {
    GameState(Ball(CanvasWidth / 2, CanvasHeight / 2, 4, 3), 150, 150, 0, 0, false)
  }
}

/** How the client and the server fit together: what a client knows after
    the server's broadcasts, and that the commands the client's keys send
    are ones the server understands. */
module Sync {
  import opened Protocol
  import S = GameServer
  import C = GameClient

  /** After a state broadcast every client holds the server's players
      (position and score) and microphones (position and answered flag),
      the time left when the server knows it, and the game-over flag once
      the server has raised it; the client's quiz and lobby are untouched. */
  lemma ClientMirrorsState(v: C.ClientView, ps: map<int, S.PlayerRec>, ms: seq<S.Mic>, t: Option<int>, over: bool, now: int)
    ensures var w := C.Apply(v, S.StateMessage(ps, ms, t, over), now);
      && w.players.Keys == ps.Keys
      && (forall pid :: pid in ps ==> w.players[pid] == Placed(ps[pid].x, ps[pid].y, ps[pid].score))
      && |w.microphones| == |ms|
      && (forall i :: 0 <= i < |ms| ==>
            w.microphones[i] == MicView(ms[i].id, ms[i].x, ms[i].y, ms[i].answered))
      && w.timeLeft == (if t.Some? then t else v.timeLeft)
      && (w.gameOver <==> v.gameOver || over)
      && C.SameQuiz(v, w) && C.SameLobby(v, w)
  {
    var w := C.Apply(v, S.StateMessage(ps, ms, t, over), now);
    assert w.players == S.PlayerViews(ps);
    assert w.microphones == S.MicViews(ms);
  }

  /** After the game-over broadcast the client's game is over, it holds
      every player's final score and its listener stops. */
  lemma ClientGetsFinalScores(v: C.ClientView, ps: map<int, S.PlayerRec>, now: int)
    ensures var w := C.Apply(v, S.GameOverMessage(ps), now);
      && w.gameOver
      && w.players.Keys == ps.Keys
      && (forall pid :: pid in ps ==> w.players[pid].score == ps[pid].score)
      && !C.Continues(S.GameOverMessage(ps))
  {
  }

  /** End to end, each movement key aims the player one cell in the key's
      direction on the server's grid (y grows downwards); every other key
      sends no move. The word a movement key sends is one the server
      parses back to a direction of the same name. */
  lemma KeyMovesPlayer(k: C.Key, c: S.Cell)
    ensures C.MoveKey(k) ==> C.Command(k).Some? && C.Command(k).value.Move?
    ensures C.MoveKey(k) ==>
      && S.ParseDirection(C.Command(k).value.direction).Some?
      && S.DirName(S.ParseDirection(C.Command(k).value.direction).value) == C.Command(k).value.direction
    ensures !C.MoveKey(k) ==> C.Command(k).None? || !C.Command(k).value.Move?
    ensures C.MoveKey(k) ==>
      var t := S.Target(c, S.ParseDirection(C.Command(k).value.direction));
      && (k == C.KeyW || k == C.KeyUp ==> t == (c.0, c.1 - 1))
      && (k == C.KeyS || k == C.KeyDown ==> t == (c.0, c.1 + 1))
      && (k == C.KeyA || k == C.KeyLeft ==> t == (c.0 - 1, c.1))
      && (k == C.KeyD || k == C.KeyRight ==> t == (c.0 + 1, c.1))
  {
    match k
    case KeyW => S.DirNameParses(S.Up);
    case KeyUp => S.DirNameParses(S.Up);
    case KeyS => S.DirNameParses(S.Down);
    case KeyDown => S.DirNameParses(S.Down);
    case KeyA => S.DirNameParses(S.Left);
    case KeyLeft => S.DirNameParses(S.Left);
    case KeyD => S.DirNameParses(S.Right);
    case KeyRight => S.DirNameParses(S.Right);
    case _ =>
  }

  /** The message types the server sends: it has no branch that sends a
      lobby update, a countdown or a game start. */
  predicate FromServer(msg: Message) {
    msg.Init? || msg.Error? || msg.State? || msg.Question? || msg.AnswerResult? || msg.Info? || msg.GameOver?
  }

  /** A client starts in the lobby and only a game-start message takes it
      out. Against this server, which never sends one, the client stays in
      the lobby after the handshake and whatever the listener receives, and
      so every key it presses is ignored: no move, interaction or answer
      is ever sent. */
  lemma LobbyNeverEnds(first: Message, inbox: seq<Arrival>, k: C.Key)
    requires first.Init?
    requires forall i :: 0 <= i < |inbox| ==> FromServer(inbox[i].msg)
    ensures C.Handshake(C.InitialView, Some(first)).Some?
    ensures var w := C.Run(C.Handshake(C.InitialView, Some(first)).value, inbox);
      && w.inLobby
      && C.OnEvent(w, C.KeyPress(k)) == C.Reaction(w, false, [])
  {
    var w := C.Run(C.Handshake(C.InitialView, Some(first)).value, inbox);
    C.KeysIgnoredOutsideGame(w, k);
  }

  /** The server's welcome completes the client's handshake, giving it its
      id and the players as the server holds them. */
  lemma WelcomeCompletesHandshake(v: C.ClientView, pid: int, ps: map<int, S.PlayerRec>, ms: seq<S.Mic>, t: int)
    ensures var r := C.Handshake(v, Some(Init(pid, S.PlayerViews(ps), S.MicViews(ms), t)));
      && r.Some? && r.value.playerId == Some(pid)
      && r.value.players == S.PlayerViews(ps)
      && (forall q :: q in ps ==> r.value.players[q] == Placed(ps[q].x, ps[q].y, ps[q].score))
  {
  }
}

/** The authoritative game-session engine: the player registry, the three
    microphones (quiz stations), movement on the 50 x 40 grid, the claim /
    answer protocol, disconnect cleanup, state snapshots and the timer. */
module GameServer {
  import opened Protocol

  const MapWidth := 50
  const MapHeight := 40

  type Cell = (int, int)

  /** The fixed obstacle set: a wall at x = 15, y = 5..9. */
  const Obstacles: set<Cell> := {(15, 5), (15, 6), (15, 7), (15, 8), (15, 9)}

  predicate InBounds(c: Cell) {
    0 <= c.0 < MapWidth && 0 <= c.1 < MapHeight
  }

  /** A cell a player may stand on. */
  predicate Passable(c: Cell) {
    InBounds(c) && c !in Obstacles
  }

  /** A connected player; the id is the registry key. */
  datatype PlayerRec = PlayerRec(x: int, y: int, score: int)

  /** A microphone. The per-microphone lock of the server is held exactly
      when `activeBy` is `Some`, so it is not kept separately. */
  datatype Mic = Mic(id: int, x: int, y: int, question: string, options: seq<string>,
                     correctIndex: int, answered: bool, activeBy: Option<int>)

  function InitialMics(): (ms: seq<Mic>)
    ensures |ms| == 3
    ensures forall i :: 0 <= i < 3 ==> ms[i].id == i + 1 && !ms[i].answered && ms[i].activeBy == None
  {
    [ Mic(1, 10, 5, "What is the capital of France?", ["Paris", "London", "Rome", "Berlin"], 0, false, None),
      Mic(2, 4, 12, "2 + 2 * 2 = ?", ["6", "8", "4", "2"], 0, false, None),
      Mic(3, 20, 18, "Which planet is known as the Red Planet?", ["Earth", "Mars", "Jupiter", "Saturn"], 1, false, None) ]
  }

  /** The parts of a microphone no operation ever changes. */
  predicate SameStation(a: Mic, b: Mic) {
    a.id == b.id && a.x == b.x && a.y == b.y && a.question == b.question
    && a.options == b.options && a.correctIndex == b.correctIndex
  }

  predicate SameStations(a: seq<Mic>, b: seq<Mic>) {
    |a| == |b| && forall i :: 0 <= i < |a| ==> SameStation(a[i], b[i])
  }

  /** What every operation guarantees between the state before and after:
      stations keep their identity, an answered flag never reverts, and
      the score of a player still present never decreases. */
  predicate Progress(ms: seq<Mic>, ms': seq<Mic>, ps: map<int, PlayerRec>, ps': map<int, PlayerRec>) {
    && SameStations(ms, ms')
    && (forall i :: 0 <= i < |ms| && ms[i].answered ==> ms'[i].answered)
    && (forall q :: q in ps && q in ps' ==> ps[q].score <= ps'[q].score)
  }

  // ---------------------------------------------------------------------------
  // Spawning

  /** The spawn cell of a new player: the four corners for ids 1 to 4
      (row 2 rather than row 0 at the top), the origin for any other id. */
  function SpawnPosition(pid: int): (c: Cell)
    ensures Passable(c)
    ensures 1 <= pid <= 4 ==> c.0 in {0, MapWidth - 1} && c.1 in {2, MapHeight - 1}
    ensures !(1 <= pid <= 4) ==> c == (0, 0)
  {
    if pid == 1 then (0, 2)
    else if pid == 2 then (MapWidth - 1, 2)
    else if pid == 3 then (0, MapHeight - 1)
    else if pid == 4 then (MapWidth - 1, MapHeight - 1)
    else (0, 0)
  }

  /** The first four players start on four different cells. */
  lemma SpawnCornersDistinct(a: int, b: int)
    requires 1 <= a <= 4 && 1 <= b <= 4 && a != b
    ensures SpawnPosition(a) != SpawnPosition(b)
  {
  }

  // ---------------------------------------------------------------------------
  // Movement

  datatype Dir = Up | Down | Left | Right

  function LowerChar(c: char): char {
    if 'A' <= c <= 'Z' then (c as int + 32) as char else c
  }

  /** ASCII lower-casing; on the four direction words it agrees with the
      Unicode lower-casing the server applies. */
  function Lower(s: string): (r: string)
    ensures |r| == |s|
    ensures forall i :: 0 <= i < |s| ==> r[i] == LowerChar(s[i])
  {
    seq(|s|, i requires 0 <= i < |s| => LowerChar(s[i]))
  }

  function DirName(d: Dir): string {
    match d
    case Up => "up"
    case Down => "down"
    case Left => "left"
    case Right => "right"
  }

  /** The direction a move message names, compared case-insensitively;
      `None` for anything else. */
  function ParseDirection(s: string): (r: Option<Dir>)
    ensures r.Some? ==> Lower(s) == DirName(r.value)
  {
    var l := Lower(s);
    if l == "up" then Some(Up)
    else if l == "down" then Some(Down)
    else if l == "left" then Some(Left)
    else if l == "right" then Some(Right)
    else None
  }

  lemma LowerIdempotent(s: string)
    ensures Lower(Lower(s)) == Lower(s)
  {
    var l := Lower(s);
    assert forall i :: 0 <= i < |s| ==> LowerChar(l[i]) == l[i];
  }

  /** Every spelling that lower-cases to a direction word names that
      direction, and nothing else does: the match is case-insensitive. */
  lemma ParseDirectionExact(s: string, d: Dir)
    ensures ParseDirection(s) == Some(d) <==> Lower(s) == DirName(d)
  {
  }

  /** Naming a direction and parsing the name gives the direction back. */
  lemma DirNameParses(d: Dir)
    ensures ParseDirection(DirName(d)) == Some(d)
  {
    var n := DirName(d);
    assert Lower(n) == n by {
      forall i | 0 <= i < |n| ensures Lower(n)[i] == n[i] {
        assert 'a' <= n[i] <= 'z';
      }
    }
  }

  lemma ParseDirectionCaseInsensitive(s: string)
    ensures ParseDirection(Lower(s)) == ParseDirection(s)
  {
    LowerIdempotent(s);
  }

  /** The cell one step away in direction `d`; no step for an unknown
      direction. y grows downwards. */
  function Target(c: Cell, d: Option<Dir>): (t: Cell)
    ensures d.None? ==> t == c
    ensures d.Some? ==> (if t.0 < c.0 then c.0 - t.0 else t.0 - c.0) + (if t.1 < c.1 then c.1 - t.1 else t.1 - c.1) == 1
  {
    match d
    case None => c
    case Some(Up) => (c.0, c.1 - 1)
    case Some(Down) => (c.0, c.1 + 1)
    case Some(Left) => (c.0 - 1, c.1)
    case Some(Right) => (c.0 + 1, c.1)
  }

  /** Where a player standing on `c` ends after a move request. */
  function MoveFrom(c: Cell, direction: string): (r: Cell)
    ensures Passable(c) ==> Passable(r)
    ensures r == c || r == Target(c, ParseDirection(direction))
    ensures r == Target(c, ParseDirection(direction)) <== Passable(Target(c, ParseDirection(direction)))
    ensures !Passable(Target(c, ParseDirection(direction))) ==> r == c
    ensures r != c ==> ParseDirection(direction).Some?
  {
    var t := Target(c, ParseDirection(direction));
    if Passable(t) then t else c
  }

  // ---------------------------------------------------------------------------
  // Stations

  /** The index of the first unanswered microphone standing on (x, y). */
  function FirstOpenMicAt(ms: seq<Mic>, x: int, y: int): (k: Option<nat>)
    ensures k.Some? ==> k.value < |ms| && ms[k.value].x == x && ms[k.value].y == y && !ms[k.value].answered
    ensures k.Some? ==> forall j :: 0 <= j < k.value ==> !(ms[j].x == x && ms[j].y == y && !ms[j].answered)
    ensures k.None? ==> forall j :: 0 <= j < |ms| ==> !(ms[j].x == x && ms[j].y == y && !ms[j].answered)
  {
    if ms == [] then None
    else if ms[0].x == x && ms[0].y == y && !ms[0].answered then Some(0)
    else match FirstOpenMicAt(ms[1..], x, y)
      case None => None
      case Some(j) => Some(j + 1)
  }

  /** The index of the first microphone with the given id. */
  function MicWithId(ms: seq<Mic>, id: int): (k: Option<nat>)
    ensures k.Some? ==> k.value < |ms| && ms[k.value].id == id
    ensures k.Some? ==> forall j :: 0 <= j < k.value ==> ms[j].id != id
    ensures k.None? ==> forall j :: 0 <= j < |ms| ==> ms[j].id != id
  {
    if ms == [] then None
    else if ms[0].id == id then Some(0)
    else match MicWithId(ms[1..], id)
      case None => None
      case Some(j) => Some(j + 1)
  }

  predicate AllAnswered(ms: seq<Mic>) {
    forall i :: 0 <= i < |ms| ==> ms[i].answered
  }

  /** The `all(m.answered for m in microphones)` check. */
  method CheckAllAnswered(ms: seq<Mic>) returns (all: bool)
    ensures all <==> AllAnswered(ms)
  {
    all := true;
    var i := 0;
    while i < |ms|
      invariant 0 <= i <= |ms|
      invariant all <==> forall j :: 0 <= j < i ==> ms[j].answered
    {
      if !ms[i].answered {
        all := false;
      }
      i := i + 1;
    }
  }

  // ---------------------------------------------------------------------------
  // Snapshots and the timer

  /** Seconds left: the limit minus the whole seconds elapsed since the
      start, clamped at zero. */
  function TimeLeft(limit: int, start: int, now: int): (t: int)
    ensures t >= 0
    ensures t == 0 <==> limit - (now - start) <= 0
    ensures t > 0 ==> t == limit - (now - start)
  {
    if limit - (now - start) > 0 then limit - (now - start) else 0
  }

  /** The time left a snapshot reports: known once the game started. */
  function Remaining(started: bool, start: Option<int>, limit: int, now: int): (t: Option<int>)
    ensures t.Some? <==> started && start.Some?
    ensures t.Some? ==> t.value >= 0
    ensures t.Some? ==> t.value == TimeLeft(limit, start.value, now)
  {
    if started && start.Some? then Some(TimeLeft(limit, start.value, now)) else None
  }

  lemma TimeLeftNonIncreasing(limit: int, start: int, now: int, later: int)
    requires now <= later
    ensures TimeLeft(limit, start, later) <= TimeLeft(limit, start, now)
  {
  }

  lemma TimeLeftAtMostLimit(limit: int, start: int, now: int)
    requires start <= now
    ensures TimeLeft(limit, start, now) <= if limit > 0 then limit else 0
  {
  }

  /** The players of a snapshot: exactly the connected ids, each with its
      position and score. */
  function PlayerViews(ps: map<int, PlayerRec>): (r: map<int, PlayerView>)
    ensures r.Keys == ps.Keys
    ensures forall pid :: pid in r ==> r[pid].Placed? && r[pid].x == ps[pid].x && r[pid].y == ps[pid].y
    ensures forall pid :: pid in r ==> r[pid].score == ps[pid].score
  {
    map pid | pid in ps :: Placed(ps[pid].x, ps[pid].y, ps[pid].score)
  }

  /** The stations of a snapshot: one entry per station, in order, with its
      id, position and answered flag. */
  function MicViews(ms: seq<Mic>): (r: seq<MicView>)
    ensures |r| == |ms|
    ensures forall i :: 0 <= i < |ms| ==> r[i].id == ms[i].id && r[i].answered == ms[i].answered
    ensures forall i :: 0 <= i < |ms| ==> r[i].x == ms[i].x && r[i].y == ms[i].y
  {
    seq(|ms|, i requires 0 <= i < |ms| => MicView(ms[i].id, ms[i].x, ms[i].y, ms[i].answered))
  }

  /** A state message: every player's position and score, every
      microphone's position and answered flag (never the claimant or the
      question), the time left when known and the game-over flag. */
  function StateMessage(ps: map<int, PlayerRec>, ms: seq<Mic>, timeLeft: Option<int>, over: bool): (m: Message)
    ensures m.State? && m.players.Some? && m.mics.Some?
    ensures m.players.value.Keys == ps.Keys && |m.mics.value| == |ms|
    ensures m.players == Some(PlayerViews(ps)) && m.mics == Some(MicViews(ms))
    ensures m.timeLeft == timeLeft && m.gameOver == over
  {
    State(Some(PlayerViews(ps)), Some(MicViews(ms)), timeLeft, over)
  }

  /** The game-over message: the final score of every player, and nothing
      about positions. */
  function GameOverMessage(ps: map<int, PlayerRec>): (m: Message)
    ensures m.GameOver? && m.finalPlayers.Some?
    ensures m.finalPlayers.value.Keys == ps.Keys
    ensures forall pid :: pid in ps ==> m.finalPlayers.value[pid] == Scored(ps[pid].score)
  {
    GameOver(Some(map pid | pid in ps :: Scored(ps[pid].score)))
  }

  /** What one client-handler iteration produces: a reply to the acting
      player, messages for every connected client, and whether the
      handler's loop ends. */
  datatype Effects = Effects(reply: Option<Message>, broadcast: seq<Message>, endLoop: bool)

  const NoEffect := Effects(None, [], false)

  /** The effects one handler iteration can have for a message: a move
      broadcasts one state message; an interaction answers the player at
      most once (a question or the in-use notice) and broadcasts nothing; an
      answer does nothing, reports a miss, or reports a hit and broadcasts
      the state, followed by the final scores exactly when it ends the loop;
      every other type does nothing. Only a hit can end the loop. */
  predicate Fits(msg: Message, fx: Effects) {
    match msg
    case Move(_) =>
      fx.reply.None? && |fx.broadcast| == 1 && fx.broadcast[0].State? && !fx.endLoop
    case Interact =>
      && fx.broadcast == [] && !fx.endLoop
      && (fx.reply.None? || fx.reply.value.Question? || fx.reply.value == Info(BusyText))
    case Answer(_, _) => AnswerFits(fx)
    case _ => fx == NoEffect
  }

  /** The effects an answer can have: nothing, a miss reported to the
      player, or a hit reported to the player with the state broadcast,
      followed by the final scores exactly when it ends the loop. */
  predicate AnswerFits(fx: Effects) {
    || fx == NoEffect
    || fx == Effects(Some(AnswerResult(false)), [], false)
    || (&& fx.reply == Some(AnswerResult(true))
        && |fx.broadcast| == (if fx.endLoop then 2 else 1)
        && fx.broadcast[0].State?
        && (fx.endLoop ==> fx.broadcast[1].GameOver?))
  }

  type Conn = nat

  // ---------------------------------------------------------------------------
  // The session invariant, on values

  /** The registry and the client table have the same ids, there are at
      most `maxPlayers` players, every id was handed out before, and every
      player stands on a passable cell with a non-negative score. */
  ghost predicate RegistryInv(ps: map<int, PlayerRec>, cs: map<int, Conn>, maxPlayers: nat, nextId: int) {
    && ps.Keys == cs.Keys
    && |ps| <= maxPlayers
    && nextId >= 1
    && (forall pid :: pid in ps ==> 1 <= pid < nextId)
    && (forall pid :: pid in ps ==> Passable((ps[pid].x, ps[pid].y)) && ps[pid].score >= 0)
  }

  /** An answered microphone is never claimed, and a claimant is always a
      connected player (so the lock of a microphone is never held for
      somebody who left). */
  ghost predicate StationInv(ms: seq<Mic>, ps: map<int, PlayerRec>) {
    && (forall i :: 0 <= i < |ms| && ms[i].answered ==> ms[i].activeBy == None)
    && (forall i :: 0 <= i < |ms| && ms[i].activeBy.Some? ==> ms[i].activeBy.value in ps)
  }

  /** The clock runs exactly when the game started; before the first
      admission nothing has happened yet. */
  ghost predicate PhaseInv(ms: seq<Mic>, nextId: int, started: bool, over: bool, start: Option<int>) {
    && (started <==> start.Some?)
    && (!started ==> !over && nextId == 1 && forall i :: 0 <= i < |ms| ==> !ms[i].answered)
  }

  lemma AdmitKeepsInv(ps: map<int, PlayerRec>, cs: map<int, Conn>, ms: seq<Mic>, maxPlayers: nat, nextId: int,
                      started: bool, over: bool, start: Option<int>, conn: Conn, now: int)
    requires RegistryInv(ps, cs, maxPlayers, nextId) && StationInv(ms, ps) && PhaseInv(ms, nextId, started, over, start)
    requires |ps| < maxPlayers
    ensures nextId !in ps
    ensures
      var ps' := ps[nextId := PlayerRec(SpawnPosition(nextId).0, SpawnPosition(nextId).1, 0)];
      var start' := if started then start else Some(now);
      && RegistryInv(ps', cs[nextId := conn], maxPlayers, nextId + 1)
      && StationInv(ms, ps')
      && PhaseInv(ms, nextId + 1, true, over, start')
  {
  }

  lemma MoveKeepsInv(ps: map<int, PlayerRec>, cs: map<int, Conn>, ms: seq<Mic>, maxPlayers: nat, nextId: int,
                     pid: int, c: Cell)
    requires RegistryInv(ps, cs, maxPlayers, nextId) && StationInv(ms, ps)
    requires pid in ps && Passable(c)
    ensures RegistryInv(ps[pid := ps[pid].(x := c.0, y := c.1)], cs, maxPlayers, nextId)
    ensures StationInv(ms, ps[pid := ps[pid].(x := c.0, y := c.1)])
  {
  }

  lemma ClaimKeepsInv(ps: map<int, PlayerRec>, ms: seq<Mic>, nextId: int, started: bool, over: bool,
                      start: Option<int>, k: nat, pid: int)
    requires StationInv(ms, ps) && PhaseInv(ms, nextId, started, over, start)
    requires k < |ms| && !ms[k].answered && pid in ps
    ensures StationInv(ms[k := ms[k].(activeBy := Some(pid))], ps)
    ensures PhaseInv(ms[k := ms[k].(activeBy := Some(pid))], nextId, started, over, start)
  {
  }

  lemma ReleaseKeepsInv(ps: map<int, PlayerRec>, ms: seq<Mic>, nextId: int, started: bool, over: bool,
                        start: Option<int>, k: nat)
    requires StationInv(ms, ps) && PhaseInv(ms, nextId, started, over, start)
    requires k < |ms|
    ensures StationInv(ms[k := ms[k].(activeBy := None)], ps)
    ensures PhaseInv(ms[k := ms[k].(activeBy := None)], nextId, started, over, start)
  {
  }

  lemma CorrectKeepsInv(ps: map<int, PlayerRec>, cs: map<int, Conn>, ms: seq<Mic>, maxPlayers: nat, nextId: int,
                        started: bool, over: bool, start: Option<int>, k: nat, pid: int, over': bool)
    requires RegistryInv(ps, cs, maxPlayers, nextId) && StationInv(ms, ps) && PhaseInv(ms, nextId, started, over, start)
    requires k < |ms| && ms[k].activeBy == Some(pid)
    ensures pid in ps && started
    ensures
      var ps' := ps[pid := ps[pid].(score := ps[pid].score + 1)];
      var ms' := ms[k := ms[k].(answered := true, activeBy := None)];
      && RegistryInv(ps', cs, maxPlayers, nextId)
      && StationInv(ms', ps')
      && PhaseInv(ms', nextId, started, over', start)
  {
  }

  /** Progress is transitive when no player comes back in between. */
  lemma ProgressTrans(ms1: seq<Mic>, ms2: seq<Mic>, ms3: seq<Mic>,
                      ps1: map<int, PlayerRec>, ps2: map<int, PlayerRec>, ps3: map<int, PlayerRec>)
    requires Progress(ms1, ms2, ps1, ps2) && Progress(ms2, ms3, ps2, ps3)
    requires ps3.Keys <= ps2.Keys || ps1.Keys <= ps2.Keys
    ensures Progress(ms1, ms3, ps1, ps3)
  {
  }

  /** `ms'` is `ms` with every claim of `pid` released. */
  ghost predicate ReleasedAll(ms: seq<Mic>, ms': seq<Mic>, pid: int) {
    |ms'| == |ms| &&
    forall i :: 0 <= i < |ms| ==>
      ms'[i] == if ms[i].activeBy == Some(pid) then ms[i].(activeBy := None) else ms[i]
  }

  lemma DisconnectKeepsInv(ps: map<int, PlayerRec>, cs: map<int, Conn>, ms: seq<Mic>, maxPlayers: nat, nextId: int,
                           started: bool, over: bool, start: Option<int>, pid: int, ms': seq<Mic>)
    requires RegistryInv(ps, cs, maxPlayers, nextId) && StationInv(ms, ps) && PhaseInv(ms, nextId, started, over, start)
    requires ReleasedAll(ms, ms', pid)
    ensures RegistryInv(ps - {pid}, cs - {pid}, maxPlayers, nextId)
    ensures StationInv(ms', ps - {pid})
    ensures PhaseInv(ms', nextId, started, over, start)
    ensures forall i :: 0 <= i < |ms'| ==> ms'[i].activeBy != Some(pid)
  {
    assert |ps - {pid}| <= |ps| by {
      assert (ps - {pid}).Keys <= ps.Keys;
    }
  }

  // ---------------------------------------------------------------------------
  // The session

  class Server {
    const maxPlayers: nat
    const timeLimit: int
    var players: map<int, PlayerRec>
    var clients: map<int, Conn>
    var mics: seq<Mic>
    var gameStarted: bool
    var gameOver: bool
    var startTime: Option<int>
    /** The next id the accepting loop hands out. */
    var nextPlayerId: int

    ghost predicate Valid()
      reads this
    {
      && RegistryInv(players, clients, maxPlayers, nextPlayerId)
      && StationInv(mics, players)
      && PhaseInv(mics, nextPlayerId, gameStarted, gameOver, startTime)
    }

    /** The state message broadcast after a move, a correct answer, a
        disconnect and every timer second. */
    function BuildStateMessage(now: int): (m: Message)
      reads this
      ensures m.State? && m.players.Some? && m.mics.Some?
      ensures m.players.value == PlayerViews(players)
      ensures m.mics.value == MicViews(mics)
      ensures m.timeLeft.Some? <==> gameStarted && startTime.Some?
      ensures m.timeLeft.Some? ==> m.timeLeft.value >= 0
      ensures m.timeLeft.Some? ==> m.timeLeft.value == TimeLeft(timeLimit, startTime.value, now)
      ensures m.gameOver <==> gameOver
    {
      StateMessage(players, mics, Remaining(gameStarted, startTime, timeLimit, now), gameOver)
    }

    constructor (timeLimit: int, maxPlayers: nat)
      ensures Valid()
      ensures this.timeLimit == timeLimit && this.maxPlayers == maxPlayers
      ensures players == map[] && clients == map[] && mics == InitialMics()
      ensures !gameStarted && !gameOver && startTime == None && nextPlayerId == 1
    {
      this.timeLimit := timeLimit;
      this.maxPlayers := maxPlayers;
      players := map[];
      clients := map[];
      mics := InitialMics();
      gameStarted := false;
      gameOver := false;
      startTime := None;
      nextPlayerId := 1;
    }

    /** Admission of one accepted connection at time `now`. A full server
        answers with an error and changes nothing; otherwise the player
        gets the next id, a spawn cell and score 0, the first admission
        starts the game clock, and the reply is the init message. */
    method Admit(conn: Conn, now: int) returns (reply: Message)
      requires Valid()
      modifies this
      ensures Valid()
      ensures old(|players|) >= maxPlayers ==> reply == Error(FullText) && unchanged(this)
      ensures old(|players|) < maxPlayers ==>
        var pid := old(nextPlayerId);
        && pid !in old(players)
        && players == old(players)[pid := PlayerRec(SpawnPosition(pid).0, SpawnPosition(pid).1, 0)]
        && clients == old(clients)[pid := conn]
        && nextPlayerId == pid + 1
        && gameStarted
        && startTime == (if old(gameStarted) then old(startTime) else Some(now))
        && mics == old(mics) && gameOver == old(gameOver)
        && reply == Init(pid, PlayerViews(players), MicViews(mics), TimeLeft(timeLimit, startTime.value, now))
    {
      if |players| >= maxPlayers {
        return Error(FullText);
      }
      AdmitKeepsInv(players, clients, mics, maxPlayers, nextPlayerId, gameStarted, gameOver, startTime, conn, now);
      var pid := nextPlayerId;
      var spawn := SpawnPosition(pid);
      nextPlayerId := nextPlayerId + 1;
      players := players[pid := PlayerRec(spawn.0, spawn.1, 0)];
      clients := clients[pid := conn];
      if !gameStarted {
        gameStarted := true;
        startTime := Some(now);
      }
      reply := Init(pid, PlayerViews(players), MicViews(mics), TimeLeft(timeLimit, startTime.value, now));
    }

    /** What a move request does: the player's position becomes `MoveFrom`
        of the old one, nothing else changes, and the state is broadcast. */
    twostate predicate Moved(pid: int, direction: string, now: int, fx: Effects)
      reads this
    {
      && (pid in old(players) ==>
            var p := old(players)[pid];
            var c := MoveFrom((p.x, p.y), direction);
            players == old(players)[pid := p.(x := c.0, y := c.1)])
      && (pid !in old(players) ==> players == old(players))
      && mics == old(mics) && gameOver == old(gameOver)
      && fx == Effects(None, [BuildStateMessage(now)], false)
    }

    /** What an interact request does: a free station under a connected
        player becomes claimed by it and its question is sent back; a
        claimed one is left alone and the player is told it is in use;
        otherwise nothing happens. Nothing is broadcast and the players and
        the game-over flag are untouched. */
    twostate predicate Interacted(pid: int, fx: Effects)
      reads this
    {
      && players == old(players) && gameOver == old(gameOver)
      && fx.broadcast == [] && !fx.endLoop
      && (pid !in old(players) ==> mics == old(mics) && fx.reply == None)
      && (pid in old(players) ==>
            var k := FirstOpenMicAt(old(mics), old(players)[pid].x, old(players)[pid].y);
            && (k.None? ==> mics == old(mics) && fx.reply == None)
            && (k.Some? && old(mics)[k.value].activeBy == None ==>
                  var m := old(mics)[k.value];
                  mics == old(mics)[k.value := m.(activeBy := Some(pid))]
                  && fx.reply == Some(Question(m.id, m.question, m.options)))
            && (k.Some? && old(mics)[k.value].activeBy.Some? ==>
                  mics == old(mics) && fx.reply == Some(Info(BusyText))))
    }

    /** What an answer submission does: unless station `micId` exists, is
        unanswered and is claimed by the player, nothing; otherwise the
        answer is accepted or rejected according to the station's correct
        option. */
    twostate predicate Answered(pid: int, micId: int, answer: int, now: int, fx: Effects)
      reads this
    {
      var k := MicWithId(old(mics), micId);
      if k.None? || old(mics)[k.value].answered || old(mics)[k.value].activeBy != Some(pid) then
        mics == old(mics) && players == old(players) && gameOver == old(gameOver) && fx == NoEffect
      else if answer == old(mics)[k.value].correctIndex then Accepted(k.value, pid, now, fx)
      else Rejected(k.value, fx)
    }

    /** A correct answer to station `k` by `pid`: the station is marked
        answered and released, the player (when still connected) gains a
        point, the game ends when every station is answered, and the state
        (with the game-over flag as it was before) is broadcast, followed
        by the final scores when the game has ended, which also ends the
        handler's loop. */
    twostate predicate Accepted(k: nat, pid: int, now: int, fx: Effects)
      reads this
    {
      && k < |old(mics)|
      && mics == old(mics)[k := old(mics)[k].(answered := true, activeBy := None)]
      && players == (if pid in old(players) then old(players)[pid := old(players)[pid].(score := old(players)[pid].score + 1)]
                     else old(players))
      && gameOver == (old(gameOver) || AllAnswered(mics))
      && fx.reply == Some(AnswerResult(true))
      && fx.broadcast == [StateMessage(players, mics, Remaining(gameStarted, startTime, timeLimit, now), old(gameOver))]
                         + (if gameOver then [GameOverMessage(players)] else [])
      && fx.endLoop == gameOver
    }

    /** A wrong answer to station `k`: the station is released, the player
        is told, and nothing else changes. */
    twostate predicate Rejected(k: nat, fx: Effects)
      reads this
    {
      && k < |old(mics)|
      && mics == old(mics)[k := old(mics)[k].(activeBy := None)]
      && players == old(players) && gameOver == old(gameOver)
      && fx == Effects(Some(AnswerResult(false)), [], false)
    }

    /** What a quiz cancellation does when it is handled: the claimant of
        station `micId` releases it; from anybody else it changes nothing. */
    twostate predicate Cancelled(pid: int, micId: int)
      reads this
    {
      var k := MicWithId(old(mics), micId);
      if k.Some? && old(mics)[k.value].activeBy == Some(pid) then
        mics == old(mics)[k.value := old(mics)[k.value].(activeBy := None)]
      else mics == old(mics)
    }

    /** A move request: the player steps one cell in the named direction
        when that cell is on the map and not an obstacle, and otherwise
        stays; the state message is broadcast in every case. */
    method Move(pid: int, direction: string, now: int) returns (fx: Effects)
      requires Valid()
      modifies this`players
      ensures Valid()
      ensures Moved(pid, direction, now, fx)
      ensures Progress(old(mics), mics, old(players), players)
      ensures Fits(Message.Move(direction), fx)
    {
      if pid in players {
        var p := players[pid];
        // the requested cell: one step up, down, left or right, or no step
        var target := Target((p.x, p.y), ParseDirection(direction));
        var newX, newY := target.0, target.1;
        if 0 <= newX < MapWidth && 0 <= newY < MapHeight {
          if (newX, newY) !in Obstacles {
            MoveKeepsInv(players, clients, mics, maxPlayers, nextPlayerId, pid, (newX, newY));
            players := players[pid := p.(x := newX, y := newY)];
          }
        }
      }
      fx := Effects(None, [BuildStateMessage(now)], false);
    }

    /** The search of the interact handler: the first unanswered
        microphone of `ms` on cell (x, y). */
    static method LocateMic(ms: seq<Mic>, x: int, y: int) returns (k: Option<nat>)
      ensures k == FirstOpenMicAt(ms, x, y)
      ensures k.Some? ==> k.value < |ms| && ms[k.value].x == x && ms[k.value].y == y && !ms[k.value].answered
    {
      k := None;
      var i := 0;
      while i < |ms|
        invariant 0 <= i <= |ms|
        invariant forall j :: 0 <= j < i ==> !(ms[j].x == x && ms[j].y == y && !ms[j].answered)
      {
        if ms[i].x == x && ms[i].y == y && !ms[i].answered {
          k := Some(i);
          return;
        }
        i := i + 1;
      }
    }

    /** An interact request: a test-and-set on the first unanswered
        microphone under the player. A free one becomes claimed by the
        player, who receives its question; a claimed one is left alone and
        the player is told it is in use. */
    method Interact(pid: int) returns (fx: Effects)
      requires Valid()
      modifies this`mics
      ensures Valid()
      ensures Interacted(pid, fx)
      ensures Progress(old(mics), mics, old(players), players)
      ensures Fits(Message.Interact, fx)
    {
      if pid !in players {
        return NoEffect;
      }
      var p := players[pid];
      var k := LocateMic(mics, p.x, p.y);
      if k.None? {
        return NoEffect;
      }
      var m := mics[k.value];
      if m.activeBy == None {
        ClaimKeepsInv(players, mics, nextPlayerId, gameStarted, gameOver, startTime, k.value, pid);
        mics := mics[k.value := m.(activeBy := Some(pid))];
        fx := Effects(Some(Question(m.id, m.question, m.options)), [], false);
      } else {
        fx := Effects(Some(Info(BusyText)), [], false);
      }
    }

    /** An answer submission. It is ignored unless the microphone exists,
        is unanswered and is claimed by this player. A correct answer marks
        the microphone answered, releases it, adds one to the player's
        score, broadcasts the state (built before the game-over flag is
        set) and, when every microphone is answered, ends the game and the
        handler. A wrong answer only releases the microphone. */
    method Answer(pid: int, micId: int, answer: int, now: int) returns (fx: Effects)
      requires Valid()
      modifies this`mics, this`players, this`gameOver
      ensures Valid()
      ensures Progress(old(mics), mics, old(players), players)
      ensures players.Keys == old(players).Keys
      ensures Answered(pid, micId, answer, now, fx)
      ensures Fits(Message.Answer(micId, answer), fx)
      ensures fx.endLoop ==> gameOver
      ensures gameOver != old(gameOver) ==> fx.endLoop
    {
      var k := MicWithId(mics, micId);
      if k.None? || mics[k.value].answered || mics[k.value].activeBy != Some(pid) {
        return NoEffect;
      }
      if answer == mics[k.value].correctIndex {
        fx := AcceptAnswer(k.value, pid, now);
      } else {
        fx := RejectAnswer(k.value);
      }
    }

    /** The wrong-answer branch of the answer handler: release microphone
        `k` and tell the player. */
    method RejectAnswer(k: nat) returns (fx: Effects)
      requires Valid()
      requires k < |mics|
      modifies this`mics
      ensures Valid()
      ensures Progress(old(mics), mics, old(players), players)
      ensures Rejected(k, fx)
      ensures AnswerFits(fx) && !fx.endLoop
    {
      var m := mics[k];
      ReleaseKeepsInv(players, mics, nextPlayerId, gameStarted, gameOver, startTime, k);
      mics := mics[k := m.(activeBy := None)];
      fx := Effects(Some(AnswerResult(false)), [], false);
    }

    /** The correct-answer branch of the answer handler, for microphone
        `k` claimed by `pid`: record the answer, broadcast the snapshot
        taken before the game-over check, then end the game when every
        microphone is answered. */
    method AcceptAnswer(k: nat, pid: int, now: int) returns (fx: Effects)
      requires Valid()
      requires k < |mics| && mics[k].activeBy == Some(pid)
      modifies this`mics, this`players, this`gameOver
      ensures Valid()
      ensures Progress(old(mics), mics, old(players), players)
      ensures Accepted(k, pid, now, fx)
      ensures AnswerFits(fx)
      ensures fx.endLoop ==> gameOver
      ensures gameOver != old(gameOver) ==> fx.endLoop
    {
      RecordCorrect(k, pid);
      var stateMsg := BuildStateMessage(now);
      var allAnswered := CheckAllAnswered(mics);
      if allAnswered {
        gameOver := true;
      }
      var broadcast := [stateMsg];
      if gameOver {
        broadcast := broadcast + [GameOverMessage(players)];
      }
      fx := Effects(Some(AnswerResult(true)), broadcast, gameOver);
    }

    /** Marks microphone `k` answered, releases it and credits its
        claimant `pid` with one point. */
    method RecordCorrect(k: nat, pid: int)
      requires Valid()
      requires k < |mics| && mics[k].activeBy == Some(pid)
      modifies this`mics, this`players
      ensures Valid() && gameStarted
      ensures Progress(old(mics), mics, old(players), players)
      ensures
        var m := old(mics)[k];
        var p := old(players)[pid];
        && mics == old(mics)[k := m.(answered := true, activeBy := None)]
        && players == old(players)[pid := p.(score := p.score + 1)]
    {
      CorrectKeepsInv(players, clients, mics, maxPlayers, nextPlayerId, gameStarted, gameOver, startTime, k, pid, gameOver);
      var m := mics[k];
      mics := mics[k := m.(answered := true, activeBy := None)];
      if pid in players {
        var p := players[pid];
        players := players[pid := p.(score := p.score + 1)];
      }
    }

    /** Cleanup after a handler's loop ends: the player leaves the registry
        and the client table, every microphone it claimed is released
        (nothing else about any microphone changes), and the state message
        is broadcast unless the game is over. */
    method Disconnect(pid: int, now: int) returns (broadcast: Option<Message>)
      requires Valid()
      modifies this`players, this`clients, this`mics
      ensures Valid()
      ensures pid !in players && pid !in clients
      ensures pid !in old(players) ==> players == old(players) && clients == old(clients) && mics == old(mics) && broadcast == None
      ensures pid in old(players) ==>
        && players == old(players) - {pid}
        && clients == old(clients) - {pid}
        && ReleasedAll(old(mics), mics, pid)
        && broadcast == (if gameOver then None else Some(BuildStateMessage(now)))
      ensures Progress(old(mics), mics, old(players), players)
    {
      broadcast := None;
      if pid !in players {
        return;
      }
      players := players - {pid};
      clients := clients - {pid};
      ghost var ms := mics;
      ReleaseClaims(pid);
      DisconnectKeepsInv(old(players), old(clients), ms, maxPlayers, nextPlayerId, gameStarted, gameOver, startTime, pid, mics);
      if !gameOver {
        broadcast := Some(BuildStateMessage(now));
      }
    }

    /** Releases every microphone `pid` has claimed, one station at a time. */
    method ReleaseClaims(pid: int)
      modifies this`mics
      ensures ReleasedAll(old(mics), mics, pid)
    {
      var i := 0;
      while i < |mics|
        invariant 0 <= i <= |mics| && |mics| == |old(mics)|
        invariant forall j :: 0 <= j < i ==>
          mics[j] == if old(mics)[j].activeBy == Some(pid) then old(mics)[j].(activeBy := None) else old(mics)[j]
        invariant forall j :: i <= j < |mics| ==> mics[j] == old(mics)[j]
      {
        if mics[i].activeBy == Some(pid) {
          mics := mics[i := mics[i].(activeBy := None)];
        }
        i := i + 1;
      }
    }

    /** One second of the timer loop, entered at the loop's guard. An
        ended game leaves the loop, which broadcasts the final scores. A
        running game whose time left (limit minus whole seconds elapsed)
        is at most zero is ended the same way; otherwise the state is
        broadcast and the loop goes on. */
    method TimerTick(now: int) returns (running: bool, broadcast: Option<Message>)
      requires Valid()
      modifies this`gameOver
      ensures Valid()
      ensures old(gameOver) ==> !running && gameOver && broadcast == Some(GameOverMessage(players))
      ensures !old(gameOver) && !gameStarted ==> running && !gameOver && broadcast == None
      ensures !old(gameOver) && gameStarted ==>
        && (gameOver <==> TimeLeft(timeLimit, startTime.value, now) == 0)
        && running == !gameOver
        && broadcast == Some(if gameOver then GameOverMessage(players) else BuildStateMessage(now))
    {
      if gameOver {
        return false, Some(GameOverMessage(players));
      }
      running, broadcast := true, None;
      if gameStarted && !gameOver {
        var timeLeft := timeLimit - (now - startTime.value);
        if timeLeft <= 0 {
          gameOver := true;
          return false, Some(GameOverMessage(players));
        }
        broadcast := Some(BuildStateMessage(now));
      }
    }

    /** One iteration of a client handler: dispatch on the message type;
        types other than move, interact and answer are dropped. */
    method Dispatch(pid: int, a: Arrival) returns (fx: Effects)
      requires Valid()
      modifies this`players, this`mics, this`gameOver
      ensures Valid()
      ensures Progress(old(mics), mics, old(players), players)
      ensures players.Keys == old(players).Keys
      ensures a.msg.Move? ==> Moved(pid, a.msg.direction, a.at, fx)
      ensures a.msg.Interact? ==> Interacted(pid, fx)
      ensures a.msg.Answer? ==> Answered(pid, a.msg.answerMicId, a.msg.answer, a.at, fx)
      ensures !(a.msg.Move? || a.msg.Interact? || a.msg.Answer?) ==>
        players == old(players) && mics == old(mics) && gameOver == old(gameOver) && fx == NoEffect
      ensures Fits(a.msg, fx)
      ensures fx.endLoop ==> gameOver
      ensures gameOver != old(gameOver) ==> fx.endLoop
    {
      match a.msg
      case Move(direction) =>
        fx := Move(pid, direction, a.at);
      case Interact =>
        fx := Interact(pid);
      case Answer(micId, answer) =>
        fx := Answer(pid, micId, answer, a.at);
      case _ =>
        fx := NoEffect;
    }

    /** The cancellation the client sends when its player leaves the quiz
        view, as the server treats it: it is dropped, so the claim
        survives and the claimant, back on the microphone, is told that it
        is in use (as is everybody else, until the claimant disconnects). */
    method RetryAfterCancel(pid: int, now: int) returns (first: Effects, second: Effects)
      requires Valid() && pid in players
      requires var k := FirstOpenMicAt(mics, players[pid].x, players[pid].y);
        k.Some? && mics[k.value].activeBy == None
      modifies this`players, this`mics, this`gameOver
      ensures first.reply.Some? && first.reply.value.Question?
      ensures second.reply == Some(Info(BusyText))
    {
      first := Interact(pid);
      var cancel := Dispatch(pid, Arrival(Message.CancelQuiz(Some(first.reply.value.micId)), now));
      second := Interact(pid);
    }

    /** A quiz cancellation handled: the claimant of a microphone releases
        it; a cancellation by anybody else changes nothing. */
    method Cancel(pid: int, micId: int)
      requires Valid()
      modifies this`mics
      ensures Valid()
      ensures Progress(old(mics), mics, players, players)
      ensures Cancelled(pid, micId)
    {
      var k := MicWithId(mics, micId);
      if k.Some? && mics[k.value].activeBy == Some(pid) {
        ReleaseKeepsInv(players, mics, nextPlayerId, gameStarted, gameOver, startTime, k.value);
        mics := mics[k.value := mics[k.value].(activeBy := None)];
      }
    }

    /** The dispatch with a branch for quiz cancellations; every other
        type is handled as before. */
    method DispatchFixed(pid: int, a: Arrival) returns (fx: Effects)
      requires Valid()
      modifies this`players, this`mics, this`gameOver
      ensures Valid()
      ensures Progress(old(mics), mics, old(players), players)
      ensures players.Keys == old(players).Keys
      ensures a.msg.Move? ==> Moved(pid, a.msg.direction, a.at, fx)
      ensures a.msg.Interact? ==> Interacted(pid, fx)
      ensures a.msg.Answer? ==> Answered(pid, a.msg.answerMicId, a.msg.answer, a.at, fx)
      ensures a.msg.CancelQuiz? && a.msg.cancelMicId.Some? ==>
        && Cancelled(pid, a.msg.cancelMicId.value)
        && players == old(players) && gameOver == old(gameOver) && fx == NoEffect
      ensures a.msg == Message.CancelQuiz(None) ==>
        players == old(players) && mics == old(mics) && gameOver == old(gameOver) && fx == NoEffect
      ensures !(a.msg.Move? || a.msg.Interact? || a.msg.Answer? || a.msg.CancelQuiz?) ==>
        players == old(players) && mics == old(mics) && gameOver == old(gameOver) && fx == NoEffect
    {
      match a.msg
      case Move(direction) =>
        fx := Move(pid, direction, a.at);
      case Interact =>
        fx := Interact(pid);
      case Answer(micId, answer) =>
        fx := Answer(pid, micId, answer, a.at);
      case CancelQuiz(Some(micId)) =>
        Cancel(pid, micId);
        fx := NoEffect;
      case _ =>
        fx := NoEffect;
    }

    /** With cancellations handled, leaving the quiz view and interacting
        again brings the same question back. */
    method RetryAfterCancelFixed(pid: int, now: int) returns (first: Effects, second: Effects)
      requires Valid() && pid in players
      requires forall i, j :: 0 <= i < j < |mics| ==> mics[i].id != mics[j].id
      requires var k := FirstOpenMicAt(mics, players[pid].x, players[pid].y);
        k.Some? && mics[k.value].activeBy == None
      modifies this`players, this`mics, this`gameOver
      ensures first.reply.Some? && first.reply.value.Question?
      ensures second.reply == first.reply
    {
      ghost var ms := mics;
      ghost var k := FirstOpenMicAt(mics, players[pid].x, players[pid].y).value;
      first := Interact(pid);
      assert mics == ms[k := ms[k].(activeBy := Some(pid))];
      assert MicWithId(mics, ms[k].id) == Some(k);
      var cancel := DispatchFixed(pid, Arrival(Message.CancelQuiz(Some(first.reply.value.micId)), now));
      assert mics == ms;
      second := Interact(pid);
    }

    /** One pass of the handler's loop, as the loop relies on it: the
        dispatch keeps the invariant, its effects fit the message, and the
        loop is told to end exactly when this pass ended the game. */
    method Iteration(pid: int, a: Arrival) returns (fx: Effects)
      requires Valid()
      modifies this`players, this`mics, this`gameOver
      ensures Valid()
      ensures Progress(old(mics), mics, old(players), players)
      ensures players.Keys == old(players).Keys
      ensures Fits(a.msg, fx)
      ensures fx.endLoop ==> gameOver
      ensures gameOver != old(gameOver) ==> fx.endLoop
    {
      fx := Dispatch(pid, a);
    }

    /** The loop of a client handler: process the messages received until
        the game is over, the stream ends or an answer ends the game. */
    method Serve(pid: int, inbox: seq<Arrival>) returns (log: seq<Effects>)
      requires Valid()
      modifies this`players, this`mics, this`gameOver
      ensures Valid()
      ensures Progress(old(mics), mics, old(players), players)
      ensures players.Keys == old(players).Keys
      ensures |log| <= |inbox|
      ensures forall i :: 0 <= i < |log| ==> Fits(inbox[i].msg, log[i])
      ensures old(gameOver) ==> log == [] && players == old(players) && mics == old(mics)
      ensures |log| < |inbox| ==> gameOver
      ensures forall i :: 0 <= i < |log| - 1 ==> !log[i].endLoop
      ensures gameOver && !old(gameOver) ==> |log| > 0 && log[|log| - 1].endLoop
    {
      log := [];
      var i := 0;
      while i < |inbox| && !gameOver
        invariant 0 <= i <= |inbox| && |log| == i
        invariant Valid()
        invariant Progress(old(mics), mics, old(players), players)
        invariant players.Keys == old(players).Keys
        invariant forall j :: 0 <= j < i ==> Fits(inbox[j].msg, log[j])
        invariant gameOver == (old(gameOver) && i == 0)
        invariant old(gameOver) ==> i == 0 && players == old(players) && mics == old(mics)
        invariant forall j :: 0 <= j < i ==> !log[j].endLoop
      {
        ghost var ms, ps := mics, players;
        var fx := Iteration(pid, inbox[i]);
        ProgressTrans(old(mics), ms, mics, old(players), ps, players);
        ghost var before := log;
        log := log + [fx];
        assert log[i] == fx && forall j :: 0 <= j < i ==> log[j] == before[j];
        i := i + 1;
        if fx.endLoop {
          break;
        }
      }
    }

    /** The whole client handler: the loop, then the disconnect cleanup at
        time `closedAt`. */
    method HandleClient(pid: int, inbox: seq<Arrival>, closedAt: int) returns (log: seq<Effects>, cleanup: Option<Message>)
      requires Valid()
      modifies this`players, this`clients, this`mics, this`gameOver
      ensures Valid()
      ensures pid !in players && pid !in clients
      ensures forall i :: 0 <= i < |mics| ==> mics[i].activeBy != Some(pid)
      ensures Progress(old(mics), mics, old(players), players)
      ensures players.Keys == old(players).Keys - {pid}
      ensures |log| <= |inbox|
    {
      log := Serve(pid, inbox);
      ghost var ms, ps := mics, players;
      cleanup := Disconnect(pid, closedAt);
      ProgressTrans(old(mics), ms, mics, old(players), ps, players);
    }
  }
}

/** The game client: the state it keeps in sync with the server, the
    listener that folds incoming messages into that state, the handshake,
    the keyboard and mouse handling of its main loop, and the two pure
    computations its game-over and timer displays make. */
module GameClient {
  import opened Protocol

  // ---------------------------------------------------------------- state

  /** The quiz question the local player is looking at. */
  datatype QuestionView = QuestionView(id: int, text: string, options: seq<string>)

  /** The last info message and the second it arrived. */
  datatype InfoNote = InfoNote(text: string, at: int)

  /** Everything the client knows, as one value. */
  datatype ClientView = ClientView(
    playerId: Option<int>,
    players: map<int, PlayerView>,
    microphones: seq<MicView>,
    timeLeft: Option<int>,
    gameOver: bool,
    inQuestion: bool,
    currentQuestion: Option<QuestionView>,
    lastAnswerCorrect: Option<bool>,
    inLobby: bool,
    playersReady: map<int, bool>,
    countdown: Option<int>,
    ready: bool,
    info: Option<InfoNote>)

  const InitialView := ClientView(None, map[], [], None, false, false, None, None, true, map[], None, false, None)

  /** The quiz fields agree: a question is shown exactly when there is one,
      and a question is never shown right after it was answered correctly. */
  predicate QuizInv(v: ClientView) {
    && (v.inQuestion <==> v.currentQuestion.Some?)
    && (v.lastAnswerCorrect == Some(true) ==> !v.inQuestion)
  }

  /** The quiz fields are the same in both views. */
  predicate SameQuiz(v: ClientView, w: ClientView) {
    v.inQuestion == w.inQuestion && v.currentQuestion == w.currentQuestion && v.lastAnswerCorrect == w.lastAnswerCorrect
  }

  /** The lobby fields are the same in both views. */
  predicate SameLobby(v: ClientView, w: ClientView) {
    v.inLobby == w.inLobby && v.playersReady == w.playersReady && v.countdown == w.countdown && v.ready == w.ready
  }

  /** The synchronised game fields are the same in both views. */
  predicate SameGame(v: ClientView, w: ClientView) {
    v.players == w.players && v.microphones == w.microphones && v.timeLeft == w.timeLeft && v.gameOver == w.gameOver
  }

  // ---------------------------------------------------------------- the listener

  /** The effect of one message received at second `now`. Types the
      listener has no branch for leave the view as it was. */
  function Apply(v: ClientView, msg: Message, now: int): (w: ClientView)
    ensures v.gameOver ==> w.gameOver
    ensures w.playerId == v.playerId
    ensures !msg.GameStart? ==> w.inLobby == v.inLobby
  {
    match msg
    case LobbyState(ready) => v.(playersReady := ready)
    case Countdown(t) => v.(countdown := Some(t))
    case GameStart => v.(inLobby := false)
    case State(ps, ms, t, over) => ApplyState(v, ps, ms, t, over)
    case Question(micId, text, options) => ApplyQuestion(v, micId, text, options)
    case AnswerResult(correct) => ApplyAnswerResult(v, correct)
    case GameOver(ps) => ApplyGameOver(v, ps)
    case Info(text) => v.(info := Some(InfoNote(text, now)))
    case _ => v
  }

  /** A state message: each part it carries replaces the local one, the
      game-over flag is raised by the message's own flag and never
      lowered, and the quiz, the lobby and the notice stay as they were. */
  function ApplyState(v: ClientView, ps: Option<map<int, PlayerView>>, ms: Option<seq<MicView>>,
                      t: Option<int>, over: bool): (w: ClientView)
    ensures w.players == (if ps.Some? then ps.value else v.players)
    ensures w.microphones == (if ms.Some? then ms.value else v.microphones)
    ensures w.timeLeft == (if t.Some? then t else v.timeLeft)
    ensures w.gameOver <==> v.gameOver || over
    ensures SameQuiz(v, w) && SameLobby(v, w) && w.info == v.info && w.playerId == v.playerId
  {
    v.(players := if ps.Some? then ps.value else v.players,
       microphones := if ms.Some? then ms.value else v.microphones,
       timeLeft := if t.Some? then t else v.timeLeft,
       gameOver := v.gameOver || over)
  }

  /** A question opens the quiz view on it and clears the last verdict;
      the game and the lobby stay as they were. */
  function ApplyQuestion(v: ClientView, micId: int, text: string, options: seq<string>): (w: ClientView)
    ensures w.inQuestion && w.currentQuestion == Some(QuestionView(micId, text, options))
    ensures w.lastAnswerCorrect.None?
    ensures QuizInv(w)
    ensures SameGame(v, w) && SameLobby(v, w) && w.info == v.info && w.playerId == v.playerId
  {
    v.(inQuestion := true, currentQuestion := Some(QuestionView(micId, text, options)), lastAnswerCorrect := None)
  }

  /** A verdict is recorded; a correct one also closes the quiz view, a
      wrong one leaves it open for another try. The game and the lobby stay
      as they were, and consistent quiz fields stay consistent. */
  function ApplyAnswerResult(v: ClientView, correct: bool): (w: ClientView)
    ensures w.lastAnswerCorrect == Some(correct)
    ensures correct ==> !w.inQuestion && w.currentQuestion.None?
    ensures !correct ==> w.inQuestion == v.inQuestion && w.currentQuestion == v.currentQuestion
    ensures QuizInv(v) ==> QuizInv(w)
    ensures SameGame(v, w) && SameLobby(v, w) && w.info == v.info && w.playerId == v.playerId
  {
    if correct then v.(inQuestion := false, currentQuestion := None, lastAnswerCorrect := Some(true))
    else v.(lastAnswerCorrect := Some(false))
  }

  /** The game-over message ends the game and, when it carries them,
      installs the final players; the quiz and the lobby stay as they were. */
  function ApplyGameOver(v: ClientView, ps: Option<map<int, PlayerView>>): (w: ClientView)
    ensures w.gameOver
    ensures w.players == (if ps.Some? then ps.value else v.players)
    ensures w.microphones == v.microphones && w.timeLeft == v.timeLeft
    ensures SameQuiz(v, w) && SameLobby(v, w) && w.playerId == v.playerId
  {
    v.(gameOver := true, players := if ps.Some? then ps.value else v.players)
  }

  /** Whether the listener goes on after this message: only game over ends it. */
  predicate Continues(msg: Message) {
    !msg.GameOver?
  }

  /** The listener over a whole inbox: messages in order until a game-over
      message or the end of the stream (a failed receive). */
  function Run(v: ClientView, inbox: seq<Arrival>): (r: ClientView)
    ensures r.playerId == v.playerId
    ensures (forall i :: 0 <= i < |inbox| ==> !inbox[i].msg.GameStart?) ==> r.inLobby == v.inLobby
    decreases |inbox|
  {
    if inbox == [] then v
    else
      var w := Apply(v, inbox[0].msg, inbox[0].at);
      if Continues(inbox[0].msg) then Run(w, inbox[1..]) else w
  }

  /** A state message replaces exactly the parts it carries, raises the
      game-over flag only when its own flag is set, and touches nothing of
      the quiz or the lobby. */
  lemma StateMessageEffect(v: ClientView, ps: Option<map<int, PlayerView>>, ms: Option<seq<MicView>>,
                           t: Option<int>, over: bool, now: int)
    ensures var w := Apply(v, State(ps, ms, t, over), now);
      && (ps.None? ==> w.players == v.players) && (ps.Some? ==> w.players == ps.value)
      && (ms.None? ==> w.microphones == v.microphones) && (ms.Some? ==> w.microphones == ms.value)
      && (t.None? ==> w.timeLeft == v.timeLeft) && (t.Some? ==> w.timeLeft == t)
      && (w.gameOver <==> v.gameOver || over)
      && SameQuiz(v, w) && SameLobby(v, w) && w.info == v.info
  {
  }

  /** Lobby messages change their own field and nothing else. */
  lemma LobbyMessagesLocal(v: ClientView, msg: Message, now: int)
    requires msg.LobbyState? || msg.Countdown? || msg.GameStart?
    ensures var w := Apply(v, msg, now);
      && SameQuiz(v, w) && SameGame(v, w) && w.info == v.info && w.ready == v.ready
      && (msg.LobbyState? ==> w == v.(playersReady := msg.ready))
      && (msg.Countdown? ==> w == v.(countdown := Some(msg.time)))
      && (msg.GameStart? ==> w == v.(inLobby := false))
  {
  }

  /** A question opens the quiz view on that question with no verdict yet,
      and touches neither the game nor the lobby. */
  lemma QuestionEffect(v: ClientView, micId: int, text: string, options: seq<string>, now: int)
    ensures var w := Apply(v, Question(micId, text, options), now);
      && w.inQuestion && w.currentQuestion == Some(QuestionView(micId, text, options))
      && w.lastAnswerCorrect.None?
      && SameGame(v, w) && SameLobby(v, w)
  {
  }

  /** A correct answer result closes the quiz view; a wrong one only
      records the miss. Neither touches the game or the lobby. */
  lemma AnswerResultEffect(v: ClientView, correct: bool, now: int)
    ensures var w := Apply(v, AnswerResult(correct), now);
      && (correct ==> !w.inQuestion && w.currentQuestion.None? && w.lastAnswerCorrect == Some(true))
      && (!correct ==> w.inQuestion == v.inQuestion && w.currentQuestion == v.currentQuestion
                       && w.lastAnswerCorrect == Some(false))
      && SameGame(v, w) && SameLobby(v, w)
  {
  }

  /** Messages the listener has no branch for (including an init or an
      error arriving after the handshake, and anything a client sends)
      change nothing. */
  lemma IgnoredMessagesNoOp(v: ClientView, msg: Message, now: int)
    requires msg.Init? || msg.Error? || msg.Move? || msg.Interact? || msg.Answer?
             || msg.CancelQuiz? || msg.PlayerReady? || msg.Other?
    ensures Apply(v, msg, now) == v && Continues(msg)
  {
  }

  /** Every message keeps the quiz fields consistent. */
  lemma ApplyKeepsQuizInv(v: ClientView, msg: Message, now: int)
    requires QuizInv(v)
    ensures QuizInv(Apply(v, msg, now))
  {
    match msg
    case Question(micId, text, options) =>
    case AnswerResult(correct) =>
    case State(ps, ms, t, over) =>
    case GameOver(ps) =>
    case _ =>
  }

  /** Once over, the game stays over for the rest of any inbox. */
  lemma {:induction false} RunKeepsGameOver(v: ClientView, inbox: seq<Arrival>)
    requires v.gameOver
    ensures Run(v, inbox).gameOver
    decreases |inbox|
  {
    if inbox != [] {
      var w := Apply(v, inbox[0].msg, inbox[0].at);
      if Continues(inbox[0].msg) {
        RunKeepsGameOver(w, inbox[1..]);
      }
    }
  }

  /** The quiz fields stay consistent over any inbox. */
  lemma {:induction false} RunKeepsQuizInv(v: ClientView, inbox: seq<Arrival>)
    requires QuizInv(v)
    ensures QuizInv(Run(v, inbox))
    decreases |inbox|
  {
    if inbox != [] {
      ApplyKeepsQuizInv(v, inbox[0].msg, inbox[0].at);
      var w := Apply(v, inbox[0].msg, inbox[0].at);
      if Continues(inbox[0].msg) {
        RunKeepsQuizInv(w, inbox[1..]);
      }
    }
  }

  /** The listener stops at a game-over message: whatever follows it in
      the stream is never looked at, and the game is then over. */
  lemma {:induction false} RunStopsAtGameOver(v: ClientView, before: seq<Arrival>, last: Arrival, after: seq<Arrival>)
    requires last.msg.GameOver?
    ensures Run(v, before + [last] + after) == Run(v, before + [last])
    ensures (forall i :: 0 <= i < |before| ==> Continues(before[i].msg)) ==> Run(v, before + [last]).gameOver
    decreases |before|
  {
    if before == [] {
      assert before + [last] + after == [last] + after;
      assert before + [last] == [last];
    } else {
      var w := Apply(v, before[0].msg, before[0].at);
      assert (before + [last] + after)[1..] == before[1..] + [last] + after;
      assert (before + [last])[1..] == before[1..] + [last];
      RunStopsAtGameOver(w, before[1..], last, after);
    }
  }

  // ---------------------------------------------------------------- the handshake

  /** The handshake: the first message must be an init, which sets the
      player's id and the players; anything else (or a closed stream) is a
      connection error. */
  function Handshake(v: ClientView, first: Option<Message>): (r: Option<ClientView>)
    ensures r.Some? <==> first.Some? && first.value.Init?
    ensures r.Some? ==> r.value.playerId == Some(first.value.playerId) && r.value.players == first.value.initPlayers
    ensures r.Some? ==> SameQuiz(v, r.value) && SameLobby(v, r.value) && r.value.microphones == v.microphones
  {
    match first
    case Some(Init(pid, ps, _, _)) => Some(v.(playerId := Some(pid), players := ps))
    case _ => None
  }

  // ---------------------------------------------------------------- input handling

  /** The keys the main loop reacts to. */
  datatype Key =
    | KeyW | KeyA | KeyS | KeyD | KeyUp | KeyDown | KeyLeft | KeyRight
    | KeyE | KeySpace | Key1 | Key2 | Key3 | Key4 | KeyEscape | KeyOther(code: int)

  /** The input events the main loop reacts to; `ButtonClick` is a mouse
      press on the lobby's ready button. */
  datatype Event = Quit | KeyPress(key: Key) | ButtonClick | OtherEvent

  /** The number keys choose an option, counting from zero. */
  function OptionIndex(k: Key): (r: Option<nat>)
    ensures r.Some? <==> k in {Key1, Key2, Key3, Key4}
    ensures r.Some? ==> r.value < 4
  {
    match k
    case Key1 => Some(0)
    case Key2 => Some(1)
    case Key3 => Some(2)
    case Key4 => Some(3)
    case _ => None
  }

  /** Distinct number keys choose distinct options. */
  lemma OptionIndexInjective(j: Key, k: Key)
    requires OptionIndex(j).Some? && OptionIndex(j) == OptionIndex(k)
    ensures j == k
  {
  }

  /** The movement keys: WASD and the four arrows. */
  predicate MoveKey(k: Key) {
    k in {KeyW, KeyA, KeyS, KeyD, KeyUp, KeyDown, KeyLeft, KeyRight}
  }

  /** What a key sends outside the quiz: WASD or the arrows move, E or
      space interacts, and no other key sends anything. */
  function Command(k: Key): (r: Option<Message>)
    ensures r.Some? ==> r.value.Move? || r.value == Interact
    ensures (r.Some? && r.value.Move?) <==> MoveKey(k)
    ensures r == Some(Interact) <==> k == KeyE || k == KeySpace
  {
    match k
    case KeyW => Some(Move("up"))
    case KeyUp => Some(Move("up"))
    case KeyS => Some(Move("down"))
    case KeyDown => Some(Move("down"))
    case KeyA => Some(Move("left"))
    case KeyLeft => Some(Move("left"))
    case KeyD => Some(Move("right"))
    case KeyRight => Some(Move("right"))
    case KeyE => Some(Interact)
    case KeySpace => Some(Interact)
    case _ => None
  }

  /** What the main loop does with one event: the new view, whether the
      loop is asked to stop, and the messages sent. */
  datatype Reaction = Reaction(view: ClientView, stop: bool, sent: seq<Message>)

  /** The reaction to a key while the quiz view is open: a number key
      answers when the question has that many options; escape closes the
      view and tells the server which microphone was left. */
  function QuizKey(v: ClientView, k: Key): (r: Reaction)
    ensures !r.stop && |r.sent| <= 1
  {
    if k == KeyEscape then
      var micId := if v.currentQuestion.Some? then Some(v.currentQuestion.value.id) else None;
      Reaction(v.(inQuestion := false, currentQuestion := None, lastAnswerCorrect := None), false, [CancelQuiz(micId)])
    else
      match OptionIndex(k)
      case Some(i) =>
        if v.currentQuestion.Some? && i < |v.currentQuestion.value.options| then
          Reaction(v, false, [Answer(v.currentQuestion.value.id, i)])
        else Reaction(v, false, [])
      case None => Reaction(v, false, [])
  }

  /** One event of the main loop, as written: in the lobby only the ready
      button counts; during the game keys move, interact or answer; once
      the game is over no key does anything. */
  function OnEvent(v: ClientView, ev: Event): (r: Reaction)
    ensures r.stop <==> ev == Quit
  {
    match ev
    case Quit => Reaction(v, true, [])
    case ButtonClick =>
      if v.inLobby then Reaction(v.(ready := !v.ready), false, [PlayerReady]) else Reaction(v, false, [])
    case KeyPress(k) =>
      if v.inLobby || v.gameOver then Reaction(v, false, [])
      else if !v.inQuestion then
        Reaction(v, false, if Command(k).Some? then [Command(k).value] else [])
      else QuizKey(v, k)
    case OtherEvent => Reaction(v, false, [])
  }

  /** An answer is sent exactly when the quiz view is open on a question,
      a number key is pressed and the question has that option; the answer
      names the question's microphone and the option's index. */
  lemma AnswerSentExactly(v: ClientView, k: Key)
    requires !v.inLobby && !v.gameOver
    ensures var r := OnEvent(v, KeyPress(k));
      (exists i :: 0 <= i < |r.sent| && r.sent[i].Answer?) <==>
        v.inQuestion && v.currentQuestion.Some? && OptionIndex(k).Some?
        && OptionIndex(k).value < |v.currentQuestion.value.options|
    ensures var r := OnEvent(v, KeyPress(k));
      forall i :: 0 <= i < |r.sent| && r.sent[i].Answer? ==>
        r.sent[i] == Answer(v.currentQuestion.value.id, OptionIndex(k).value)
  {
    var r := OnEvent(v, KeyPress(k));
    if v.inQuestion && v.currentQuestion.Some? && OptionIndex(k).Some?
       && OptionIndex(k).value < |v.currentQuestion.value.options| {
      assert r.sent[0].Answer?;
    }
  }

  /** Nothing is sent and nothing changes in the lobby on a key, or on any
      key once the game is over. */
  lemma KeysIgnoredOutsideGame(v: ClientView, k: Key)
    requires v.inLobby || v.gameOver
    ensures OnEvent(v, KeyPress(k)) == Reaction(v, false, [])
  {
  }

  /** Escape in the quiz view closes it and reports the question's
      microphone to the server. */
  lemma EscapeLeavesQuiz(v: ClientView)
    requires !v.inLobby && !v.gameOver && v.inQuestion && QuizInv(v)
    ensures var r := OnEvent(v, KeyPress(KeyEscape));
      && !r.view.inQuestion && r.view.currentQuestion.None? && r.view.lastAnswerCorrect.None?
      && r.sent == [CancelQuiz(Some(v.currentQuestion.value.id))]
      && SameGame(v, r.view) && SameLobby(v, r.view)
  {
  }

  /** Input never breaks the quiz fields' consistency, and never touches
      the synchronised game fields. */
  lemma OnEventKeepsQuizInv(v: ClientView, ev: Event)
    requires QuizInv(v)
    ensures QuizInv(OnEvent(v, ev).view) && SameGame(v, OnEvent(v, ev).view)
  {
  }

  /** As written, "press any key to exit" on the game-over screen cannot
      happen: the game-over key branch sits under the test that the game
      is not over. */
  lemma GameOverKeyIgnored(v: ClientView)
    requires !v.inLobby && v.gameOver
    ensures !OnEvent(v, KeyPress(KeyOther(0))).stop
  {
  }

  /** The game-over screen's prompt honoured: any key stops the loop once
      the game is over; everything else as before. */
  function OnEventFixed(v: ClientView, ev: Event): (r: Reaction)
    ensures r.stop <==> ev == Quit || (ev.KeyPress? && !v.inLobby && v.gameOver)
    ensures !(ev.KeyPress? && !v.inLobby && v.gameOver) ==> r == OnEvent(v, ev)
  {
    if ev.KeyPress? && !v.inLobby && v.gameOver then Reaction(v, true, [])
    else OnEvent(v, ev)
  }

  // ---------------------------------------------------------------- the timer display

  /** Minutes and seconds of the timer, from floor division and the
      non-negative remainder. */
  function SplitTime(t: int): (r: (int, int))
    ensures r.0 * 60 + r.1 == t && 0 <= r.1 < 60
  {
    (t / 60, t % 60)
  }

  /** The split is the only one with seconds in range. */
  lemma SplitTimeUnique(t: int, m: int, s: int)
    requires m * 60 + s == t && 0 <= s < 60
    ensures SplitTime(t) == (m, s)
  {
    var r := SplitTime(t);
    assert (m - r.0) * 60 == r.1 - s;
  }

  /** The decimal digit character for `d`. */
  function DigitChar(d: nat): (c: char)
    requires d < 10
    ensures '0' <= c <= '9' && c as int - '0' as int == d
  {
    ('0' as int + d) as char
  }

  /** Decimal digits of `n`, most significant first, no leading zero. */
  function Digits(n: nat): (s: string)
    ensures |s| >= 1 && (n < 10 <==> |s| == 1) && (n < 100 ==> |s| <= 2)
    ensures forall i :: 0 <= i < |s| ==> '0' <= s[i] <= '9'
    decreases n
  {
    if n < 10 then [DigitChar(n)] else Digits(n / 10) + [DigitChar(n % 10)]
  }

  /** Reads a string of decimal digits back. */
  function FromDigits(s: string): nat
    requires forall i :: 0 <= i < |s| ==> '0' <= s[i] <= '9'
  {
    if s == [] then 0 else FromDigits(s[..|s| - 1]) * 10 + (s[|s| - 1] as int - '0' as int)
  }

  /** Formatting with at least two digits, zero-padded. */
  function Pad2(n: nat): (s: string)
    ensures |s| >= 2 && (n < 100 ==> |s| == 2)
    ensures forall i :: 0 <= i < |s| ==> '0' <= s[i] <= '9'
  {
    if n < 10 then "0" + Digits(n) else Digits(n)
  }

  /** The timer line drawn for `t` seconds left. */
  function TimerText(t: nat): (s: string)
    ensures |s| >= 11 && s[..6] == "Time: "
  {
    var (minutes, seconds) := SplitTime(t);
    "Time: " + Pad2(minutes) + ":" + Pad2(seconds)
  }

  lemma {:induction false} DigitsRoundTrip(n: nat)
    ensures FromDigits(Digits(n)) == n
    decreases n
  {
    if n >= 10 {
      DigitsRoundTrip(n / 10);
      var s := Digits(n);
      assert s[..|s| - 1] == Digits(n / 10);
      assert s[|s| - 1] == DigitChar(n % 10);
    }
  }

  lemma {:induction false} LeadingZero(s: string)
    requires forall i :: 0 <= i < |s| ==> '0' <= s[i] <= '9'
    ensures FromDigits("0" + s) == FromDigits(s)
    decreases |s|
  {
    if s != [] {
      var t := "0" + s;
      assert t[..|t| - 1] == "0" + s[..|s| - 1];
      LeadingZero(s[..|s| - 1]);
    }
  }

  /** Padding does not change the number a field reads back as. */
  lemma Pad2RoundTrip(n: nat)
    ensures FromDigits(Pad2(n)) == n
  {
    DigitsRoundTrip(n);
    if n < 10 { LeadingZero(Digits(n)); }
  }

  /** The seconds field of the timer line is the last two characters and
      reads back as the seconds left in the current minute. */
  lemma TimerTextSeconds(t: nat)
    ensures var s := TimerText(t); FromDigits(s[|s| - 2..]) == t % 60
  {
    var s := TimerText(t);
    assert s[|s| - 2..] == Pad2(t % 60);
    Pad2RoundTrip(t % 60);
  }

  /** The minutes field of the timer line runs from after "Time: " up to
      the colon three characters from the end, and reads back as the whole
      minutes left; with the seconds field this makes the line determine
      the time left. */
  lemma TimerTextMinutes(t: nat)
    ensures var s := TimerText(t);
      && s[|s| - 3] == ':'
      && (forall i :: 6 <= i < |s| - 3 ==> '0' <= s[i] <= '9')
      && FromDigits(s[6..|s| - 3]) == t / 60
  {
    var s := TimerText(t);
    var m := Pad2(t / 60);
    assert s == "Time: " + m + ":" + Pad2(t % 60);
    assert s[6..|s| - 3] == m;
    Pad2RoundTrip(t / 60);
  }

  // ---------------------------------------------------------------- the game-over ranking

  /** A scoreboard line: a player id and that player's score. */
  type Entry = (int, int)

  /** Scores never increase down the list. */
  predicate Descending(s: seq<Entry>) {
    forall i, j :: 0 <= i < j < |s| ==> s[i].1 >= s[j].1
  }

  /** The entries scoring `k`, in their order in `s`. */
  function WithScore(s: seq<Entry>, k: int): seq<Entry>
  {
    if s == [] then [] else WithScore(s[..|s| - 1], k) + (if s[|s| - 1].1 == k then [s[|s| - 1]] else [])
  }

  /** Inserts `e` into a descending list after every entry scoring at least
      as much. */
  function Insert(e: Entry, s: seq<Entry>): (r: seq<Entry>)
    ensures multiset(r) == multiset(s) + multiset{e}
    ensures |r| == |s| + 1
  {
    if s == [] then [e]
    else if s[0].1 >= e.1 then
      assert s == [s[0]] + s[1..];
      [s[0]] + Insert(e, s[1..])
    else [e] + s
  }

  /** The final ranking: the scoreboard's entries in the order the
      dictionary lists them, stably sorted by score, highest first. */
  function Ranking(items: seq<Entry>): (r: seq<Entry>)
    ensures multiset(r) == multiset(items)
    decreases |items|
  {
    if items == [] then []
    else
      assert items == items[..|items| - 1] + [items[|items| - 1]];
      Insert(items[|items| - 1], Ranking(items[..|items| - 1]))
  }

  lemma {:induction false} InsertDescending(e: Entry, s: seq<Entry>)
    requires Descending(s)
    ensures Descending(Insert(e, s))
    decreases |s|
  {
    if s != [] && s[0].1 >= e.1 {
      InsertDescending(e, s[1..]);
      var r := Insert(e, s);
      forall i, j | 0 <= i < j < |r| ensures r[i].1 >= r[j].1 {
        if i == 0 {
          assert r[j] in multiset(Insert(e, s[1..]));
          assert r[j] in multiset(s[1..]) + multiset{e};
          if r[j] != e {
            assert r[j] in s[1..];
          }
        }
      }
    }
  }

  lemma {:induction false} WithScoreAppend(s: seq<Entry>, e: Entry, k: int)
    ensures WithScore(s + [e], k) == WithScore(s, k) + (if e.1 == k then [e] else [])
  {
    assert (s + [e])[..|s + [e]| - 1] == s;
  }

  lemma {:induction false} WithScorePrepend(e: Entry, s: seq<Entry>, k: int)
    ensures WithScore([e] + s, k) == (if e.1 == k then [e] else []) + WithScore(s, k)
    decreases |s|
  {
    if s == [] {
      assert [e] + s == [e];
      assert [e][..0] == [];
    } else {
      var last := s[|s| - 1];
      assert [e] + s == ([e] + s[..|s| - 1]) + [last];
      WithScoreAppend([e] + s[..|s| - 1], last, k);
      WithScorePrepend(e, s[..|s| - 1], k);
      WithScoreAppend(s[..|s| - 1], last, k);
      assert s == s[..|s| - 1] + [last];
    }
  }

  lemma {:induction false} WithScoreNone(s: seq<Entry>, k: int)
    requires forall i :: 0 <= i < |s| ==> s[i].1 < k
    ensures WithScore(s, k) == []
    decreases |s|
  {
    if s != [] {
      WithScoreNone(s[..|s| - 1], k);
    }
  }

  lemma {:induction false} InsertStable(e: Entry, s: seq<Entry>, k: int)
    requires Descending(s)
    ensures WithScore(Insert(e, s), k) == WithScore(s, k) + (if e.1 == k then [e] else [])
    decreases |s|
  {
    if s == [] {
      assert Insert(e, s) == [] + [e];
      WithScoreAppend([], e, k);
    } else if s[0].1 >= e.1 {
      var tail := s[1..];
      assert Descending(tail) by {
        forall i, j | 0 <= i < j < |tail| ensures tail[i].1 >= tail[j].1 {
          assert tail[i] == s[i + 1] && tail[j] == s[j + 1];
        }
      }
      InsertStable(e, tail, k);
      InsertStableBehind(e, s, k);
    } else {
      InsertStableInFront(e, s, k);
    }
  }

  /** The step of `InsertStable` where `e` goes behind the head. */
  lemma InsertStableBehind(e: Entry, s: seq<Entry>, k: int)
    requires s != [] && s[0].1 >= e.1
    requires WithScore(Insert(e, s[1..]), k) == WithScore(s[1..], k) + (if e.1 == k then [e] else [])
    ensures WithScore(Insert(e, s), k) == WithScore(s, k) + (if e.1 == k then [e] else [])
  {
    var tail := s[1..];
    var h := if s[0].1 == k then [s[0]] else [];
    var x := if e.1 == k then [e] else [];
    var a := Insert(e, tail);
    assert Insert(e, s) == [s[0]] + a;
    WithScorePrepend(s[0], a, k);
    WithScorePrepend(s[0], tail, k);
    assert s == [s[0]] + tail;
    assert h + (WithScore(tail, k) + x) == (h + WithScore(tail, k)) + x;
    calc {
      WithScore(Insert(e, s), k);
      h + WithScore(a, k);
      h + (WithScore(tail, k) + x);
      (h + WithScore(tail, k)) + x;
      WithScore(s, k) + x;
    }
  }

  /** The step of `InsertStable` where `e` goes in front: nothing in `s`
      scores as much as `e`. */
  lemma InsertStableInFront(e: Entry, s: seq<Entry>, k: int)
    requires Descending(s) && s != [] && s[0].1 < e.1
    ensures WithScore(Insert(e, s), k) == WithScore(s, k) + (if e.1 == k then [e] else [])
  {
    assert Insert(e, s) == [e] + s;
    WithScorePrepend(e, s, k);
    if e.1 == k {
      assert forall i :: 0 <= i < |s| ==> s[i].1 <= s[0].1;
      WithScoreNone(s, k);
    }
  }

  /** The ranking is ordered by score, highest first (and, by its
      contract, lists every entry exactly once). */
  lemma {:induction false} RankingDescending(items: seq<Entry>)
    ensures Descending(Ranking(items))
    decreases |items|
  {
    if items != [] {
      var init := items[..|items| - 1];
      RankingDescending(init);
      InsertDescending(items[|items| - 1], Ranking(init));
    }
  }

  /** The ranking keeps entries with equal scores in their original order. */
  lemma {:induction false} RankingStable(items: seq<Entry>, k: int)
    ensures WithScore(Ranking(items), k) == WithScore(items, k)
    decreases |items|
  {
    if items != [] {
      var init, last := items[..|items| - 1], items[|items| - 1];
      assert Ranking(items) == Insert(last, Ranking(init));
      RankingStable(init, k);
      RankingDescending(init);
      InsertStable(last, Ranking(init), k);
    }
  }

  // ---------------------------------------------------------------- the client object

  class Client {
    var playerId: Option<int>
    var players: map<int, PlayerView>
    var microphones: seq<MicView>
    var timeLeft: Option<int>
    var gameOver: bool
    var inQuestion: bool
    var currentQuestion: Option<QuestionView>
    var lastAnswerCorrect: Option<bool>
    var inLobby: bool
    var playersReady: map<int, bool>
    var countdown: Option<int>
    var ready: bool
    var info: Option<InfoNote>

    function View(): ClientView
      reads this
    {
      ClientView(playerId, players, microphones, timeLeft, gameOver, inQuestion, currentQuestion,
                 lastAnswerCorrect, inLobby, playersReady, countdown, ready, info)
    }

    constructor ()
      ensures View() == InitialView && QuizInv(View())
    {
      playerId, players, microphones, timeLeft, gameOver := None, map[], [], None, false;
      inQuestion, currentQuestion, lastAnswerCorrect := false, None, None;
      inLobby, playersReady, countdown, ready := true, map[], None, false;
      info := None;
    }

    /** The handshake after connecting; `first` is what the first receive
        returned (`None` when the stream closed). */
    method Connect(first: Option<Message>) returns (ok: bool)
      modifies this
      ensures ok <==> Handshake(old(View()), first).Some?
      ensures ok ==> View() == Handshake(old(View()), first).value
      ensures !ok ==> View() == old(View())
    {
      if first.Some? && first.value.Init? {
        playerId := Some(first.value.playerId);
        players := first.value.initPlayers;
        ok := true;
      } else {
        ok := false;
      }
    }

    /** One iteration of the listener. */
    method Receive(a: Arrival) returns (goOn: bool)
      modifies this
      ensures View() == Apply(old(View()), a.msg, a.at) && goOn == Continues(a.msg)
    {
      goOn := true;
      match a.msg {
        case LobbyState(r) =>
          playersReady := r;
        case Countdown(t) =>
          countdown := Some(t);
        case GameStart =>
          inLobby := false;
        case State(ps, ms, t, over) =>
          ReceiveState(ps, ms, t, over);
        case Question(micId, text, options) =>
          ReceiveQuestion(micId, text, options);
        case AnswerResult(correct) =>
          ReceiveAnswerResult(correct);
        case GameOver(ps) =>
          ReceiveGameOver(ps);
          goOn := false;
        case Info(text) =>
          info := Some(InfoNote(text, a.at));
        case _ =>
      }
    }

    method ReceiveState(ps: Option<map<int, PlayerView>>, ms: Option<seq<MicView>>, t: Option<int>, over: bool)
      modifies this`players, this`microphones, this`timeLeft, this`gameOver
      ensures View() == ApplyState(old(View()), ps, ms, t, over)
    {
      if ps.Some? { players := ps.value; }
      if ms.Some? { microphones := ms.value; }
      if t.Some? { timeLeft := t; }
      if over { gameOver := true; }
    }

    method ReceiveQuestion(micId: int, text: string, options: seq<string>)
      modifies this`inQuestion, this`currentQuestion, this`lastAnswerCorrect
      ensures View() == ApplyQuestion(old(View()), micId, text, options)
    {
      inQuestion := true;
      currentQuestion := Some(QuestionView(micId, text, options));
      lastAnswerCorrect := None;
    }

    method ReceiveAnswerResult(correct: bool)
      modifies this`inQuestion, this`currentQuestion, this`lastAnswerCorrect
      ensures View() == ApplyAnswerResult(old(View()), correct)
    {
      if correct {
        inQuestion := false;
        currentQuestion := None;
        lastAnswerCorrect := Some(true);
      } else {
        lastAnswerCorrect := Some(false);
      }
    }

    method ReceiveGameOver(ps: Option<map<int, PlayerView>>)
      modifies this`gameOver, this`players
      ensures View() == ApplyGameOver(old(View()), ps)
    {
      gameOver := true;
      if ps.Some? { players := ps.value; }
    }

    /** The listener thread: receive until game over or until a receive
        fails (the end of `inbox`). */
    method Listen(inbox: seq<Arrival>)
      modifies this
      ensures View() == Run(old(View()), inbox)
    {
      var i := 0;
      while i < |inbox|
        invariant 0 <= i <= |inbox|
        invariant Run(old(View()), inbox) == Run(View(), inbox[i..])
      {
        var goOn := Receive(inbox[i]);
        if !goOn {
          return;
        }
        assert inbox[i..][1..] == inbox[i + 1..];
        i := i + 1;
      }
    }

    /** One event of the main loop. */
    method HandleEvent(ev: Event) returns (stop: bool, sent: seq<Message>)
      modifies this`ready, this`inQuestion, this`currentQuestion, this`lastAnswerCorrect
      ensures Reaction(View(), stop, sent) == OnEvent(old(View()), ev)
    {
      stop, sent := false, [];
      match ev {
        case Quit =>
          stop := true;
        case ButtonClick =>
          if inLobby {
            ready := !ready;
            sent := [PlayerReady];
          }
        case KeyPress(k) =>
          if !inLobby && !gameOver {
            if !inQuestion {
              var cmd := Command(k);
              if cmd.Some? { sent := [cmd.value]; }
            } else if k == KeyEscape {
              var micId := if currentQuestion.Some? then Some(currentQuestion.value.id) else None;
              inQuestion, currentQuestion, lastAnswerCorrect := false, None, None;
              sent := [CancelQuiz(micId)];
            } else {
              var selected := OptionIndex(k);
              if selected.Some? && currentQuestion.Some? && selected.value < |currentQuestion.value.options| {
                sent := [Answer(currentQuestion.value.id, selected.value)];
              }
            }
          }
        case OtherEvent =>
      }
    }
  }
}

/** The messages exchanged between the quiz server and its clients.
    On the wire every message is a dictionary with a "type" key; here each
    type is one constructor, and the dictionary keys a receiver tests for
    presence are `Option` fields. */
module Protocol {

  datatype Option<+T> = None | Some(value: T)

  /** What a snapshot says about one player. The server's state and init
      messages carry position and score; its game-over message carries the
      score only. */
  datatype PlayerView =
    | Placed(x: int, y: int, score: int)
    | Scored(score: int)

  /** What a snapshot says about one microphone (quiz station). */
  datatype MicView = MicView(id: int, x: int, y: int, answered: bool)

  datatype Message =
    // server -> client
    | Init(playerId: int, initPlayers: map<int, PlayerView>, initMics: seq<MicView>, initTimeLeft: int)
    | Error(text: string)
    | LobbyState(ready: map<int, bool>)
    | Countdown(time: int)
    | GameStart
    | State(players: Option<map<int, PlayerView>>, mics: Option<seq<MicView>>,
            timeLeft: Option<int>, gameOver: bool)
    | Question(micId: int, question: string, options: seq<string>)
    | AnswerResult(correct: bool)
    | Info(text: string)
    | GameOver(finalPlayers: Option<map<int, PlayerView>>)
    // client -> server
    | Move(direction: string)
    | Interact
    | Answer(answerMicId: int, answer: int)
    | CancelQuiz(cancelMicId: Option<int>)
    | PlayerReady
    // any other "type"
    | Other(tag: string)

  /** A message together with the (integer) wall-clock second at which it is
      received. */
  datatype Arrival = Arrival(msg: Message, at: int)

  const BusyText := "Microphone is currently in use by another player."
  const FullText := "Server full"
}

/** The page's session: its four state fields, the two user actions that start a
    generation (`startGame`, `handleChoice`), the completion of that generation,
    and the controls each phase shows. A generation is split in two steps: the
    action enters `Loading` and hands back the log for the service; `Complete`
    then applies what the service settled to. Clock readings are parameters. */
module App {
  import opened Types
  import opened Transcript
  import SessionSummary
  import GeminiService

  /** Which `await` is outstanding: the one in `startGame` or the one in `handleChoice`. */
  datatype Flow = Starting | Picking

  /** Shown when the thrown value is not an `Error`. */
  const UnknownError: string := "Wystąpił nieznany, chujowy błąd."

  /** The choice the "insult the game master" button sends. */
  const Insult: string := "Spierdalaj, gnoju."

  /** `err instanceof Error ? err.message : ...`. */
  function ErrorText(thrown: GeminiService.Thrown): (r: string)
    ensures thrown.ErrorValue? ==> r == thrown.message
    ensures thrown.OtherValue? ==> r == UnknownError
  {
    if thrown.ErrorValue? then thrown.message else UnknownError
  }

  /** The buttons a phase renders; the insult button may be rendered disabled. */
  datatype Control = StartButton | ChoiceButton(text: string) | InsultButton(enabled: bool) | RetryButton

  /** What pressing a control does. */
  datatype Action = Begin | Pick(choice: string)

  /** The action of a control; a disabled control does nothing. */
  function ActionOf(c: Control): (r: Option<Action>)
    ensures r == None <==> c == InsultButton(false)
    ensures r == Some(Begin) <==> c == StartButton || c == RetryButton
    ensures forall t :: r == Some(Pick(t)) <==> c == ChoiceButton(t) || (c == InsultButton(true) && t == Insult)
  {
    match c
    case StartButton => Some(Begin)
    case RetryButton => Some(Begin)
    case ChoiceButton(text) => Some(Pick(text))
    case InsultButton(enabled) => if enabled then Some(Pick(Insult)) else None
  }

  /** One button per offered choice, in order. */
  function ChoiceButtons(cs: seq<string>): (r: seq<Control>)
    ensures |r| == |cs|
    ensures forall i :: 0 <= i < |cs| ==> r[i] == ChoiceButton(cs[i])
  {
    if cs == [] then [] else [ChoiceButton(cs[0])] + ChoiceButtons(cs[1..])
  }

  /** There is a button for a choice exactly when that choice is offered. */
  lemma {:induction false} ChoiceButtonsMembers(cs: seq<string>)
    ensures forall text :: ChoiceButton(text) in ChoiceButtons(cs) <==> text in cs
  {
    if cs != [] {
      ChoiceButtonsMembers(cs[1..]);
      assert cs == [cs[0]] + cs[1..];
    }
  }

  class Session {
    var gameState: GameState
    var log: seq<LogEntry>
    var choices: seq<string>
    var error: Option<string>
    /** The generation in flight, if any: there is one exactly while `Loading`. */
    var pending: Option<Flow>

    /** The session invariant. The log always alternates from a story; while
        `Playing` it ends with a story; a pending pick has just appended a choice;
        the choice set is empty whenever no choice can be made; an error message is
        held exactly in the `Error` phase. */
    ghost predicate Valid()
      reads this
    {
      && (gameState == Loading <==> pending.Some?)
      && (gameState == Loading ==> choices == [])
      && ByParity(log)
      && (gameState == Start ==> log == [] && choices == [])
      && (gameState == Playing ==> |log| % 2 == 1)
      && (pending == Some(Starting) ==> log == [] && choices == [])
      && (pending == Some(Picking) ==> |log| % 2 == 0 && log != [] && choices == [])
      && (gameState == Error ==> error.Some? && choices == [])
      && (gameState != Error ==> error == None)
    }

    /** The initial state: `Start`, an empty log and no choices. */
    constructor ()
      ensures Valid()
      ensures gameState == Start && log == [] && choices == [] && error == None && pending == None
    {
      gameState := Start;
      log := [];
      choices := [];
      error := None;
      pending := None;
    }

    /** `startGame`, up to its `await`: clears the log, the choices and the error,
        enters `Loading`, and asks the service about the empty log. */
    method StartGame() returns (request: seq<LogEntry>)
      modifies this
      ensures Valid()
      ensures log == [] && choices == [] && error == None
      ensures gameState == Loading && pending == Some(Starting)
      ensures request == []
    {
      log := [];
      choices := [];
      error := None;
      gameState := Loading;
      pending := Some(Starting);
      request := [];
    }

    /** `handleChoice(choice)`, up to its `await`: appends the choice entry, clears
        the choices and enters `Loading`. The restart choice then behaves exactly
        like `startGame`, clearing the log it has just extended; any other choice
        asks the service about the extended log. */
    method HandleChoice(choice: string, now: int) returns (request: seq<LogEntry>)
      requires Valid() && gameState == Playing
      modifies this
      ensures Valid()
      ensures choice == Restart ==>
        && log == [] && choices == [] && error == None
        && gameState == Loading && pending == Some(Starting)
        && request == []
      ensures choice != Restart ==>
        && log == old(log) + [LogEntry(now, Choice, choice)]
        && choices == [] && error == old(error)
        && gameState == Loading && pending == Some(Picking)
        && request == log
    {
      var newLog := log + [LogEntry(now, Choice, choice)];
      log := newLog;
      choices := [];
      gameState := Loading;
      if choice == Restart {
        request := StartGame();
        return;
      }
      pending := Some(Picking);
      request := newLog;
    }

    /** The rest of `startGame` or `handleChoice`, once the service has settled.
        A segment becomes one story entry (the whole log after `startGame`, appended
        after a pick), its choices become the offered choices, and the phase becomes
        `Playing`. A rejection records its message and the phase becomes `Error`;
        the log stays as it was and no choice is offered. */
    method Complete(outcome: GeminiService.Outcome, now: int)
      requires Valid() && gameState == Loading
      modifies this
      ensures Valid() && pending == None
      ensures old(pending) == Some(Starting) && outcome.Returned? ==>
        && log == [LogEntry(now, Story, outcome.segment.story)]
        && choices == outcome.segment.choices
        && gameState == Playing && error == None
      ensures old(pending) == Some(Picking) && outcome.Returned? ==>
        && log == old(log) + [LogEntry(now + 1, Story, outcome.segment.story)]
        && choices == outcome.segment.choices
        && gameState == Playing && error == None
      ensures outcome.Raised? ==>
        && gameState == Error && error == Some(ErrorText(outcome.error))
        && log == old(log) && choices == []
      ensures old(pending) == Some(Picking) && outcome.Raised? ==>
        log != [] && log[|log| - 1].kind == Choice
    {
      var flow := pending.value;
      pending := None;
      match outcome
      case Returned(segment) =>
        if flow == Starting {
          log := [LogEntry(now, Story, segment.story)];
        } else {
          log := log + [LogEntry(now + 1, Story, segment.story)];
        }
        choices := segment.choices;
        gameState := Playing;
      case Raised(thrown) =>
        error := Some(ErrorText(thrown));
        gameState := Error;
    }

    /** `startGame` as a whole: the request, the service's answer, the completion.
        It ends `Playing` with a one-story log and at least one choice, or in `Error`
        with an empty log and one of the service's fixed messages; without a key it
        always ends `Playing` with the three offline choices. */
    method StartGameAndWait(now: int, hasApiKey: bool, draw: nat,
                            remote: string -> GeminiService.RemoteReply,
                            parse: string -> GeminiService.ParseResult)
      requires draw < |GeminiService.Insults|
      modifies this
      ensures Valid() && (gameState == Playing || gameState == Error)
      ensures gameState == Playing ==>
        && |log| == 1 && log[0].kind == Story && log[0].id == now
        && |choices| >= 1
      ensures gameState == Error ==>
        && log == [] && choices == []
        && error.Some? && error.value in GeminiService.FatalMessages
      ensures !hasApiKey ==> gameState == Playing && choices == GeminiService.OfflineChoices
    {
      var request := StartGame();
      var outcome := GeminiService.GenerateStorySegment(request, hasApiKey, draw, remote, parse);
      Complete(outcome, now);
    }

    /** `handleChoice` as a whole. A restart ends as `startGame` does. Any other
        choice keeps the old log and the appended choice entry, and adds one story
        entry on success; `Playing` then offers at least one choice, and `Error`
        shows one of the service's fixed messages. */
    method HandleChoiceAndWait(choice: string, nowPick: int, nowReply: int, hasApiKey: bool, draw: nat,
                               remote: string -> GeminiService.RemoteReply,
                               parse: string -> GeminiService.ParseResult)
      requires Valid() && gameState == Playing
      requires draw < |GeminiService.Insults|
      modifies this
      ensures Valid() && (gameState == Playing || gameState == Error)
      ensures gameState == Playing ==> |choices| >= 1 && log[|log| - 1].kind == Story
      ensures gameState == Error ==> choices == [] && error.Some? && error.value in GeminiService.FatalMessages
      ensures choice == Restart ==> |log| == (if gameState == Playing then 1 else 0)
      ensures choice != Restart ==>
        && |log| == |old(log)| + (if gameState == Playing then 2 else 1)
        && log[..|old(log)| + 1] == old(log) + [LogEntry(nowPick, Choice, choice)]
      ensures choice != Restart && gameState == Playing ==> log[|log| - 1].id == nowReply + 1
      ensures !hasApiKey ==> gameState == Playing && choices == GeminiService.OfflineChoices
    {
      var request := HandleChoice(choice, nowPick);
      var outcome := GeminiService.GenerateStorySegment(request, hasApiKey, draw, remote, parse);
      ghost var before := log;
      Complete(outcome, nowReply);
      assert choice != Restart && gameState == Playing ==> log == before + [log[|log| - 1]];
    }

    /** While `Playing`, the log is non-empty, starts and ends with a story, its
        kinds strictly alternate, and it holds one story more than choices. */
    lemma PlayingShape()
      requires Valid() && gameState == Playing
      ensures log != [] && log[0].kind == Story && log[|log| - 1].kind == Story
      ensures Alternates(log)
      ensures SessionSummary.NumStories(log) == SessionSummary.NumChoices(log) + 1
    {
      AlternatesIffByParity(log);
      SessionSummary.AlternatingCounts(log);
    }

    /** The controls of the current phase: a start button, the choice buttons and
        the insult button (enabled only when choices are offered), nothing while
        loading, a retry button on error. */
    function Controls(): (r: seq<Control>)
      reads this
      ensures gameState == Loading ==> r == []
      ensures forall c :: c in r && ActionOf(c).Some? && ActionOf(c).value.Pick? ==> gameState == Playing
      ensures (StartButton in r || RetryButton in r) <==> (gameState == Start || gameState == Error)
      ensures InsultButton(true) in r <==> gameState == Playing && choices != []
      ensures forall text :: ChoiceButton(text) in r <==> gameState == Playing && text in choices
    {
      match gameState
      case Start => [StartButton]
      case Playing =>
        ChoiceButtonsMembers(choices);
        ChoiceButtons(choices) + [InsultButton(|choices| > 0)]
      case Loading => []
      case Error => [RetryButton]
    }
  }
}

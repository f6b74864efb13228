/** The generation service: everything `generateStorySegment` decides around the
    remote model call. The call itself (`remote`) and `JSON.parse` (`parse`) are
    parameters; whether an API key is configured is a flag; the random insult
    index is the parameter `draw`. */
module GeminiService {
  import opened Types
  import opened Strings
  import opened Transcript
  import LogActions

  // ---------------------------------------------------------------------------
  // Offline fallback (no API key)

  const Insults: seq<string> := [
    "Świat patrzy na ciebie z niesmakiem.",
    "Wdepnąłeś w to po kostki i dalej brniesz.",
    "Los znowu cię kopnął, ale udajesz, że to masaż."
  ]

  const OfflineChoices: seq<string> := ["W lewo", "W prawo", "Od nowa"]

  /** The text of the most recent choice entry, found by scanning from the end of
      the log; `None` when the log holds no choice entry. */
  function LastChoice(log: seq<LogEntry>): (r: Option<string>)
    ensures r.Some? ==>
      exists i :: (0 <= i < |log| && log[i].kind == Choice && log[i].text == r.value
                   && (forall j :: i < j < |log| ==> log[j].kind == Story))
    ensures r.None? ==> forall i :: 0 <= i < |log| ==> log[i].kind == Story
    decreases |log|
  {
    if log == [] then None
    else if log[|log| - 1].kind == Choice then Some(log[|log| - 1].text)
    else
      var init := log[..|log| - 1];
      assert log[|log| - 1].kind == Story;
      assert forall i :: 0 <= i < |init| ==> init[i] == log[i];
      var r := LastChoice(init);
      assert r.None? ==> forall i :: 0 <= i < |log| - 1 ==> log[i].kind == Story;
      r
  }

  /** The clause quoting the last choice; empty when there is none or its text is
      empty (a falsy string). */
  function OfflinePrefix(log: seq<LogEntry>): (r: string)
    ensures r == "" <==> LastChoice(log) == None || LastChoice(log) == Some("")
    ensures r != "" ==> "Po wyborze: \"" <= r
  {
    match LastChoice(log)
    case Some(t) => if t != "" then "Po wyborze: \"" + t + "\" — " else ""
    case None => ""
  }

  /** The segment served without a key: the prefix, the insult drawn, three fixed choices. */
  function Offline(log: seq<LogEntry>, draw: nat): (r: StorySegment)
    requires draw < |Insults|
    ensures r.choices == OfflineChoices
    ensures var insult := Insults[draw];
      |insult| <= |r.story| && r.story[|r.story| - |insult|..] == insult
    ensures OfflinePrefix(log) <= r.story
  {
    StorySegment(OfflinePrefix(log) + Insults[draw], OfflineChoices)
  }

  /** The prefix quotes the text of the last choice entry, unless that text is empty. */
  lemma OfflinePrefixQuotesLastChoice(log: seq<LogEntry>, i: nat)
    requires i < |log| && log[i].kind == Choice
    requires forall j :: i < j < |log| ==> log[j].kind == Story
    ensures OfflinePrefix(log) ==
      if log[i].text == "" then "" else "Po wyborze: \"" + log[i].text + "\" — "
  {
    var r := LastChoice(log);
    assert r.Some?;
    var k :| 0 <= k < |log| && log[k].kind == Choice && log[k].text == r.value
      && (forall j :: k < j < |log| ==> log[j].kind == Story);
    assert k == i;
  }

  /** Without any choice entry the prefix is empty. */
  lemma OfflinePrefixWithoutChoice(log: seq<LogEntry>)
    requires forall j :: 0 <= j < |log| ==> log[j].kind == Story
    ensures OfflinePrefix(log) == ""
  {
  }

  // ---------------------------------------------------------------------------
  // Prompt

  /** The request line that closes every prompt. */
  const InstructionLine: string := "Wygeneruj następny fragment."
  const Instruction: string := "\n\n" + InstructionLine

  /** Every entry as a `<role>: <text>` line, joined by newlines, then the instruction. */
  function Prompt(log: seq<LogEntry>): (r: string)
    ensures |Instruction| <= |r| && r[|r| - |Instruction|..] == Instruction
    ensures log != [] ==> RenderEntry(log[0]) <= r
  {
    if log != [] then
      JoinLinesStartsWithFirst(RenderAll(log));
      JoinLines(RenderAll(log)) + Instruction
    else JoinLines(RenderAll(log)) + Instruction
  }

  /** An empty log sends the instruction alone. */
  lemma PromptOfEmptyLog()
    ensures Prompt([]) == "\n\n" + InstructionLine
  {
  }

  /** For a non-empty log the prompt is the transcript export plus the instruction. */
  lemma PromptIsExportPlusInstruction(log: seq<LogEntry>)
    requires log != []
    ensures Prompt(log) == LogActions.FormatLog(log) + "\n\n" + InstructionLine
  {
  }

  /** Read line by line, the prompt is every entry in log order, a blank line and
      the instruction (when no entry's text has a newline of its own). */
  lemma PromptLines(log: seq<LogEntry>)
    requires log != [] && TextsWithoutNewlines(log)
    ensures SplitLines(Prompt(log)) == RenderAll(log) + ["", InstructionLine]
  {
    RenderedWithoutNewlines(log);
    assert Prompt(log) == JoinLines(RenderAll(log)) + "\n\n" + InstructionLine;
    SplitJoinThenLine(RenderAll(log), InstructionLine);
  }

  // ---------------------------------------------------------------------------
  // Markdown code fences around the reply

  /** `t.replace(/^```json\n?/, "")`. */
  function StripOpenFence(t: string): (r: string)
    ensures |r| <= |t| && r == t[|t| - |r|..]
    ensures !("```json" <= t) ==> r == t
    ensures "```json" <= t ==> |t| - |r| == 7 || (|t| - |r| == 8 && t[7] == '\n')
  {
    if "```json" <= t then
      var u := t[7..];
      if u != [] && u[0] == '\n' then u[1..] else u
    else t
  }

  /** `t.replace(/\n?```$/, "")`: the leftmost match takes the newline when there is one. */
  function StripCloseFence(t: string): (r: string)
    ensures |r| <= |t| && r == t[..|r|]
    ensures !(|t| >= 3 && t[|t| - 3..] == "```") ==> r == t
    ensures |t| >= 3 && t[|t| - 3..] == "```" ==>
      |t| - |r| == 3 || (|t| - |r| == 4 && t[|t| - 4] == '\n')
  {
    if |t| >= 3 && t[|t| - 3..] == "```" then
      var u := t[..|t| - 3];
      if u != [] && u[|u| - 1] == '\n' then u[..|u| - 1] else u
    else t
  }

  /** The cleaned reply: trimmed, then at most one opening and one closing fence removed. */
  function StripFences(raw: string): (r: string)
    ensures var t := Trim(raw); var i := |t| - |StripOpenFence(t)|;
      i + |r| <= |t| && r == t[i..i + |r|]
  {
    var t := Trim(raw);
    var u := StripOpenFence(t);
    var r := StripCloseFence(u);
    assert r == t[|t| - |u|..][..|r|];
    r
  }

  /** The opening fence, with or without its newline. */
  function OpenFence(withNewline: bool): string {
    if withNewline then "```json\n" else "```json"
  }

  /** The closing fence, with or without the newline before it. */
  function CloseFence(withNewline: bool): string {
    if withNewline then "\n```" else "```"
  }

  /** A reply without fences is only trimmed. */
  lemma UnfencedIsOnlyTrimmed(raw: string)
    requires !("```json" <= Trim(raw))
    requires var t := Trim(raw); !(|t| >= 3 && t[|t| - 3..] == "```")
    ensures StripFences(raw) == Trim(raw)
  {
  }

  /** Trimming removes exactly the white space around a text that starts and ends
      with a non-space. */
  lemma TrimAround(left: string, core: string, right: string)
    requires forall k :: 0 <= k < |left| ==> IsSpace(left[k])
    requires forall k :: 0 <= k < |right| ==> IsSpace(right[k])
    requires core != [] && !IsSpace(core[0]) && !IsSpace(core[|core| - 1])
    ensures Trim(left + core + right) == core
  {
    assert left + core + right == left + (core + right);
    TrimStartSkips(left, core + right);
    TrimEndSkips(core, right);
  }

  lemma TrimStartSkips(left: string, t: string)
    requires forall k :: 0 <= k < |left| ==> IsSpace(left[k])
    requires t != [] && !IsSpace(t[0])
    ensures TrimStart(left + t) == t
  {
    var s := left + t;
    assert s[|left|] == t[0];
    assert forall k :: 0 <= k < |left| ==> s[k] == left[k];
    assert LeadingSpaces(s) == |left|;
    assert s[|left|..] == t;
  }

  lemma TrimEndSkips(t: string, right: string)
    requires forall k :: 0 <= k < |right| ==> IsSpace(right[k])
    requires t != [] && !IsSpace(t[|t| - 1])
    ensures TrimEnd(t + right) == t
  {
    var s := t + right;
    assert s[|t| - 1] == t[|t| - 1];
    assert forall k :: |t| <= k < |s| ==> s[k] == right[k - |t|];
    assert ContentEnd(s) == |t|;
    assert s[..|t|] == t;
  }

  /** The opening fence is removed, and its newline with it when it has one. */
  lemma StripOpenFenceOf(withNewline: bool, t: string)
    requires !withNewline ==> (t == [] || t[0] != '\n')
    ensures StripOpenFence(OpenFence(withNewline) + t) == t
  {
    var s := OpenFence(withNewline) + t;
    assert s[..7] == "```json";
    if withNewline {
      assert s[7..] == "\n" + t;
      assert s[7..][1..] == t;
    } else {
      assert s[7..] == t;
    }
  }

  /** The closing fence is removed, and the newline before it when there is one. */
  lemma StripCloseFenceOf(t: string, withNewline: bool)
    requires !withNewline ==> (t == [] || t[|t| - 1] != '\n')
    ensures StripCloseFence(t + CloseFence(withNewline)) == t
  {
    var s := t + CloseFence(withNewline);
    assert s[|s| - 3..] == "```";
    if withNewline {
      assert s[..|s| - 3] == t + "\n";
      assert (t + "\n")[..|t|] == t;
    } else {
      assert s[..|s| - 3] == t;
    }
  }

  /** A fenced reply with white space around it comes back as the text inside the
      fences. Without the newline after the opening fence, a newline starting the
      text would be eaten; likewise at the end. */
  lemma FencedRoundTrip(left: string, body: string, right: string, openNl: bool, closeNl: bool)
    requires forall k :: 0 <= k < |left| ==> IsSpace(left[k])
    requires forall k :: 0 <= k < |right| ==> IsSpace(right[k])
    requires !openNl ==> (body == [] || body[0] != '\n')
    requires !closeNl ==> (body == [] || body[|body| - 1] != '\n')
    ensures StripFences(left + OpenFence(openNl) + body + CloseFence(closeNl) + right) == body
  {
    var fenced := OpenFence(openNl) + body + CloseFence(closeNl);
    assert fenced[0] == '`' && fenced[|fenced| - 1] == '`';
    assert left + OpenFence(openNl) + body + CloseFence(closeNl) + right == left + fenced + right;
    TrimAround(left, fenced, right);
    StripBothFences(openNl, body, closeNl);
  }

  lemma StripBothFences(openNl: bool, body: string, closeNl: bool)
    requires !openNl ==> (body == [] || body[0] != '\n')
    requires !closeNl ==> (body == [] || body[|body| - 1] != '\n')
    ensures StripCloseFence(StripOpenFence(OpenFence(openNl) + body + CloseFence(closeNl))) == body
  {
    if !openNl && body == [] && closeNl {
      // "```json\n```": the newline is taken by the opening fence
      assert OpenFence(false) + body + CloseFence(true) == OpenFence(true) + CloseFence(false);
      StripOpenFenceOf(true, CloseFence(false));
      StripCloseFenceOf("", false);
      assert "" + CloseFence(false) == CloseFence(false);
    } else {
      var inner := body + CloseFence(closeNl);
      assert OpenFence(openNl) + body + CloseFence(closeNl) == OpenFence(openNl) + inner;
      assert !openNl ==> inner[0] != '\n';
      StripOpenFenceOf(openNl, inner);
      StripCloseFenceOf(body, closeNl);
    }
  }

  // ---------------------------------------------------------------------------
  // Replies, errors and their classification

  /** What can be thrown: an `Error` with its message, or any other value. */
  datatype Thrown = ErrorValue(message: string) | OtherValue

  /** What `generateStorySegment` settles to: a segment, or a rejection. */
  datatype Outcome = Returned(segment: StorySegment) | Raised(error: Thrown)

  /** What the remote call yields: the reply text, or a thrown value. */
  datatype RemoteReply = Text(raw: string) | Rejected(thrown: Thrown)

  /** A parsed reply as the validation sees it: `null` (reading a field of it throws),
      or any other value with its `story` and its `choices`. `story` is `None` when it
      is missing or falsy other than `""` (`undefined`, `null`, `0`, `false`); a string
      story, the empty one included, is kept as it is. A truthy story that is not a
      string is not represented: `parse` never yields one. `choices` is `None` when it
      is not an array; an array holding values other than strings is not represented
      either. */
  datatype JsonValue = Null | Record(story: Option<string>, choices: Option<seq<string>>)

  /** What `JSON.parse` yields: a value, or a syntax error with its message. */
  datatype ParseResult = Parsed(value: JsonValue) | SyntaxError(message: string)

  const InvalidStructureMessage: string := "Invalid JSON structure received from API."
  /** The TypeError a JavaScript engine (V8's wording) raises for `null.story`. */
  const NullAccessMessage: string := NullAccessStart + NullAccessEnd
  const NullAccessStart: string := "Cannot read properties "
  const NullAccessEnd: string := "of null (reading 'story')"

  const ApologyStory: string := "Wystąpił błąd formatu odpowiedzi. Spróbuj ponownie lub zresetuj grę."
  const Apology: StorySegment := StorySegment(ApologyStory, [Restart])

  const KeyMessage: string := "Nieprawidłowy klucz API. Sprawdź swój GEMINI_API_KEY w pliku .env"
  const LimitMessage: string := "Przekroczono limit zapytań do API. Spróbuj ponownie za chwilę."
  const ConnectionMessage: string := "Brak połączenia z internetem lub API jest niedostępne."
  const GenericMessage: string :=
    "Nie udało się wygenerować fragmentu historii. API może być niedostępne lub klucz jest nieprawidłowy."

  /** The only messages the service ever rejects with. */
  const FatalMessages: seq<string> := [KeyMessage, LimitMessage, ConnectionMessage, GenericMessage]

  /** The catch block: a message mentioning JSON (in any case) is answered with the
      apology segment; everything else is rethrown as an `Error` with one of four
      fixed messages, the generic one for values that are not `Error`s. */
  function Classify(error: Thrown): (r: Outcome)
    ensures r.Returned? <==> error.ErrorValue? && ContainsFolded(error.message, "json")
    ensures r.Returned? ==> r.segment == Apology
    ensures r.Raised? ==> r.error.ErrorValue? && r.error.message in FatalMessages
    ensures error.OtherValue? ==> r == Raised(ErrorValue(GenericMessage))
  {
    if error.ErrorValue? then
      var msg := error.message;
      if ContainsFolded(msg, "json") then Returned(Apology)
      else if Contains(msg, "API key") || Contains(msg, "401") then Raised(ErrorValue(KeyMessage))
      else if ContainsFolded(msg, "quota") || Contains(msg, "429") then Raised(ErrorValue(LimitMessage))
      else if ContainsFolded(msg, "network") || Contains(msg, "ENOTFOUND") then
        Raised(ErrorValue(ConnectionMessage))
      else Raised(ErrorValue(GenericMessage))
    else Raised(ErrorValue(GenericMessage))
  }

  /** One row of the classification table: keywords searched case-insensitively,
      keywords searched as written, and the outcome when any of them occurs. */
  datatype Rule = Rule(folded: seq<string>, exact: seq<string>, outcome: Outcome)

  predicate Fires(rule: Rule, msg: string) {
    || (exists k :: k in rule.folded && ContainsFolded(msg, k))
    || (exists k :: k in rule.exact && Contains(msg, k))
  }

  /** The classification as an ordered table. */
  const Rules: seq<Rule> := [
    Rule(["json"], [], Returned(Apology)),
    Rule([], ["API key", "401"], Raised(ErrorValue(KeyMessage))),
    Rule(["quota"], ["429"], Raised(ErrorValue(LimitMessage))),
    Rule(["network"], ["ENOTFOUND"], Raised(ErrorValue(ConnectionMessage)))
  ]

  /** The outcome of the first rule that fires, or the generic rejection. */
  function FirstMatch(rules: seq<Rule>, msg: string): Outcome {
    if rules == [] then Raised(ErrorValue(GenericMessage))
    else if Fires(rules[0], msg) then rules[0].outcome
    else FirstMatch(rules[1..], msg)
  }

  /** First match wins: the earliest rule that fires decides, whatever later rules say. */
  lemma {:induction false} FirstMatchIsEarliest(rules: seq<Rule>, msg: string, i: nat)
    requires i < |rules| && Fires(rules[i], msg)
    requires forall j :: 0 <= j < i ==> !Fires(rules[j], msg)
    ensures FirstMatch(rules, msg) == rules[i].outcome
  {
    if i > 0 {
      assert !Fires(rules[0], msg);
      assert rules[1..][i - 1] == rules[i];
      FirstMatchIsEarliest(rules[1..], msg, i - 1);
    }
  }

  /** When no rule fires, the generic rejection is the outcome. */
  lemma {:induction false} FirstMatchNone(rules: seq<Rule>, msg: string)
    requires forall j :: 0 <= j < |rules| ==> !Fires(rules[j], msg)
    ensures FirstMatch(rules, msg) == Raised(ErrorValue(GenericMessage))
  {
    if rules != [] {
      assert !Fires(rules[0], msg);
      FirstMatchNone(rules[1..], msg);
    }
  }

  lemma FiresRules(msg: string)
    ensures Fires(Rules[0], msg) <==> ContainsFolded(msg, "json")
    ensures Fires(Rules[1], msg) <==> Contains(msg, "API key") || Contains(msg, "401")
    ensures Fires(Rules[2], msg) <==> ContainsFolded(msg, "quota") || Contains(msg, "429")
    ensures Fires(Rules[3], msg) <==> ContainsFolded(msg, "network") || Contains(msg, "ENOTFOUND")
  {
    assert "json" in Rules[0].folded;
    assert "API key" in Rules[1].exact && "401" in Rules[1].exact;
    assert "quota" in Rules[2].folded && "429" in Rules[2].exact;
    assert "network" in Rules[3].folded && "ENOTFOUND" in Rules[3].exact;
  }

  /** The if-chain of the catch block is the ordered table read first-match. */
  lemma ClassifyIsFirstMatch(msg: string)
    ensures Classify(ErrorValue(msg)) == FirstMatch(Rules, msg)
  {
    FiresRules(msg);
    if Fires(Rules[0], msg) {
      FirstMatchIsEarliest(Rules, msg, 0);
    } else if Fires(Rules[1], msg) {
      FirstMatchIsEarliest(Rules, msg, 1);
    } else if Fires(Rules[2], msg) {
      FirstMatchIsEarliest(Rules, msg, 2);
    } else if Fires(Rules[3], msg) {
      FirstMatchIsEarliest(Rules, msg, 3);
    } else {
      FirstMatchNone(Rules, msg);
    }
  }

  /** The validation error mentions JSON, so it is answered with the apology. */
  lemma InvalidStructureIsRecoverable()
    ensures Classify(ErrorValue(InvalidStructureMessage)) == Returned(Apology)
  {
    var msg := InvalidStructureMessage;
    var lower := ToLower(msg);
    assert msg[8] == 'J' && msg[9] == 'S' && msg[10] == 'O' && msg[11] == 'N';
    assert lower[8..12] == [lower[8], lower[9], lower[10], lower[11]] == "json";
    ContainsAt(lower, "json", 8);
  }

  /** A message mentioning both JSON and 401 is recoverable: the JSON test comes
      before the key test. */
  lemma JsonBeatsKeyError(msg: string)
    requires ContainsFolded(msg, "json") && Contains(msg, "401")
    ensures Classify(ErrorValue(msg)) == Returned(Apology)
  {
  }

  /** One such message: a parse error that also quotes a 401 status. */
  lemma JsonAndStatusExample()
    ensures Classify(ErrorValue("Unexpected token in JSON, status 401")) == Returned(Apology)
  {
    var msg := "Unexpected token in JSON, status 401";
    var lower := ToLower(msg);
    assert msg[20] == 'J' && msg[21] == 'S' && msg[22] == 'O' && msg[23] == 'N';
    assert lower[20..24] == [lower[20], lower[21], lower[22], lower[23]] == "json";
    ContainsAt(lower, "json", 20);
  }

  /** None of the letters and digits that start or distinguish the keywords. */
  predicate LacksKeyLetters(s: string) {
    forall i :: 0 <= i < |s| ==>
      s[i] != 'j' && s[i] != 'J' && s[i] != 'A' && s[i] != '4' && s[i] != 'q'
      && s[i] != 'Q' && s[i] != 'w' && s[i] != 'W' && s[i] != 'E'
  }

  lemma NullAccessLacksKeyLetters()
    ensures LacksKeyLetters(NullAccessMessage)
  {
    NullAccessStartLacksKeyLetters();
    NullAccessEndLacksKeyLetters();
  }

  lemma NullAccessStartLacksKeyLetters()
    ensures LacksKeyLetters(NullAccessStart)
  {
  }

  lemma NullAccessEndLacksKeyLetters()
    ensures LacksKeyLetters(NullAccessEnd)
  {
  }

  /** The TypeError of a `null` reply mentions none of the keywords, so it gets the
      generic message: a `null` reply is fatal. */
  lemma NullReplyIsGeneric()
    ensures Classify(ErrorValue(NullAccessMessage)) == Raised(ErrorValue(GenericMessage))
  {
    var m := NullAccessMessage;
    NullAccessLacksKeyLetters();
    assert 'j' !in m && 'J' !in m && 'A' !in m && '4' !in m && 'q' !in m;
    assert 'Q' !in m && 'w' !in m && 'W' !in m && 'E' !in m;
    LowerMissing(m, 'j', 'J');
    LowerMissing(m, 'q', 'Q');
    LowerMissing(m, 'w', 'W');
    MissingCharNotContained(ToLower(m), "json", 'j');
    MissingCharNotContained(m, "API key", 'A');
    MissingCharNotContained(m, "401", '4');
    MissingCharNotContained(ToLower(m), "quota", 'q');
    MissingCharNotContained(m, "429", '4');
    MissingCharNotContained(ToLower(m), "network", 'w');
    MissingCharNotContained(m, "ENOTFOUND", 'E');
  }

  // ---------------------------------------------------------------------------
  // The operation

  /** `generateStorySegment(log)`. Without a key: the offline segment. With a key:
      the prompt for `log` goes to `remote`; its text, cleaned of fences, goes to
      `parse`; a reply with a non-empty story and an array of choices is returned,
      an empty choice array replaced by the restart choice; every failure on the
      way is classified. Whatever is returned has a story and at least one choice;
      whatever is raised is an `Error` with one of the four fixed messages. */
  method GenerateStorySegment(log: seq<LogEntry>, hasApiKey: bool, draw: nat,
                              remote: string -> RemoteReply, parse: string -> ParseResult)
    returns (r: Outcome)
    requires draw < |Insults|
    ensures !hasApiKey ==>
      r == Returned(StorySegment(OfflinePrefix(log) + Insults[draw], ["W lewo", "W prawo", "Od nowa"]))
    ensures hasApiKey && remote(Prompt(log)).Rejected? ==> r == Classify(remote(Prompt(log)).thrown)
    ensures hasApiKey && remote(Prompt(log)).Text? ==>
      var parsed := parse(StripFences(remote(Prompt(log)).raw));
      && (parsed.SyntaxError? ==> r == Classify(ErrorValue(parsed.message)))
      && (parsed == Parsed(Null) ==> r == Classify(ErrorValue(NullAccessMessage))
                                      && r == Raised(ErrorValue(GenericMessage)))
      && (parsed.Parsed? && parsed.value.Record? ==>
            var v := parsed.value;
            if v.story.None? || v.story.value == "" || v.choices.None? then r == Returned(Apology)
            else r == Returned(StorySegment(v.story.value,
                                            if v.choices.value == [] then ["Od nowa"] else v.choices.value)))
    ensures r.Returned? ==> r.segment.story != "" && |r.segment.choices| >= 1
    ensures r.Raised? ==> r.error.ErrorValue? && r.error.message in FatalMessages
  {
    if !hasApiKey {
      r := Returned(Offline(log, draw));
      return;
    }
    var prompt := Prompt(log);
    var caught: Option<Thrown> := None;
    var result: Option<StorySegment> := None;
    var reply := remote(prompt);
    if reply.Rejected? {
      caught := Some(reply.thrown);
    } else {
      var cleaned := StripFences(reply.raw);
      var parsed := parse(cleaned);
      if parsed.SyntaxError? {
        caught := Some(ErrorValue(parsed.message));
      } else if parsed.value.Null? {
        caught := Some(ErrorValue(NullAccessMessage));
        NullReplyIsGeneric();
      } else if parsed.value.story.None? || parsed.value.story.value == "" || parsed.value.choices.None? {
        caught := Some(ErrorValue(InvalidStructureMessage));
        InvalidStructureIsRecoverable();
      } else {
        var choices := parsed.value.choices.value;
        if |choices| == 0 {
          choices := [Restart];
        }
        result := Some(StorySegment(parsed.value.story.value, choices));
      }
    }
    if caught.Some? {
      r := Classify(caught.value);
    } else {
      r := Returned(result.value);
    }
  }
}

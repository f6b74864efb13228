/** The figures of the session summary panel: how many story and choice entries the
    transcript holds, and how the last save time is shown. */
module SessionSummary {
  import opened Types
  import opened Transcript

  /** The number of story entries. */
  function NumStories(log: seq<LogEntry>): (n: nat)
    ensures n <= |log|
  {
    if log == [] then 0 else (if log[0].kind == Story then 1 else 0) + NumStories(log[1..])
  }

  /** The number of all other entries, that is, choice entries. */
  function NumChoices(log: seq<LogEntry>): (n: nat)
    ensures n <= |log|
  {
    if log == [] then 0 else (if log[0].kind == Story then 0 else 1) + NumChoices(log[1..])
  }

  /** The kinds of the entries, in log order. */
  function Kinds(log: seq<LogEntry>): seq<EntryKind> {
    seq(|log|, i requires 0 <= i < |log| => log[i].kind)
  }

  /** Appending one entry adds one to exactly one of the two counts. */
  lemma {:induction false} CountsAppend(log: seq<LogEntry>, e: LogEntry)
    ensures NumStories(log + [e]) == NumStories(log) + (if e.kind == Story then 1 else 0)
    ensures NumChoices(log + [e]) == NumChoices(log) + (if e.kind == Story then 0 else 1)
  {
    if log != [] {
      assert (log + [e])[1..] == log[1..] + [e];
      CountsAppend(log[1..], e);
    } else {
      assert log + [e] == [e];
    }
  }

  /** Every entry is counted exactly once: the two counts add up to the log length. */
  lemma {:induction false} CountsCoverLog(log: seq<LogEntry>)
    ensures NumStories(log) + NumChoices(log) == |log|
  {
    if log != [] {
      CountsCoverLog(log[1..]);
    }
  }

  /** The counts are the multiplicities of the two kinds among the entries. */
  lemma {:induction false} CountsAreMultiplicities(log: seq<LogEntry>)
    ensures NumStories(log) == multiset(Kinds(log))[Story]
    ensures NumChoices(log) == multiset(Kinds(log))[Choice]
  {
    if log != [] {
      CountsAreMultiplicities(log[1..]);
      assert Kinds(log) == [log[0].kind] + Kinds(log[1..]);
    }
  }

  /** In a transcript whose stories and choices alternate from a story, the stories
      sit at the even positions and are the larger half, the choices at the odd
      positions and are the smaller half: a transcript ending with a story holds one
      story more than choices. */
  lemma {:induction false} AlternatingCounts(log: seq<LogEntry>)
    requires ByParity(log)
    ensures NumStories(log) == (|log| + 1) / 2 && NumChoices(log) == |log| / 2
  {
    if log != [] {
      var init := log[..|log| - 1];
      assert log == init + [log[|log| - 1]];
      assert ByParity(init);
      AlternatingCounts(init);
      CountsAppend(init, log[|log| - 1]);
    }
  }

  /** The `reduce` over the log: one pass that bumps the story counter for a story
      entry and the choice counter for any other entry. */
  method CountEntries(log: seq<LogEntry>) returns (storyCount: nat, choiceCount: nat)
    ensures storyCount == NumStories(log) && choiceCount == NumChoices(log)
  {
    storyCount, choiceCount := 0, 0;
    for i := 0 to |log|
      invariant storyCount == NumStories(log[..i]) && choiceCount == NumChoices(log[..i])
    {
      assert log[..i + 1] == log[..i] + [log[i]];
      CountsAppend(log[..i], log[i]);
      if log[i].kind == Story {
        storyCount := storyCount + 1;
      } else {
        choiceCount := choiceCount + 1;
      }
    }
    assert log[..|log|] == log;
  }

  datatype Stats = Stats(storyCount: nat, choiceCount: nat, totalEntries: nat)

  /** The panel's figures, or `None` when the panel renders nothing, which happens
      exactly for an empty transcript. */
  method Summarize(log: seq<LogEntry>) returns (r: Option<Stats>)
    ensures r == None <==> log == []
    ensures r.Some? ==> r.value == Stats(NumStories(log), NumChoices(log), |log|)
  {
    var storyCount, choiceCount := CountEntries(log);
    var totalEntries := storyCount + choiceCount;
    CountsCoverLog(log);
    if totalEntries == 0 {
      return None;
    }
    return Some(Stats(storyCount, choiceCount, totalEntries));
  }

  /** What a missing save time is shown as. */
  const NoSaveText: string := "brak zapisu"

  /** `formatTimestamp`: `null` and `0` show as "brak zapisu"; any other time is
      handed to the locale formatter, which is a parameter here. */
  function FormatTimestamp(timestamp: Option<int>, localeFormat: int -> string): (r: string)
    ensures (timestamp == None || timestamp == Some(0)) ==> r == NoSaveText
    ensures (timestamp.Some? && timestamp.value != 0) ==> r == localeFormat(timestamp.value)
  {
    if timestamp == None || timestamp == Some(0) then NoSaveText
    else localeFormat(timestamp.value)
  }
}

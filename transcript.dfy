/** The transcript as text ("role: text" lines) and its shape (story and choice
    entries alternate, starting with a story). */
module Transcript {
  import opened Types
  import opened Strings

  /** The role name an entry is shown under, in the prompt and in the export alike. */
  function Speaker(kind: EntryKind): (r: string)
    ensures r != [] && '\n' !in r
    ensures r[0] == (if kind == Story then 'M' else 'G')
  {
    if kind == Story then "Mistrz Gry" else "Gracz"
  }

  /** One transcript line: `<role>: <text>`. */
  function RenderEntry(e: LogEntry): (r: string)
    ensures Speaker(e.kind) + ": " <= r
    ensures |e.text| <= |r| && r[|r| - |e.text|..] == e.text
  {
    Speaker(e.kind) + ": " + e.text
  }

  /** `log.map(RenderEntry)`. */
  function RenderAll(log: seq<LogEntry>): seq<string> {
    seq(|log|, i requires 0 <= i < |log| => RenderEntry(log[i]))
  }

  predicate TextsWithoutNewlines(log: seq<LogEntry>) {
    forall i :: 0 <= i < |log| ==> '\n' !in log[i].text
  }

  /** A line holds a newline only if the entry's text does: role names have none. */
  lemma RenderedWithoutNewlines(log: seq<LogEntry>)
    requires TextsWithoutNewlines(log)
    ensures NoNewlines(RenderAll(log))
  {
    forall i | 0 <= i < |log| ensures '\n' !in RenderAll(log)[i] {
      var e := log[i];
      assert RenderAll(log)[i] == Speaker(e.kind) + (": " + e.text);
    }
  }

  /** The first character of every line: `M` for a story, `G` for a choice. */
  lemma RenderedStartsWithRole(e: LogEntry)
    ensures |RenderEntry(e)| > 0
    ensures RenderEntry(e)[0] == (if e.kind == Story then 'M' else 'G')
  {
  }

  /** The last character of a line: the text's last one, or the space after the
      colon when the text is empty. */
  lemma RenderedEndsWithText(e: LogEntry)
    ensures var r := RenderEntry(e);
      |r| > 0 && r[|r| - 1] == if e.text == [] then ' ' else e.text[|e.text| - 1]
  {
    var p := Speaker(e.kind) + ": ";
    assert RenderEntry(e) == p + e.text;
    assert p[|p| - 1] == ' ';
  }

  /** Story and choice entries strictly alternate, and the first entry is a story. */
  predicate Alternates(log: seq<LogEntry>) {
    && (log != [] ==> log[0].kind == Story)
    && forall i :: 0 <= i < |log| - 1 ==> log[i].kind != log[i + 1].kind
  }

  /** The kind an alternating transcript has at position `i`. */
  function KindAt(i: nat): EntryKind {
    if i % 2 == 0 then Story else Choice
  }

  /** Every entry has the kind its position calls for. */
  predicate ByParity(log: seq<LogEntry>) {
    forall i :: 0 <= i < |log| ==> log[i].kind == KindAt(i)
  }

  lemma {:induction false} AlternatesAt(log: seq<LogEntry>, i: nat)
    requires Alternates(log) && i < |log|
    ensures log[i].kind == KindAt(i)
  {
    if i > 0 {
      AlternatesAt(log, i - 1);
      assert log[i - 1].kind != log[i].kind;
    }
  }

  /** Alternation starting with a story is the same as "stories at even positions,
      choices at odd ones". */
  lemma AlternatesIffByParity(log: seq<LogEntry>)
    ensures Alternates(log) <==> ByParity(log)
  {
    if Alternates(log) {
      forall i | 0 <= i < |log| ensures log[i].kind == KindAt(i) {
        AlternatesAt(log, i);
      }
    }
    if ByParity(log) {
      forall i | 0 <= i < |log| - 1 ensures log[i].kind != log[i + 1].kind {
        assert log[i].kind == KindAt(i) && log[i + 1].kind == KindAt(i + 1);
      }
    }
  }

  /** Appending an entry of the kind its position calls for keeps the alternation. */
  lemma AppendByParity(log: seq<LogEntry>, e: LogEntry)
    requires ByParity(log) && e.kind == KindAt(|log|)
    ensures ByParity(log + [e])
  {
  }
}

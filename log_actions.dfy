/** Export of the transcript for the copy and download buttons. */
module LogActions {
  import opened Types
  import opened Strings
  import opened Transcript

  /** What an empty transcript exports as. */
  const EmptyLogText: string := "Brak zapisanej historii walki z losem."

  /** `formatLog`: a placeholder sentence for an empty transcript, otherwise one
      `<role>: <text>` line per entry joined by newlines. The placeholder is never
      produced by a non-empty transcript, whose text starts with its first line. */
  function FormatLog(entries: seq<LogEntry>): (r: string)
    ensures r == EmptyLogText <==> entries == []
    ensures entries != [] ==> RenderEntry(entries[0]) <= r
  {
    if |entries| == 0 then EmptyLogText
    else
      var lines := RenderAll(entries);
      JoinLinesStartsWithFirst(lines);
      RenderedStartsWithRole(entries[0]);
      JoinLines(lines)
  }

  /** The export splits back into exactly the rendered entries, in log order, when
      no entry's text has a newline of its own. */
  lemma FormatLogLines(entries: seq<LogEntry>)
    requires entries != [] && TextsWithoutNewlines(entries)
    ensures SplitLines(FormatLog(entries)) == RenderAll(entries)
  {
    RenderedWithoutNewlines(entries);
    SplitJoin(RenderAll(entries));
  }

  /** n entries without newlines of their own export with exactly n - 1 newlines. */
  lemma FormatLogNewlines(entries: seq<LogEntry>)
    requires entries != [] && TextsWithoutNewlines(entries)
    ensures CountChar(FormatLog(entries), '\n') == |entries| - 1
  {
    RenderedWithoutNewlines(entries);
    JoinLinesNewlines(RenderAll(entries));
  }

  /** The export ends with the last entry's line, so it has no trailing newline
      unless that entry's own text ends with one. */
  lemma FormatLogEndsWithLastLine(entries: seq<LogEntry>)
    requires entries != []
    ensures var f := FormatLog(entries); var last := RenderEntry(entries[|entries| - 1]);
      |last| <= |f| && f[|f| - |last|..] == last
    ensures var f := FormatLog(entries); var t := entries[|entries| - 1].text;
      (t == [] || t[|t| - 1] != '\n') ==> f[|f| - 1] != '\n'
  {
    var lines := RenderAll(entries);
    var e := entries[|entries| - 1];
    assert FormatLog(entries) == JoinLines(lines);
    assert lines[|lines| - 1] == RenderEntry(e);
    JoinLinesEndsWithLast(lines);
    RenderedEndsWithText(e);
  }
}

/** The shared records of the game: transcript entries, generated segments and the
    phases of a session. */
module Types {

  datatype Option<T> = None | Some(value: T)

  /** `type: 'story' | 'choice'` of a transcript entry. */
  datatype EntryKind = Story | Choice

  /** One entry of the transcript. `id` comes from the clock and is only used as a list key. */
  datatype LogEntry = LogEntry(id: int, kind: EntryKind, text: string)

  /** The generation service's unit of output. */
  datatype StorySegment = StorySegment(story: string, choices: seq<string>)

  /** The phase the session is in; it decides what the page shows. */
  datatype GameState = Start | Playing | Error | Loading

  /** The sentinel choice that restarts the session. */
  const Restart: string := "Od nowa"
}

/** The lesson data model: a lesson is a fixed sequence of steps, each of which
    either writes content onto the whiteboard or narrates an explanation. */
module LessonTypes {

  /** An optional value; stands for TypeScript's `T | undefined` and `T | null`. */
  datatype Option<+T> = None | Some(value: T)

  /** `ActionType`: a step either writes onto the board or explains. */
  datatype Action = Write | Explain

  /** `Position`: an advisory layout hint for board content. */
  datatype Position = Top | Below | Center

  /** `LessonStep`; `position` is optional in the lesson data. */
  datatype LessonStep = LessonStep(action: Action, content: string, position: Option<Position>)

  /** `LessonData`: what the lesson service returns. */
  datatype LessonData = LessonData(lesson: seq<LessonStep>)

  /** `BoardContent`: one entry shown on the whiteboard, derived from a write step. */
  datatype BoardContent = BoardContent(id: string, text: string, position: Position, timestamp: int)
}

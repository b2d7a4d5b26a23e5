/** The session state of the lesson player (the `App` component's state) and
    the handlers that change it: starting a lesson, stepping forward and back,
    restarting, toggling auto-play, and the effect that rebuilds the board
    whenever the cursor or the lesson changes. */
module App {
  import opened LessonTypes
  import opened JsText
  import opened Playback

  /** A file the user attached, already read as base64 data. */
  datatype AttachedFile = AttachedFile(name: string, data: string, mimeType: string)

  /** `FileData`: a file as sent to the lesson service. */
  datatype FileData = FileData(data: string, mimeType: string)

  /** The request `startLesson` hands to the lesson service. */
  datatype LessonRequest = LessonRequest(prompt: string, files: seq<FileData>)

  /** How the lesson service call ended: with a lesson, or with any failure
      (network, HTTP status or unparsable reply). */
  datatype FetchOutcome = Fetched(data: LessonData) | FetchFailed

  /** The message shown when a lesson could not be fetched. */
  const FetchErrorMessage: string := "Easy PrepAI couldn't process that. Try a clearer question."

  /** `prompt || userInput`: an absent or empty prompt falls back to the input box. */
  function FinalPrompt(prompt: Option<string>, userInput: string): string
  {
    if prompt.Some? && prompt.value != "" then prompt.value else userInput
  }

  /** The attached files as the lesson service expects them, in attachment order. */
  function FormatFiles(files: seq<AttachedFile>): (r: seq<FileData>)
    ensures |r| == |files|
    ensures forall i :: 0 <= i < |files| ==> r[i] == FileData(files[i].data, files[i].mimeType)
  {
    if files == [] then []
    else [FileData(files[0].data, files[0].mimeType)] + FormatFiles(files[1..])
  }

  /** `!finalPrompt.trim() && attachedFiles.length === 0`: nothing to ask
      about, exactly when the prompt is all whitespace and no file is attached. */
  function IsEmptyRequest(finalPrompt: string, files: seq<AttachedFile>): (b: bool)
    ensures b <==> IsBlank(finalPrompt) && files == []
  {
    TrimEmptyIffBlank(finalPrompt);
    Trim(finalPrompt) == [] && |files| == 0
  }

  class Session {
    var userInput: string
    var lesson: Option<LessonData>
    var index: int
    var board: seq<BoardContent>
    var explanation: Option<string>
    var loading: bool
    var error: Option<string>
    var autoPlay: bool
    var attachedFiles: seq<AttachedFile>

    /** The cursor never drops below -1, and while a non-empty lesson is
        loaded it never passes that lesson's last step. */
    ghost predicate Valid()
      reads this
    {
      -1 <= index &&
      (lesson.Some? && lesson.value.lesson != [] ==> index < |lesson.value.lesson|)
    }

    /** The board shows the reconstruction for the cursor. */
    ghost predicate Synced()
      reads this
    {
      lesson.Some? && 0 <= index < |lesson.value.lesson| &&
      BoardState(board, explanation) == Replay(lesson.value.lesson, index)
    }

    /** The initial state: nothing typed, no lesson, cursor at -1, empty
        board, not loading, no error, auto-play off, no files. */
    constructor ()
      ensures Valid()
      ensures userInput == "" && lesson.None? && index == -1
      ensures board == [] && explanation.None?
      ensures !loading && error.None? && !autoPlay && attachedFiles == []
    {
      userInput := "";
      lesson := None;
      index := -1;
      board := [];
      explanation := None;
      loading := false;
      error := None;
      autoPlay := false;
      attachedFiles := [];
    }

    /** `handleNext`: with no lesson nothing happens; at or past the last
        step the session ends (auto-play off, lesson unloaded, cursor kept);
        otherwise the cursor moves forward by exactly one. A step taken by
        an armed auto-play timer always moves forward. */
    method HandleNext()
      requires Valid()
      modifies this`index, this`autoPlay, this`lesson
      ensures Valid()
      ensures old(lesson).None? ==>
        lesson == old(lesson) && index == old(index) && autoPlay == old(autoPlay)
      ensures old(IsComplete(lesson, index)) ==>
        lesson.None? && !autoPlay && index == old(index)
      ensures old(lesson).Some? && !old(IsComplete(lesson, index)) ==>
        lesson == old(lesson) && index == old(index) + 1 && autoPlay == old(autoPlay)
      ensures old(AutoPlayDelay(autoPlay, lesson, index, loading)).Some? ==>
        lesson == old(lesson) && index == old(index) + 1
    {
      if lesson.None? {
        return;
      }
      if index >= |lesson.value.lesson| - 1 {
        autoPlay := false;
        lesson := None;
        return;
      }
      index := index + 1;
    }

    /** `onPrevious`: auto-play always stops; the cursor moves back by one
        only when it is past the first step, so it never drops below 0. */
    method Previous()
      requires Valid()
      modifies this`autoPlay, this`index
      ensures Valid()
      ensures !autoPlay
      ensures old(index) > 0 ==> index == old(index) - 1
      ensures old(index) <= 0 ==> index == old(index)
    {
      autoPlay := false;
      if index > 0 {
        index := index - 1;
      }
    }

    /** `onRestart`: auto-play stops and the lesson is unloaded; the cursor,
        board and everything else stay as they are. */
    method Restart()
      requires Valid()
      modifies this`autoPlay, this`lesson
      ensures Valid()
      ensures !autoPlay && lesson.None?
    {
      autoPlay := false;
      lesson := None;
    }

    /** `onToggleAutoPlay`: flips auto-play and nothing else. */
    method ToggleAutoPlay()
      requires Valid()
      modifies this`autoPlay
      ensures Valid()
      ensures autoPlay == !old(autoPlay)
    {
      autoPlay := !autoPlay;
    }

    /** Closing the error banner clears the error. */
    method DismissError()
      modifies this`error
      ensures error.None?
    {
      error := None;
    }

    /** Typing into the prompt box. */
    method SetUserInput(text: string)
      modifies this`userInput
      ensures userInput == text
    {
      userInput := text;
    }

    /** A file finished reading: it is appended to the attached files. */
    method AttachFile(file: AttachedFile)
      modifies this`attachedFiles
      ensures attachedFiles == old(attachedFiles) + [file]
    {
      attachedFiles := attachedFiles + [file];
    }

    /** The part of `startLesson` before the lesson service is awaited. A
        blank prompt with no attached files does nothing and sends nothing.
        Otherwise loading starts, the error, board and explanation are
        cleared, the cursor goes back to -1, and the returned request carries
        the chosen prompt and the attached files. */
    method BeginLesson(prompt: Option<string>) returns (request: Option<LessonRequest>)
      requires Valid()
      modifies this`loading, this`error, this`board, this`explanation, this`index
      ensures Valid()
      ensures request.None? <==> IsBlank(FinalPrompt(prompt, userInput)) && attachedFiles == []
      ensures request.None? ==>
        loading == old(loading) && error == old(error) && board == old(board) &&
        explanation == old(explanation) && index == old(index)
      ensures request.Some? ==>
        loading && error.None? && board == [] && explanation.None? && index == -1 &&
        request.value == LessonRequest(FinalPrompt(prompt, userInput), FormatFiles(attachedFiles))
    {
      var finalPrompt := FinalPrompt(prompt, userInput);
      if IsEmptyRequest(finalPrompt, attachedFiles) {
        return None;
      }
      loading := true;
      error := None;
      board := [];
      explanation := None;
      index := -1;
      request := Some(LessonRequest(finalPrompt, FormatFiles(attachedFiles)));
    }

    /** The part of `startLesson` after the lesson service answers. A lesson
        is stored with the cursor on its first step; a failure sets the fixed
        error message and leaves lesson and cursor alone. Either way loading
        stops and the attached files are cleared. */
    method FinishLesson(outcome: FetchOutcome)
      requires Valid()
      modifies this`lesson, this`index, this`error, this`loading, this`attachedFiles
      ensures Valid()
      ensures !loading && attachedFiles == []
      ensures outcome.Fetched? ==>
        lesson == Some(outcome.data) && index == 0 && error == old(error)
      ensures outcome.FetchFailed? ==>
        error == Some(FetchErrorMessage) && lesson == old(lesson) && index == old(index)
    {
      match outcome {
        case Fetched(data) =>
          lesson := Some(data);
          index := 0;
        case FetchFailed =>
          error := Some(FetchErrorMessage);
      }
      loading := false;
      attachedFiles := [];
    }

    /** `reconstructBoardState(targetIndex)`: with no lesson it does nothing;
        otherwise the board and explanation become the reconstruction for the
        target. `ok` is false when the target lies past the last step, where
        the source throws before setting anything. */
    method ReconstructBoardState(targetIndex: int) returns (ok: bool)
      modifies this`board, this`explanation
      ensures lesson.None? ==> ok && board == old(board) && explanation == old(explanation)
      ensures lesson.Some? ==> (ok <==> targetIndex < |lesson.value.lesson|)
      ensures lesson.Some? && ok ==>
        BoardState(board, explanation) ==
          Replay(lesson.value.lesson, if targetIndex < -1 then -1 else targetIndex)
      ensures !ok ==> board == old(board) && explanation == old(explanation)
    {
      if lesson.None? {
        return true;
      }
      var r := ReconstructBoard(lesson.value.lesson, targetIndex);
      match r {
        case None =>
          ok := false;
        case Some(st) =>
          board := st.board;
          explanation := st.explanation;
          ok := true;
      }
    }

    /** The effect that runs after the cursor or the lesson changes: with a
        lesson loaded and the cursor on a step, the board is rebuilt for the
        cursor. It fails only for a loaded lesson with no steps at all. */
    method SyncBoard() returns (ok: bool)
      requires Valid()
      modifies this`board, this`explanation
      ensures Valid()
      ensures !ok <==> lesson.Some? && lesson.value.lesson == [] && index != -1
      ensures ok && lesson.Some? && index != -1 ==> Synced()
      ensures !ok || lesson.None? || index == -1 ==>
        board == old(board) && explanation == old(explanation)
    {
      ok := true;
      if lesson.Some? && index != -1 {
        ok := ReconstructBoardState(index);
      }
    }
  }
}

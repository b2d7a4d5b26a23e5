/** The lesson playback engine: rebuilding the whiteboard from the step
    sequence up to a target index, the auto-play delay rule, and the
    "lesson complete" flag (App.tsx). */
module Playback {
  import opened LessonTypes
  import opened JsText

  /** `step.position || 'center'`. */
  function PositionOrCenter(p: Option<Position>): Position
  {
    match p
    case Some(pos) => pos
    case None => Center
  }

  /** The board entry id of step `i`: `step-${i}`. */
  function StepId(i: nat): string
  {
    "step-" + Decimal(i)
  }

  /** Two steps never share a board entry id. */
  lemma StepIdInjective(i: nat, j: nat)
    ensures StepId(i) == StepId(j) ==> i == j
  {
    if StepId(i) == StepId(j) {
      assert Decimal(i) == StepId(i)[5..];
      DecimalInjective(i, j);
    }
  }

  /** The board entry a write step `i` contributes. */
  function EntryFor(steps: seq<LessonStep>, i: nat): BoardContent
    requires i < |steps|
  {
    BoardContent(StepId(i), steps[i].content, PositionOrCenter(steps[i].position), i)
  }

  /** What reconstruction produces: the board entries and the explanation slot. */
  datatype BoardState = BoardState(board: seq<BoardContent>, explanation: Option<string>)

  /** One iteration of the reconstruction loop, for step `i`: a write step
      appends its entry and clears the explanation slot; an explain step
      overwrites the slot. */
  function ApplyStep(st: BoardState, steps: seq<LessonStep>, i: nat): BoardState
    requires i < |steps|
  {
    match steps[i].action
    case Write => BoardState(st.board + [EntryFor(steps, i)], None)
    case Explain => BoardState(st.board, Some(steps[i].content))
  }

  /** The board state after processing `steps[0..t]` in order, from an empty
      board and an empty slot (`t == -1` processes nothing). */
  function Replay(steps: seq<LessonStep>, t: int): (r: BoardState)
    requires -1 <= t < |steps|
    ensures |r.board| <= t + 1
    ensures forall k :: 0 <= k < |r.board| ==> 0 <= r.board[k].timestamp <= t
    decreases t + 1
  {
    if t == -1 then BoardState([], None) else ApplyStep(Replay(steps, t - 1), steps, t)
  }

  /** Every entry of `b` is the entry of a write step at or before `t`. */
  predicate OnlyWriteEntries(steps: seq<LessonStep>, b: seq<BoardContent>, t: int)
  {
    forall k :: 0 <= k < |b| ==>
      0 <= b[k].timestamp <= t && b[k].timestamp < |steps| &&
      steps[b[k].timestamp].action == Write && b[k] == EntryFor(steps, b[k].timestamp)
  }

  /** The entries of `b` appear in strictly increasing step order. */
  predicate InStepOrder(b: seq<BoardContent>)
  {
    forall k, l :: 0 <= k < l < |b| ==> b[k].timestamp < b[l].timestamp
  }

  /** Every write step at or before `t` has its entry in `b`. */
  predicate HasEveryWrite(steps: seq<LessonStep>, b: seq<BoardContent>, t: int)
    requires t < |steps|
  {
    forall j :: 0 <= j <= t && steps[j].action == Write ==> EntryFor(steps, j) in b
  }

  /** Every entry on the board after reconstruction to `t` is the entry of a
      write step at or before `t`. */
  lemma {:induction false} ReplayOnlyWrites(steps: seq<LessonStep>, t: int)
    requires -1 <= t < |steps|
    ensures OnlyWriteEntries(steps, Replay(steps, t).board, t)
  {
    if t >= 0 {
      ReplayOnlyWrites(steps, t - 1);
      var prev := Replay(steps, t - 1).board;
      var b := Replay(steps, t).board;
      if steps[t].action == Write {
        assert b == prev + [EntryFor(steps, t)];
        forall k | 0 <= k < |b|
          ensures 0 <= b[k].timestamp <= t && b[k].timestamp < |steps|
          ensures steps[b[k].timestamp].action == Write && b[k] == EntryFor(steps, b[k].timestamp)
        {
          if k < |prev| {
            assert b[k] == prev[k];
          }
        }
      }
    }
  }

  /** The entries on a reconstructed board appear in step order. */
  lemma {:induction false} ReplayInStepOrder(steps: seq<LessonStep>, t: int)
    requires -1 <= t < |steps|
    ensures InStepOrder(Replay(steps, t).board)
  {
    if t >= 0 {
      ReplayInStepOrder(steps, t - 1);
      var prev := Replay(steps, t - 1).board;
      var b := Replay(steps, t).board;
      if steps[t].action == Write {
        assert b == prev + [EntryFor(steps, t)];
        assert forall k :: 0 <= k < |prev| ==> b[k] == prev[k];
      }
    }
  }

  /** Every write step at or before `t` has its entry on the board. */
  lemma {:induction false} ReplayHasEveryWrite(steps: seq<LessonStep>, t: int)
    requires -1 <= t < |steps|
    ensures HasEveryWrite(steps, Replay(steps, t).board, t)
  {
    if t >= 0 {
      ReplayHasEveryWrite(steps, t - 1);
      var prev := Replay(steps, t - 1).board;
      var b := Replay(steps, t).board;
      assert prev <= b;
      forall j | 0 <= j <= t && steps[j].action == Write ensures EntryFor(steps, j) in b {
        if j < t {
          assert EntryFor(steps, j) in prev;
        } else {
          assert b[|prev|] == EntryFor(steps, t);
        }
      }
    }
  }

  /** The board after reconstruction to `t` holds exactly one entry per write
      step in `steps[0..t]`, in step order: every entry is the entry of a
      write step at or before `t`, the entries' timestamps strictly increase
      (so no step contributes twice), and every write step at or before `t`
      has its entry on the board. */
  lemma {:induction false} ReplayBoardExact(steps: seq<LessonStep>, t: int)
    requires -1 <= t < |steps|
    ensures OnlyWriteEntries(steps, Replay(steps, t).board, t)
    ensures InStepOrder(Replay(steps, t).board)
    ensures HasEveryWrite(steps, Replay(steps, t).board, t)
  {
    ReplayOnlyWrites(steps, t);
    ReplayInStepOrder(steps, t);
    ReplayHasEveryWrite(steps, t);
  }

  /** No two entries on a reconstructed board share an id. */
  lemma ReplayIdsDistinct(steps: seq<LessonStep>, t: int)
    requires -1 <= t < |steps|
    ensures var b := Replay(steps, t).board;
      forall k, l :: 0 <= k < l < |b| ==> b[k].id != b[l].id
  {
    ReplayBoardExact(steps, t);
    var b := Replay(steps, t).board;
    forall k, l | 0 <= k < l < |b| ensures b[k].id != b[l].id {
      StepIdInjective(b[k].timestamp, b[l].timestamp);
    }
  }

  /** Moving the target from `t` to `t + 1` appends exactly the entry of step
      `t + 1` when it writes, and leaves the board as it was when it explains. */
  lemma ReplayStep(steps: seq<LessonStep>, t: int)
    requires -1 <= t < |steps| - 1
    ensures steps[t + 1].action == Write ==>
      Replay(steps, t + 1).board == Replay(steps, t).board + [EntryFor(steps, t + 1)]
    ensures steps[t + 1].action == Explain ==>
      Replay(steps, t + 1).board == Replay(steps, t).board
  {
  }

  /** The board for an earlier target is a prefix of the board for a later one. */
  lemma {:induction false} ReplayPrefix(steps: seq<LessonStep>, t: int, u: int)
    requires -1 <= t <= u < |steps|
    ensures Replay(steps, t).board <= Replay(steps, u).board
    decreases u - t
  {
    if t < u {
      ReplayPrefix(steps, t, u - 1);
    }
  }

  /** The index of the last explain step in `steps[0..t]`, or -1 when there is none. */
  function LastExplain(steps: seq<LessonStep>, t: int): (j: int)
    requires -1 <= t < |steps|
    ensures -1 <= j <= t
    ensures j >= 0 ==> steps[j].action == Explain
    ensures forall k :: j < k <= t ==> steps[k].action != Explain
    decreases t + 1
  {
    if t == -1 then -1 else if steps[t].action == Explain then t else LastExplain(steps, t - 1)
  }

  /** Whether some step in `steps[j+1..t]` writes. */
  predicate WriteAfter(steps: seq<LessonStep>, j: int, t: int)
    requires -1 <= j && t < |steps|
  {
    exists k :: j < k <= t && steps[k].action == Write
  }

  /** The explanation after reconstruction to `t` is the content of the last
      explain step at or before `t` when no write step follows it, and empty
      otherwise; equivalently, it is present exactly when step `t` itself
      explains, and then it is that step's content. */
  lemma ReplayExplanation(steps: seq<LessonStep>, t: int)
    requires -1 <= t < |steps|
    ensures var j := LastExplain(steps, t);
      Replay(steps, t).explanation ==
        if j >= 0 && !WriteAfter(steps, j, t) then Some(steps[j].content) else None
    ensures Replay(steps, t).explanation.Some? <==> t >= 0 && steps[t].action == Explain
    ensures Replay(steps, t).explanation.Some? ==> Replay(steps, t).explanation.value == steps[t].content
  {
  }

  /** reconstructBoardState's loop over `steps[0..targetIndex]`. When the
      target lies past the last step the loop reads a missing step, which
      throws before any state is set; that outcome is `None`. */
  method ReconstructBoard(steps: seq<LessonStep>, targetIndex: int) returns (r: Option<BoardState>)
    ensures r.Some? <==> targetIndex < |steps|
    ensures r.Some? ==> r.value == Replay(steps, if targetIndex < -1 then -1 else targetIndex)
  {
    var newBoard: seq<BoardContent> := [];
    var lastExpl: Option<string> := None;
    var i := 0;
    while i <= targetIndex
      invariant 0 <= i <= |steps|
      invariant i == 0 || i <= targetIndex + 1
      invariant BoardState(newBoard, lastExpl) == Replay(steps, i - 1)
    {
      if i == |steps| {
        return None;
      }
      var step := steps[i];
      if step.action == Write {
        newBoard := newBoard + [BoardContent(StepId(i), step.content, PositionOrCenter(step.position), i)];
        lastExpl := None;
      } else {
        lastExpl := Some(step.content);
      }
      i := i + 1;
    }
    r := Some(BoardState(newBoard, lastExpl));
  }

  /** `isComplete`: a lesson is loaded and the cursor is at or past its last step. */
  function IsComplete(lesson: Option<LessonData>, index: int): bool
  {
    lesson.Some? && index >= |lesson.value.lesson| - 1
  }

  /** The auto-play effect's decision: `Some(delay)` when a timer is armed,
      `None` when none is. A timer is armed while auto-play is on, a lesson is
      loaded, the cursor is before the last step and nothing is loading; it
      waits 2500 when the next step explains and 1500 otherwise (also when
      there is no step at that index). */
  function AutoPlayDelay(autoPlay: bool, lesson: Option<LessonData>, index: int, loading: bool): (r: Option<int>)
    ensures r.Some? <==> autoPlay && lesson.Some? && index < |lesson.value.lesson| - 1 && !loading
    ensures r.Some? ==> r.value == 1500 || r.value == 2500
    ensures r.Some? && 0 <= index + 1 ==>
      (r.value == 2500 <==> lesson.value.lesson[index + 1].action == Explain)
  {
    if autoPlay && lesson.Some? && index < |lesson.value.lesson| - 1 && !loading then
      var next := index + 1;
      Some(if 0 <= next < |lesson.value.lesson| && lesson.value.lesson[next].action == Explain then 2500 else 1500)
    else
      None
  }

  /** A timer is armed exactly when auto-play is on, nothing is loading and a
      loaded lesson is not yet complete. */
  lemma ArmedIffNotComplete(autoPlay: bool, lesson: Option<LessonData>, index: int, loading: bool)
    ensures AutoPlayDelay(autoPlay, lesson, index, loading).Some? <==>
      autoPlay && !loading && lesson.Some? && !IsComplete(lesson, index)
  {
  }
}

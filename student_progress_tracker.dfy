/** The student progress view: the history built from the student's results,
    and the flags that keep polls and completion events from starting a
    refresh while one is running. */
module StudentProgressTracker {

  import opened Common
  import opened JsMath
  import opened Questions

  /** The course and assessment the server embeds in each result. */
  datatype EmbeddedCourse = EmbeddedCourse(title: string)
  datatype EmbeddedAssessment = EmbeddedAssessment(title: string, questions: Blob, course: Option<EmbeddedCourse>)

  /** An element of `/Result/by-user/{userId}`. */
  datatype UserResult = UserResult(resultId: Id, assessmentId: Id, score: JsNumber, attemptDate: int,
                                   assessment: Option<EmbeddedAssessment>)

  /** One history card. */
  datatype HistoryEntry = HistoryEntry(attemptId: Id, assessmentId: Id, assessmentTitle: string,
                                       courseTitle: string, score: JsNumber, maxScore: nat,
                                       percentage: JsNumber, attemptDate: int)

  const FetchError := "Failed to fetch assessment history. Please try again later."

  /** The question count of an embedded assessment, 0 when there is none. The
      parse is unguarded: a present assessment whose questions do not parse
      throws (None), even when they are merely falsy. */
  function MaxScore(a: Option<EmbeddedAssessment>): (m: Option<nat>)
    ensures a.None? ==> m == Some(0)
    ensures a.Some? ==> (m.Some? <==> a.value.questions.Encoded?)
    ensures a.Some? && m.Some? ==> m.value == |a.value.questions.questions|
  {
    match a
    case None => Some(0)
    case Some(x) => if x.questions.Encoded? then Some(|x.questions.questions|) else None
  }

  /** The map callback for one result, or None when it throws. */
  function ToEntry(r: UserResult): (e: Option<HistoryEntry>)
    ensures e.Some? <==> MaxScore(r.assessment).Some?
    ensures e.Some? ==>
              && e.value.attemptId == r.resultId
              && e.value.assessmentId == r.assessmentId
              && e.value.score == r.score
              && e.value.attemptDate == r.attemptDate
              && e.value.maxScore == MaxScore(r.assessment).value
              && e.value.percentage == UnguardedPercent(r.score, e.value.maxScore)
              && (r.assessment.None? || r.assessment.value.title == "" ==> e.value.assessmentTitle == "Unknown Assessment")
              && (r.assessment.Some? && r.assessment.value.title != "" ==> e.value.assessmentTitle == r.assessment.value.title)
              && ((r.assessment.None? || r.assessment.value.course.None? ||
                   r.assessment.value.course.value.title == "") ==> e.value.courseTitle == "Unknown Course")
              && ((r.assessment.Some? && r.assessment.value.course.Some? &&
                   r.assessment.value.course.value.title != "") ==>
                    e.value.courseTitle == r.assessment.value.course.value.title)
  {
    match MaxScore(r.assessment)
    case None => None
    case Some(maxScore) =>
      var title := if r.assessment.Some? && r.assessment.value.title != "" then r.assessment.value.title
                   else "Unknown Assessment";
      var courseTitle := if r.assessment.Some? && r.assessment.value.course.Some? &&
                            r.assessment.value.course.value.title != ""
                         then r.assessment.value.course.value.title else "Unknown Course";
      Some(HistoryEntry(r.resultId, r.assessmentId, title, courseTitle, r.score, maxScore,
                        UnguardedPercent(r.score, maxScore), r.attemptDate))
  }

  /** The history: one entry per result in the order received, or None when
      building the entry throws for any of them. */
  function BuildHistory(rs: seq<UserResult>): (h: Option<seq<HistoryEntry>>)
    ensures h.None? <==> exists i :: 0 <= i < |rs| && ToEntry(rs[i]).None?
    ensures h.Some? ==> |h.value| == |rs| && forall i :: 0 <= i < |rs| ==> Some(h.value[i]) == ToEntry(rs[i])
  {
    if rs == [] then Some([])
    else
      var rest := BuildHistory(rs[1..]);
      assert forall i :: 1 <= i < |rs| ==> rs[i] == rs[1..][i - 1];
      match ToEntry(rs[0])
      case None => None
      case Some(e) => if rest.None? then None else Some([e] + rest.value)
  }

  /** The history is not re-sorted: entry `i` carries the id and date of the
      `i`-th result received, so the cards keep the server's order whatever it is. */
  lemma HistoryKeepsServerOrder(rs: seq<UserResult>)
    requires BuildHistory(rs).Some?
    ensures forall i :: 0 <= i < |rs| ==>
              BuildHistory(rs).value[i].attemptId == rs[i].resultId &&
              BuildHistory(rs).value[i].attemptDate == rs[i].attemptDate
  {
    forall i | 0 <= i < |rs|
      ensures BuildHistory(rs).value[i].attemptId == rs[i].resultId &&
              BuildHistory(rs).value[i].attemptDate == rs[i].attemptDate
    {
      assert Some(BuildHistory(rs).value[i]) == ToEntry(rs[i]);
    }
  }

  /** A percentage is shown as a number exactly when the score is a number or
      `null` and the assessment has questions; a question-less assessment never
      yields a silent 0. */
  lemma {:induction false} PercentageDefinedIff(rs: seq<UserResult>, i: nat)
    requires BuildHistory(rs).Some? && i < |rs|
    ensures var e := BuildHistory(rs).value[i];
            e.percentage.Finite? <==> !e.score.NotFinite? && e.maxScore > 0
  {
    assert Some(BuildHistory(rs).value[i]) == ToEntry(rs[i]);
  }

  /** A full score on a non-empty assessment is 100 percent. */
  lemma FullScoreIsHundred(r: UserResult)
    requires r.assessment.Some? && r.assessment.value.questions.Encoded?
    requires |r.assessment.value.questions.questions| > 0
    requires r.score == Finite(|r.assessment.value.questions.questions|)
    ensures ToEntry(r).Some? && ToEntry(r).value.percentage == Finite(100)
  {
    PercentEnds(|r.assessment.value.questions.questions|);
  }

  /** The body of `fetchAssessmentHistory` after the request, given the error
      shown at that moment: a success replaces the history and leaves the error
      alone (it was cleared when the fetch began); a failed request, or a
      result whose questions cannot be parsed, sets the error and empties the
      history. */
  function FetchOutcome(res: Fetched<seq<UserResult>>, error: Option<string>): (out: (seq<HistoryEntry>, Option<string>))
    ensures res.Ok? && BuildHistory(res.data).Some? ==> out == (BuildHistory(res.data).value, error)
    ensures res.Failed? || BuildHistory(res.data).None? ==> out == ([], Some(FetchError))
  {
    if res.Ok? && BuildHistory(res.data).Some? then (BuildHistory(res.data).value, error)
    else ([], Some(FetchError))
  }

  /** The number of fetches in flight that a poll or event started
      (`showLoading` false). */
  function Background(inFlight: seq<bool>): (n: nat)
    ensures n <= |inFlight|
    ensures n == 0 <==> forall i :: 0 <= i < |inFlight| ==> inFlight[i]
  {
    if inFlight == [] then 0 else (if inFlight[0] then 0 else 1) + Background(inFlight[1..])
  }

  lemma {:induction false} BackgroundAppend(a: seq<bool>, b: seq<bool>)
    ensures Background(a + b) == Background(a) + Background(b)
  {
    if a == [] {
      assert a + b == b;
    } else {
      assert (a + b)[0] == a[0] && (a + b)[1..] == a[1..] + b;
      BackgroundAppend(a[1..], b);
    }
  }

  /** Removing one pending fetch removes one background fetch or none. */
  lemma {:induction false} BackgroundRemove(s: seq<bool>, k: nat)
    requires k < |s|
    ensures Background(s[..k] + s[k + 1..]) == Background(s) - (if s[k] then 0 else 1)
  {
    assert s == s[..k] + [s[k]] + s[k + 1..];
    BackgroundAppend(s[..k] + [s[k]], s[k + 1..]);
    BackgroundAppend(s[..k], [s[k]]);
    BackgroundAppend(s[..k], s[k + 1..]);
  }

  /** The component's state. `inFlight` holds, oldest first, the `showLoading`
      argument of every fetch that has been started and not yet completed. */
  class ProgressTracker {
    var history: seq<HistoryEntry>
    var loading: bool
    var error: Option<string>
    var isRefreshing: bool
    var inFlight: seq<bool>

    /** What the code keeps: a set flag means a guarded background fetch is
        still pending. */
    ghost predicate FlagSound()
      reads this
    {
      isRefreshing ==> Background(inFlight) >= 1
    }

    /** The evidently intended discipline: at most one background fetch, and
        the flag set exactly while it is pending. */
    ghost predicate Exclusive()
      reads this
    {
      Background(inFlight) <= 1 && (isRefreshing <==> Background(inFlight) == 1)
    }

    /** The initial `useState` values. */
    constructor ()
      ensures history == [] && loading && error == None && !isRefreshing && inFlight == []
      ensures FlagSound() && Exclusive()
    {
      history, loading, error, isRefreshing, inFlight := [], true, None, false, [];
    }

    /** `fetchAssessmentHistory(showLoading)` up to its `await`: the loading
        flag only for a foreground fetch, and the error cleared. */
    method BeginFetch(showLoading: bool)
      modifies this
      ensures loading == (old(loading) || showLoading)
      ensures error == None
      ensures inFlight == old(inFlight) + [showLoading]
      ensures history == old(history) && isRefreshing == old(isRefreshing)
      ensures old(FlagSound()) ==> FlagSound()
      ensures showLoading && old(Exclusive()) ==> Exclusive()
    {
      if showLoading {
        loading := true;
      }
      error := None;
      BackgroundAppend(inFlight, [showLoading]);
      inFlight := inFlight + [showLoading];
    }

    /** The guarded start shared by the poll tick and the completion event. */
    method RefreshIfIdle() returns (started: bool)
      modifies this
      ensures started == !old(isRefreshing)
      ensures started ==> isRefreshing && error == None && inFlight == old(inFlight) + [false]
      ensures !started ==> error == old(error) && inFlight == old(inFlight)
      ensures isRefreshing
      ensures loading == old(loading) && history == old(history)
      ensures old(FlagSound()) ==> FlagSound()
      ensures old(Exclusive()) ==> Exclusive()
    {
      started := !isRefreshing;
      if started {
        BackgroundAppend(inFlight, [false]);
        isRefreshing := true;
        BeginFetch(false);
      }
    }

    /** The poll tick (after its debounce): start a background fetch unless
        one is already refreshing. */
    method OnPollTick() returns (started: bool)
      modifies this
      ensures started == !old(isRefreshing)
      ensures isRefreshing
      ensures started ==> isRefreshing && error == None && inFlight == old(inFlight) + [false]
      ensures !started ==> inFlight == old(inFlight) && error == old(error)
      ensures loading == old(loading) && history == old(history)
      ensures old(FlagSound()) ==> FlagSound()
      ensures old(Exclusive()) ==> Exclusive()
    {
      started := RefreshIfIdle();
    }

    /** The `assessmentCompleted` event handler: the same guarded start. */
    method OnAssessmentCompleted() returns (started: bool)
      modifies this
      ensures started == !old(isRefreshing)
      ensures isRefreshing
      ensures started ==> isRefreshing && error == None && inFlight == old(inFlight) + [false]
      ensures !started ==> inFlight == old(inFlight) && error == old(error)
      ensures loading == old(loading) && history == old(history)
      ensures old(FlagSound()) ==> FlagSound()
      ensures old(Exclusive()) ==> Exclusive()
    {
      started := RefreshIfIdle();
    }

    /** Completion of pending fetch `k` as written: store the outcome, clear
        `loading` if that fetch set it, and clear `isRefreshing` whatever
        fetch it was. */
    method FinishFetch(k: nat, res: Fetched<seq<UserResult>>)
      requires k < |inFlight|
      modifies this
      ensures (history, error) == FetchOutcome(res, old(error))
      ensures loading == (old(loading) && !old(inFlight)[k])
      ensures !isRefreshing
      ensures inFlight == old(inFlight)[..k] + old(inFlight)[k + 1..]
      ensures FlagSound()
    {
      var outcome := FetchOutcome(res, error);
      history, error := outcome.0, outcome.1;
      if inFlight[k] {
        loading := false;
      }
      isRefreshing := false;
      inFlight := inFlight[..k] + inFlight[k + 1..];
    }

    /** Completion with the flag cleared only by the background fetch that
        set it; a foreground fetch leaves it alone. */
    method FinishFetchExclusive(k: nat, res: Fetched<seq<UserResult>>)
      requires k < |inFlight|
      modifies this
      ensures (history, error) == FetchOutcome(res, old(error))
      ensures loading == (old(loading) && !old(inFlight)[k])
      ensures isRefreshing == (old(isRefreshing) && old(inFlight)[k])
      ensures inFlight == old(inFlight)[..k] + old(inFlight)[k + 1..]
      ensures old(Exclusive()) ==> Exclusive()
    {
      var outcome := FetchOutcome(res, error);
      history, error := outcome.0, outcome.1;
      BackgroundRemove(inFlight, k);
      if inFlight[k] {
        loading := false;
      } else {
        isRefreshing := false;
      }
      inFlight := inFlight[..k] + inFlight[k + 1..];
    }
  }

  /** As written, the guard does not keep refreshes apart: the mount fetch
      completing while a poll-started fetch is pending clears the flag, and
      the next tick starts a second background fetch beside the first. */
  method OverlappingRefreshes(res: Fetched<seq<UserResult>>) returns (background: nat)
    ensures background == 2
  {
    var t := new ProgressTracker();
    t.BeginFetch(true);                  // the mount effect
    var first := t.OnPollTick();         // starts a background fetch
    t.FinishFetch(0, res);               // the mount fetch completes first
    var second := t.OnPollTick();        // the flag is clear again
    assert first && second;
    assert t.inFlight == [false, false];
    background := Background(t.inFlight);
  }

  /** With the corrected completion the same sequence of events leaves one
      background fetch pending: the second tick is skipped. */
  method SingleRefreshWhenExclusive(res: Fetched<seq<UserResult>>) returns (background: nat)
    ensures background == 1
  {
    var t := new ProgressTracker();
    t.BeginFetch(true);
    var first := t.OnPollTick();
    t.FinishFetchExclusive(0, res);
    var second := t.OnPollTick();
    assert first && !second;
    assert t.inFlight == [false];
    background := Background(t.inFlight);
  }

  /** The error stays up after a later success: a background fetch fails while
      the mount fetch is pending, and the mount fetch then succeeds without
      clearing the error, so the error alert keeps showing. */
  method ErrorSurvivesLaterSuccess() returns (error: Option<string>, history: seq<HistoryEntry>)
    ensures error == Some(FetchError) && history == []
  {
    var t := new ProgressTracker();
    t.BeginFetch(true);                  // the mount effect
    var started := t.OnPollTick();       // a background fetch
    assert started && |t.inFlight| == 2;
    t.FinishFetch(1, Failed);            // the background fetch fails
    t.FinishFetch(0, Ok([]));            // the mount fetch succeeds
    error, history := t.error, t.history;
  }

  /** Without overlap a later success does clear an earlier failure: the next
      poll-started fetch clears the error when it begins and keeps it clear. */
  method LoneSuccessClearsError(rs: seq<UserResult>) returns (error: Option<string>)
    requires BuildHistory(rs).Some?
    ensures error == None
  {
    var t := new ProgressTracker();
    t.BeginFetch(true);                  // the mount effect
    t.FinishFetch(0, Failed);            // it fails: the error shows
    assert t.error == Some(FetchError) && t.inFlight == [];
    var started := t.OnPollTick();       // the next tick refreshes
    assert started;
    t.FinishFetch(0, Ok(rs));            // and succeeds
    error := t.error;
  }
}

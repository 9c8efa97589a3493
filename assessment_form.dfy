/** The instructor's question-set editor: the initial question list, the edit
    handlers, and the validation and payload of a save. The handlers copy the
    list and change one element; the model keeps the list as a value. */
module AssessmentForm {

  import opened Common
  import opened Questions
  import opened Catalog
  import opened JsStrings

  /** The list the editor opens with: the stored questions when they parse,
      one blank question when the field is falsy or does not parse. */
  function InitialQuestions(stored: Option<Assessment>): (qs: seq<Question>)
    ensures stored.Some? && Decode(stored.value.questions).Some? ==> qs == Decode(stored.value.questions).value
    ensures stored.None? || Decode(stored.value.questions).None? ==> qs == [Blank()]
  {
    if stored.Some? && stored.value.questions.Encoded? then stored.value.questions.questions
    else [Blank()]
  }

  // ---------------------------------------------------------------- edits

  /** `handleQuestionChange(idx, value)`. */
  function SetText(qs: seq<Question>, idx: nat, text: string): (r: seq<Question>)
    requires idx < |qs|
    ensures |r| == |qs|
    ensures r[idx].text == text && r[idx].options == qs[idx].options && r[idx].correctIndex == qs[idx].correctIndex
    ensures forall i :: 0 <= i < |qs| && i != idx ==> r[i] == qs[i]
  {
    qs[idx := qs[idx].(text := text)]
  }

  /** `handleOptionChange(qIdx, optIdx, value)`. */
  function SetOption(qs: seq<Question>, qIdx: nat, optIdx: nat, value: string): (r: seq<Question>)
    requires qIdx < |qs| && optIdx < |qs[qIdx].options|
    ensures |r| == |qs|
    ensures r[qIdx].text == qs[qIdx].text && r[qIdx].correctIndex == qs[qIdx].correctIndex
    ensures |r[qIdx].options| == |qs[qIdx].options| && r[qIdx].options[optIdx] == value
    ensures forall j :: 0 <= j < |qs[qIdx].options| && j != optIdx ==> r[qIdx].options[j] == qs[qIdx].options[j]
    ensures forall i :: 0 <= i < |qs| && i != qIdx ==> r[i] == qs[i]
  {
    qs[qIdx := qs[qIdx].(options := qs[qIdx].options[optIdx := value])]
  }

  /** `handleCorrectIndexChange(qIdx, optIdx)`: the radio buttons pass the
      index of a rendered option. */
  function SetCorrect(qs: seq<Question>, qIdx: nat, optIdx: nat): (r: seq<Question>)
    requires qIdx < |qs| && optIdx < |qs[qIdx].options|
    ensures |r| == |qs|
    ensures r[qIdx].text == qs[qIdx].text && r[qIdx].options == qs[qIdx].options && r[qIdx].correctIndex == optIdx
    ensures WellFormed(r[qIdx])
    ensures forall i :: 0 <= i < |qs| && i != qIdx ==> r[i] == qs[i]
  {
    qs[qIdx := qs[qIdx].(correctIndex := optIdx)]
  }

  /** `addQuestion(idx)`: a blank question goes in right after position `idx`,
      or at the end when `idx + 1` is past it. */
  function InsertBlankAfter(qs: seq<Question>, idx: nat): (r: seq<Question>)
    ensures |r| == |qs| + 1
    ensures var at := if idx + 1 <= |qs| then idx + 1 else |qs|;
            r[at] == Blank() &&
            (forall i :: 0 <= i < at ==> r[i] == qs[i]) &&
            (forall i :: at <= i < |qs| ==> r[i + 1] == qs[i])
  {
    var at := if idx + 1 <= |qs| then idx + 1 else |qs|;
    qs[..at] + [Blank()] + qs[at..]
  }

  /** `removeQuestion(idx)`: keeps every element whose index is not `idx`. */
  function RemoveAt(qs: seq<Question>, idx: int): (r: seq<Question>)
    ensures 0 <= idx < |qs| ==>
              |r| == |qs| - 1 &&
              (forall i :: 0 <= i < idx ==> r[i] == qs[i]) &&
              (forall i :: idx < i < |qs| ==> r[i - 1] == qs[i])
    ensures !(0 <= idx < |qs|) ==> r == qs
  {
    if 0 <= idx < |qs| then qs[..idx] + qs[idx + 1..] else qs
  }

  /** Removing the blank that `addQuestion(idx)` inserted gives back the list. */
  lemma {:induction false} RemoveUndoesInsert(qs: seq<Question>, idx: nat)
    requires idx < |qs|
    ensures RemoveAt(InsertBlankAfter(qs, idx), idx + 1) == qs
  {
    var r := InsertBlankAfter(qs, idx);
    assert r == qs[..idx + 1] + [Blank()] + qs[idx + 1..];
    assert r[..idx + 1] == qs[..idx + 1];
    assert r[idx + 2..] == qs[idx + 1..];
    assert qs == qs[..idx + 1] + qs[idx + 1..];
  }

  /** The remove button is disabled on the last remaining question. */
  predicate RemoveEnabled(qs: seq<Question>) {
    |qs| != 1
  }

  /** With the button enabled, removing a rendered question leaves at least one. */
  lemma RemoveKeepsOne(qs: seq<Question>, idx: nat)
    requires idx < |qs| && RemoveEnabled(qs)
    ensures |RemoveAt(qs, idx)| >= 1
  {
  }

  /** The number of options of each question, in order. */
  function OptionCounts(qs: seq<Question>): (c: seq<nat>)
    ensures |c| == |qs| && forall i :: 0 <= i < |qs| ==> c[i] == |qs[i].options|
  {
    if qs == [] then [] else [|qs[0].options|] + OptionCounts(qs[1..])
  }

  /** No field edit changes a question's option count. */
  lemma {:induction false} FieldEditsKeepOptionCounts(qs: seq<Question>, idx: nat, optIdx: nat, s: string)
    requires idx < |qs| && optIdx < |qs[idx].options|
    ensures OptionCounts(SetText(qs, idx, s)) == OptionCounts(qs)
    ensures OptionCounts(SetOption(qs, idx, optIdx, s)) == OptionCounts(qs)
    ensures OptionCounts(SetCorrect(qs, idx, optIdx)) == OptionCounts(qs)
  {
    var c := OptionCounts(qs);
    assert OptionCounts(SetText(qs, idx, s)) == c;
    assert OptionCounts(SetOption(qs, idx, optIdx, s)) == c;
    assert OptionCounts(SetCorrect(qs, idx, optIdx)) == c;
  }

  /** `addQuestion` adds one count of four right after the chosen question. */
  lemma {:induction false} InsertAddsFourOptions(qs: seq<Question>, idx: nat)
    requires idx < |qs|
    ensures OptionCounts(InsertBlankAfter(qs, idx)) ==
              OptionCounts(qs)[..idx + 1] + [4] + OptionCounts(qs)[idx + 1..]
  {
    var c := OptionCounts(qs);
    var r := InsertBlankAfter(qs, idx);
    var ins := OptionCounts(r);
    forall i | 0 <= i < |ins| ensures ins[i] == (c[..idx + 1] + [4] + c[idx + 1..])[i] {
      if i > idx + 1 { assert r[(i - 1) + 1] == qs[i - 1]; }
    }
  }

  /** `removeQuestion` drops exactly the removed question's count. */
  lemma {:induction false} RemoveDropsOneCount(qs: seq<Question>, idx: nat)
    requires idx < |qs|
    ensures OptionCounts(RemoveAt(qs, idx)) == OptionCounts(qs)[..idx] + OptionCounts(qs)[idx + 1..]
  {
    var c := OptionCounts(qs);
    var r := RemoveAt(qs, idx);
    var rem := OptionCounts(r);
    forall i | 0 <= i < |rem| ensures rem[i] == (c[..idx] + c[idx + 1..])[i] {
      if i >= idx { assert r[(i + 1) - 1] == qs[i + 1]; }
    }
  }

  /** An editor that starts blank starts well formed, with four options per
      question. */
  lemma BlankStartWellFormed(stored: Option<Assessment>)
    requires stored.None? || !stored.value.questions.Encoded?
    ensures AllWellFormed(InitialQuestions(stored))
    ensures OptionCounts(InitialQuestions(stored)) == [4]
  {
    assert InitialQuestions(stored) == [Blank()];
  }

  /** Every question's correct index names one of its options. */
  predicate AllWellFormed(qs: seq<Question>) {
    forall i :: 0 <= i < |qs| ==> WellFormed(qs[i])
  }

  /** Every handler keeps the list well formed. */
  lemma EditsKeepWellFormed(qs: seq<Question>, idx: nat, optIdx: nat, s: string)
    requires AllWellFormed(qs) && idx < |qs| && optIdx < |qs[idx].options|
    ensures AllWellFormed(SetText(qs, idx, s))
    ensures AllWellFormed(SetOption(qs, idx, optIdx, s))
    ensures AllWellFormed(SetCorrect(qs, idx, optIdx))
    ensures AllWellFormed(InsertBlankAfter(qs, idx))
    ensures AllWellFormed(RemoveAt(qs, idx))
  {
    var ins := InsertBlankAfter(qs, idx);
    forall i | 0 <= i < |ins| ensures WellFormed(ins[i]) {
      if i > idx + 1 { assert ins[(i - 1) + 1] == qs[i - 1]; }
    }
    var rem := RemoveAt(qs, idx);
    forall i | 0 <= i < |rem| ensures WellFormed(rem[i]) {
      if i >= idx { assert rem[(i + 1) - 1] == qs[i + 1]; }
    }
  }

  // ---------------------------------------------------------------- saving

  datatype FormError = TitleRequired | CourseRequired | IncompleteQuestions

  /** The notification text of a rejected save. */
  function ErrorText(e: FormError): (m: string)
    ensures m != ""
  {
    match e
    case TitleRequired => "Assessment title is required."
    case CourseRequired => "Please select a course for this assessment."
    case IncompleteQuestions => "All questions and options must be filled out."
  }

  /** The body sent to the server. */
  datatype SavePayload = SavePayload(title: string, courseId: Id, questions: Blob, maxScore: nat)

  datatype Validated = Valid(payload: SavePayload) | Rejected(error: FormError)

  /** A question whose text and every option are non-blank once trimmed. */
  predicate Complete(q: Question) {
    !IsBlank(q.text) && forall j :: 0 <= j < |q.options| ==> !IsBlank(q.options[j])
  }

  /** The checks of `handleSubmit`, in order, and the payload when all pass. */
  function Validate(title: string, courseId: Id, qs: seq<Question>): (v: Validated)
    ensures IsBlank(title) ==> v == Rejected(TitleRequired)
    ensures !IsBlank(title) && courseId == "" ==> v == Rejected(CourseRequired)
    ensures !IsBlank(title) && courseId != "" && (exists i :: 0 <= i < |qs| && !Complete(qs[i])) ==>
              v == Rejected(IncompleteQuestions)
    ensures v.Valid? <==> !IsBlank(title) && courseId != "" && forall i :: 0 <= i < |qs| ==> Complete(qs[i])
    ensures v.Valid? ==>
              v.payload.title == Trim(title) && v.payload.courseId == courseId &&
              Decode(v.payload.questions) == Some(qs) && v.payload.maxScore == |qs|
  {
    if IsBlank(title) then Rejected(TitleRequired)
    else if courseId == "" then Rejected(CourseRequired)
    else if exists i :: 0 <= i < |qs| && !Complete(qs[i]) then Rejected(IncompleteQuestions)
    else Valid(SavePayload(Trim(title), courseId, Encode(qs), |qs|))
  }

  /** A saved assessment's `maxScore` is the question count every reader of
      the stored questions computes, and its title is already trimmed. */
  lemma SavedMaxScoreAgrees(title: string, courseId: Id, qs: seq<Question>)
    requires Validate(title, courseId, qs).Valid?
    ensures var p := Validate(title, courseId, qs).payload;
            p.maxScore == GuardedCount(p.questions) && Trim(p.title) == p.title && p.title != ""
  {
    TrimIdempotent(title);
  }

  /** Where the save goes: `PUT /Assessment/{id}` when editing, `POST /Assessment` otherwise. */
  datatype Target = Create | Update(assessmentId: Id)

  /** A notification: its text, and whether it reports success. */
  datatype Notice = Notice(message: string, success: bool)

  /** How the save request ended: accepted, or rejected with the HTTP status
      when there was a response and the body's `message` ("" when missing). */
  datatype SaveReply = Saved | SaveFailed(status: Option<int>, bodyMessage: string)

  const SessionExpired := "Your session has expired. Please log in again."
  const SaveError := "Error saving assessment"

  /** The notification a finished save shows. */
  function SaveNotice(target: Target, reply: SaveReply): (n: Notice)
    ensures n.success <==> reply.Saved?
    ensures n.message != ""
    ensures reply.Saved? ==>
              n.message == (if target.Update? then "Assessment updated successfully!"
                            else "Assessment created successfully!")
    ensures reply.SaveFailed? && reply.status == Some(401) ==> n.message == SessionExpired
    ensures reply.SaveFailed? && reply.status != Some(401) ==>
              n.message == (if reply.bodyMessage != "" then reply.bodyMessage else SaveError)
  {
    match reply
    case Saved =>
      Notice(if target.Update? then "Assessment updated successfully!" else "Assessment created successfully!", true)
    case SaveFailed(status, body) =>
      if status == Some(401) then Notice(SessionExpired, false)
      else Notice(if body != "" then body else SaveError, false)
  }

  /** The editor's state. */
  class Form {
    const target: Target
    var title: string
    var courseId: Id
    var questions: seq<Question>
    var notification: Option<Notice>
    var loading: bool

    /** Opening the editor, for a new assessment or an existing one. */
    constructor (stored: Option<Assessment>)
      ensures target == (if stored.Some? then Update(stored.value.assessmentId) else Create)
      ensures title == (if stored.Some? then stored.value.title else "")
      ensures courseId == (if stored.Some? then stored.value.courseId else "")
      ensures questions == InitialQuestions(stored)
      ensures notification == None && !loading
    {
      target := if stored.Some? then Update(stored.value.assessmentId) else Create;
      title := if stored.Some? then stored.value.title else "";
      courseId := if stored.Some? then stored.value.courseId else "";
      questions := InitialQuestions(stored);
      notification := None;
      loading := false;
    }

    /** The effect on `courses`: the first course is preselected when none is. */
    method SelectDefaultCourse(courses: seq<Course>)
      modifies this
      ensures old(courseId) == "" && |courses| > 0 ==> courseId == courses[0].courseId
      ensures !(old(courseId) == "" && |courses| > 0) ==> courseId == old(courseId)
      ensures title == old(title) && questions == old(questions) && notification == old(notification)
      ensures loading == old(loading)
    {
      if courseId == "" && |courses| > 0 {
        courseId := courses[0].courseId;
      }
    }

    method ChangeText(idx: nat, text: string)
      requires idx < |questions|
      modifies this
      ensures questions == SetText(old(questions), idx, text)
      ensures title == old(title) && courseId == old(courseId) && notification == old(notification)
      ensures loading == old(loading)
    {
      questions := SetText(questions, idx, text);
    }

    method ChangeOption(qIdx: nat, optIdx: nat, value: string)
      requires qIdx < |questions| && optIdx < |questions[qIdx].options|
      modifies this
      ensures questions == SetOption(old(questions), qIdx, optIdx, value)
      ensures title == old(title) && courseId == old(courseId) && notification == old(notification)
      ensures loading == old(loading)
    {
      questions := SetOption(questions, qIdx, optIdx, value);
    }

    method ChangeCorrect(qIdx: nat, optIdx: nat)
      requires qIdx < |questions| && optIdx < |questions[qIdx].options|
      modifies this
      ensures questions == SetCorrect(old(questions), qIdx, optIdx)
      ensures title == old(title) && courseId == old(courseId) && notification == old(notification)
      ensures loading == old(loading)
    {
      questions := SetCorrect(questions, qIdx, optIdx);
    }

    method AddQuestion(idx: nat)
      modifies this
      ensures questions == InsertBlankAfter(old(questions), idx)
      ensures title == old(title) && courseId == old(courseId) && notification == old(notification)
      ensures loading == old(loading)
    {
      questions := InsertBlankAfter(questions, idx);
    }

    /** Reachable only through an enabled remove button. */
    method RemoveQuestion(idx: nat)
      requires RemoveEnabled(questions)
      modifies this
      ensures questions == RemoveAt(old(questions), idx)
      ensures idx < |old(questions)| ==> |questions| >= 1
      ensures title == old(title) && courseId == old(courseId) && notification == old(notification)
      ensures loading == old(loading)
    {
      questions := RemoveAt(questions, idx);
    }

    /** `handleSubmit` up to the request: a rejection sets its notification and
        sends nothing; otherwise the payload goes to the form's target. */
    method Submit() returns (sent: Option<(Target, SavePayload)>)
      modifies this
      ensures Validate(title, courseId, questions).Rejected? ==>
                && sent == None
                && notification == Some(Notice(ErrorText(Validate(title, courseId, questions).error), false))
                && loading == old(loading)
      ensures Validate(title, courseId, questions).Valid? ==>
                sent == Some((target, Validate(title, courseId, questions).payload)) &&
                notification == old(notification) && loading
      ensures title == old(title) && courseId == old(courseId) && questions == old(questions)
    {
      var v := Validate(title, courseId, questions);
      if v.Rejected? {
        notification := Some(Notice(ErrorText(v.error), false));
        sent := None;
      } else {
        loading := true;
        sent := Some((target, v.payload));
      }
    }

    /** The end of `handleSubmit` once the request settles: its notification,
        and the submit button enabled again. */
    method FinishSave(reply: SaveReply)
      modifies this
      ensures notification == Some(SaveNotice(target, reply)) && !loading
      ensures title == old(title) && courseId == old(courseId) && questions == old(questions)
    {
      notification := Some(SaveNotice(target, reply));
      loading := false;
    }
  }
}

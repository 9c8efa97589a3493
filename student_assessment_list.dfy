/** The student's assessment list and attempt flow: which assessments are
    listed, who may start one, the answer map, the answers collected for
    submission, and how the server's reply is shown. Grading itself happens on
    the server and is not part of this model. */
module StudentAssessmentList {

  import opened Common
  import opened Sequences
  import opened Questions
  import opened Catalog

  /** An element of `/CourseEnrollment/student/{userId}`. */
  datatype Enrollment = Enrollment(courseId: Id)

  predicate IsEnrolled(enrollments: seq<Enrollment>, courseId: Id) {
    exists e :: e in enrollments && e.courseId == courseId
  }

  function EnrolledIn(enrollments: seq<Enrollment>): Assessment -> bool {
    (a: Assessment) => IsEnrolled(enrollments, a.courseId)
  }

  /** The listed assessments: those of an enrolled course, in server order. */
  function ListedAssessments(assessments: seq<Assessment>, enrollments: seq<Enrollment>): (r: seq<Assessment>)
    ensures forall a :: a in r <==> a in assessments && IsEnrolled(enrollments, a.courseId)
  {
    forall a ensures a in Filter(assessments, EnrolledIn(enrollments)) <==> a in assessments && IsEnrolled(enrollments, a.courseId) {
      FilterMember(assessments, EnrolledIn(enrollments), a);
    }
    Filter(assessments, EnrolledIn(enrollments))
  }

  /** Filtering keeps the server's order: it distributes over concatenation. */
  lemma ListedKeepsOrder(s: seq<Assessment>, t: seq<Assessment>, enrollments: seq<Enrollment>)
    ensures ListedAssessments(s + t, enrollments) ==
            ListedAssessments(s, enrollments) + ListedAssessments(t, enrollments)
  {
    FilterAppend(s, t, EnrolledIn(enrollments));
  }

  /** `fetchData`: the enrollments, then the assessments; if either request
      fails both lists are empty. */
  function LoadList(enrolledRes: Fetched<seq<Enrollment>>, assessmentsRes: Fetched<seq<Assessment>>)
    : (st: (seq<Assessment>, seq<Enrollment>))
    ensures enrolledRes.Failed? || assessmentsRes.Failed? ==> st == ([], [])
    ensures enrolledRes.Ok? && assessmentsRes.Ok? ==>
              st == (ListedAssessments(assessmentsRes.data, enrolledRes.data), enrolledRes.data)
  {
    if enrolledRes.Failed? || assessmentsRes.Failed? then ([], [])
    else (ListedAssessments(assessmentsRes.data, enrolledRes.data), enrolledRes.data)
  }

  // ---------------------------------------------------------------- answers

  /** The outcome of turning the answer map into `selectedAnswers`. */
  datatype Collected = Collected(selectedAnswers: seq<int>) | Unanswered(questionNumber: nat)

  /** The loop of `handleSubmit`: one answer per question in order, stopping
      at the first question without one and naming it (counting from 1). */
  method CollectAnswers(answers: map<int, int>, questionCount: nat) returns (c: Collected)
    ensures c.Collected? <==> forall i :: 0 <= i < questionCount ==> i in answers
    ensures c.Collected? ==>
              (|c.selectedAnswers| == questionCount &&
               forall i :: 0 <= i < questionCount ==> c.selectedAnswers[i] == answers[i])
    ensures c.Unanswered? ==>
              (1 <= c.questionNumber <= questionCount &&
               c.questionNumber - 1 !in answers &&
               forall i :: 0 <= i < c.questionNumber - 1 ==> i in answers)
  {
    var selected: seq<int> := [];
    var i := 0;
    while i < questionCount
      invariant 0 <= i <= questionCount
      invariant |selected| == i
      invariant forall j :: 0 <= j < i ==> j in answers && selected[j] == answers[j]
    {
      if i !in answers {
        return Unanswered(i + 1);
      }
      selected := selected + [answers[i]];
      i := i + 1;
    }
    c := Collected(selected);
  }

  /** Whether the submit button is enabled: not loading and as many answers
      as questions. */
  predicate SubmitEnabled(loading: bool, answers: map<int, int>, questionCount: nat) {
    !loading && |answers| == questionCount
  }

  /** Keys come only from rendered questions, so a full answer count means
      every question is answered, and conversely. */
  lemma {:induction false} SubmitEnabledIffAllAnswered(answers: map<int, int>, questionCount: nat)
    requires forall k :: k in answers ==> 0 <= k < questionCount
    ensures SubmitEnabled(false, answers, questionCount) <==>
              forall i :: 0 <= i < questionCount ==> i in answers
  {
    var all := Below(questionCount);
    assert answers.Keys <= all;
    if |answers| == questionCount {
      forall i | 0 <= i < questionCount ensures i in answers {
        if i !in answers {
          SubsetSize(answers.Keys, all - {i});
        }
      }
    }
    if forall i :: 0 <= i < questionCount ==> i in answers {
      assert answers.Keys == all;
    }
  }

  /** The question indices `0 .. n-1`. */
  function Below(n: nat): (r: set<int>)
    ensures forall i :: i in r <==> 0 <= i < n
    ensures |r| == n
  {
    if n == 0 then {} else Below(n - 1) + {n - 1}
  }

  lemma {:induction false} SubsetSize(a: set<int>, b: set<int>)
    requires a <= b
    ensures |a| <= |b|
  {
    assert b == a + (b - a);
    assert a * (b - a) == {};
  }

  // ---------------------------------------------------------------- replies

  /** The server's grading reply as the component reads it. */
  datatype AttemptResponse = AttemptResponse(score: JsNumber, total: JsNumber, percentage: JsNumber, status: string)

  /** A rejected request: the HTTP response if there was one (`bodyText` is the
      body converted to a string and `bodyMessage` the body's message field, each
      "" when missing), whether a request was sent, and the error's own message. */
  datatype HttpResponse = HttpResponse(status: int, bodyText: string, bodyMessage: string)
  datatype RequestError = RequestError(response: Option<HttpResponse>, requestSent: bool, message: string)

  /** What posting the attempt produced: a reply body (possibly empty) or a
      rejected request. */
  datatype Reply = Replied(data: Option<AttemptResponse>) | Rejected(error: RequestError)

  /** The result card. */
  datatype AttemptOutcome = AttemptOutcome(score: JsNumber, total: JsNumber, percentage: JsNumber, passed: bool)

  const DefaultError := "Error submitting assessment. Please try again."
  const InvalidData := "Invalid data provided."
  const NotFound := "Assessment not found. Please refresh the page and try again."
  const NoResponse := "No response from server. Please check your connection."
  const NoData := "No response data received"

  /** The alert text for a failed submission. */
  function ErrorMessage(e: RequestError): (m: string)
    ensures m != ""
    ensures e.response.Some? && e.response.value.status == 400 ==>
              m == (if e.response.value.bodyText != "" then e.response.value.bodyText else InvalidData)
    ensures e.response.Some? && e.response.value.status == 404 ==> m == NotFound
    ensures e.response.Some? && e.response.value.status != 400 && e.response.value.status != 404 ==>
              m == (if e.response.value.bodyMessage != "" then e.response.value.bodyMessage else DefaultError)
    ensures e.response.None? && e.requestSent ==> m == NoResponse
    ensures e.response.None? && !e.requestSent ==> m == (if e.message != "" then e.message else DefaultError)
  {
    match e.response
    case Some(r) =>
      if r.status == 400 then (if r.bodyText != "" then r.bodyText else InvalidData)
      else if r.status == 404 then NotFound
      else if r.bodyMessage != "" then r.bodyMessage
      else DefaultError
    case None =>
      if e.requestSent then NoResponse
      else if e.message != "" then e.message
      else DefaultError
  }

  /** Precedence: a response decides the text whatever the request and the
      message say, and a sent request decides it whatever the message says. */
  lemma ErrorMessagePrecedence(r: HttpResponse, sent: bool, sent': bool, m: string, m': string)
    ensures ErrorMessage(RequestError(Some(r), sent, m)) == ErrorMessage(RequestError(Some(r), sent', m'))
    ensures ErrorMessage(RequestError(None, true, m)) == ErrorMessage(RequestError(None, true, m')) == NoResponse
  {
  }

  /** How the reply is taken: a body gives the result card, `passed` exactly
      when the status is "Passed"; an empty body or a rejection gives an alert. */
  function Interpret(reply: Reply): (r: Result)
    ensures reply.Replied? && reply.data.Some? ==>
              r == Shown(AttemptOutcome(reply.data.value.score, reply.data.value.total,
                                        reply.data.value.percentage, reply.data.value.status == "Passed"))
    ensures reply.Replied? && reply.data.None? ==> r == Alerted(NoData)
    ensures reply.Rejected? ==> r == Alerted(ErrorMessage(reply.error))
    ensures r.Shown? ==> (r.outcome.passed <==> reply.data.value.status == "Passed")
  {
    match reply
    case Replied(data) =>
      if data.Some? then
        Shown(AttemptOutcome(data.value.score, data.value.total, data.value.percentage, data.value.status == "Passed"))
      else Alerted(ErrorMessage(RequestError(None, false, NoData)))
    case Rejected(e) => Alerted(ErrorMessage(e))
  }

  datatype Result = Shown(outcome: AttemptOutcome) | Alerted(message: string)

  /** The body `handleSubmit` posts. */
  datatype Payload = Payload(assessmentId: Id, userId: Id, selectedAnswers: seq<int>)

  /** An alert the flow raises. */
  datatype Alert =
    | NoAssessmentSelected
    | NotEnrolled
    | LoadFailed
    | AnswerQuestion(number: nat)
    | SubmitFailed(message: string)

  /** The attempt view's state. */
  class AttemptView {
    const userId: Id
    var assessments: seq<Assessment>
    var enrolled: seq<Enrollment>
    var loading: bool
    var selected: Option<Assessment>
    var answers: map<int, int>
    var result: Option<AttemptOutcome>

    /** The number of questions of the open assessment. */
    function QuestionCount(): (n: nat)
      reads this
      ensures selected.None? ==> n == 0
      ensures selected.Some? && selected.value.questions.Encoded? ==> n == |selected.value.questions.questions|
    {
      if selected.Some? then GuardedCount(selected.value.questions) else 0
    }

    /** Every key of the answer map is the index of a rendered question. */
    ghost predicate AnswersInRange()
      reads this
    {
      forall k :: k in answers ==> 0 <= k < QuestionCount()
    }

    constructor (userId: Id)
      ensures this.userId == userId && assessments == [] && enrolled == [] && loading
      ensures selected == None && answers == map[] && result == None
      ensures AnswersInRange()
    {
      this.userId := userId;
      assessments, enrolled, loading := [], [], true;
      selected, answers, result := None, map[], None;
    }

    /** `fetchData` with both responses. */
    method FetchData(enrolledRes: Fetched<seq<Enrollment>>, assessmentsRes: Fetched<seq<Assessment>>)
      modifies this
      ensures (assessments, enrolled) == LoadList(enrolledRes, assessmentsRes)
      ensures !loading
      ensures selected == old(selected) && answers == old(answers) && result == old(result)
    {
      var st := LoadList(enrolledRes, assessmentsRes);
      assessments, enrolled := st.0, st.1;
      loading := false;
    }

    /** `handleAttempt`: refused unless the assessment's course is enrolled;
        otherwise the full assessment is fetched and the answers and result
        reset. */
    method HandleAttempt(a: Assessment, fetched: Fetched<Assessment>) returns (alert: Option<Alert>)
      modifies this
      ensures !IsEnrolled(old(enrolled), a.courseId) ==>
                alert == Some(NotEnrolled) && selected == old(selected) && answers == old(answers) && result == old(result)
      ensures IsEnrolled(old(enrolled), a.courseId) && fetched.Failed? ==>
                alert == Some(LoadFailed) && selected == old(selected) && answers == old(answers) && result == old(result)
      ensures IsEnrolled(old(enrolled), a.courseId) && fetched.Ok? ==>
                alert == None && selected == Some(fetched.data) && answers == map[] && result == None
      ensures assessments == old(assessments) && enrolled == old(enrolled) && loading == old(loading)
      ensures old(AnswersInRange()) ==> AnswersInRange()
    {
      if !IsEnrolled(enrolled, a.courseId) {
        return Some(NotEnrolled);
      }
      if fetched.Failed? {
        return Some(LoadFailed);
      }
      selected, answers, result := Some(fetched.data), map[], None;
      alert := None;
    }

    /** `handleAnswerSelect(q, o)`: answer `q` becomes `o`, whether or not it
        had one, and no other answer changes. */
    method SelectAnswer(q: int, o: int)
      modifies this
      ensures answers.Keys == old(answers).Keys + {q}
      ensures answers[q] == o
      ensures forall k :: k in old(answers) && k != q ==> answers[k] == old(answers)[k]
      ensures |answers| == |old(answers)| + (if q in old(answers) then 0 else 1)
      ensures selected == old(selected) && result == old(result) && loading == old(loading)
      ensures assessments == old(assessments) && enrolled == old(enrolled)
      ensures old(AnswersInRange()) && 0 <= q < QuestionCount() ==> AnswersInRange()
    {
      answers := answers[q := o];
    }

    /** `handleSubmit` with the server's reply. The view has already parsed
        the open assessment's questions when it rendered them, so they parse. */
    method HandleSubmit(reply: Reply) returns (posted: Option<Payload>, alert: Option<Alert>, completed: bool)
      requires selected.Some? ==> selected.value.questions.Encoded?
      modifies this
      ensures selected.None? ==> posted == None && alert == Some(NoAssessmentSelected)
      ensures alert.Some? && alert.value.AnswerQuestion? ==> posted == None
      ensures posted.Some? ==>
                && old(selected).Some?
                && posted.value.assessmentId == old(selected).value.assessmentId
                && posted.value.userId == userId
                && |posted.value.selectedAnswers| == old(QuestionCount())
                && forall i :: 0 <= i < old(QuestionCount()) ==>
                     i in old(answers) && posted.value.selectedAnswers[i] == old(answers)[i]
      ensures old(selected).Some? && posted.None? ==>
                alert.Some? && alert.value.AnswerQuestion? &&
                1 <= alert.value.number <= old(QuestionCount()) && alert.value.number - 1 !in old(answers) &&
                forall i :: 0 <= i < alert.value.number - 1 ==> i in old(answers)
      ensures completed <==> posted.Some? && Interpret(reply).Shown?
      ensures posted.Some? && Interpret(reply).Shown? ==>
                alert == None && result == Some(Interpret(reply).outcome) && answers == map[]
      ensures posted.Some? && Interpret(reply).Alerted? ==>
                alert == Some(SubmitFailed(Interpret(reply).message)) &&
                result == old(result) && answers == old(answers)
      ensures posted.None? ==> result == old(result) && answers == old(answers)
      ensures selected == old(selected) && assessments == old(assessments) && enrolled == old(enrolled)
      ensures old(selected).Some? ==> !loading
      ensures old(selected).None? ==> loading == old(loading)
      ensures old(AnswersInRange()) ==> AnswersInRange()
    {
      if selected.None? {
        return None, Some(NoAssessmentSelected), false;
      }
      loading := true;
      var collected := CollectAnswers(answers, GuardedCount(selected.value.questions));
      if collected.Unanswered? {
        loading := false;
        return None, Some(AnswerQuestion(collected.questionNumber)), false;
      }
      posted := Some(Payload(selected.value.assessmentId, userId, collected.selectedAnswers));
      loading := false;
      match Interpret(reply)
      case Shown(outcome) =>
        result := Some(outcome);
        answers := map[];
        alert := None;
        completed := true;
      case Alerted(message) =>
        alert := Some(SubmitFailed(message));
        completed := false;
    }
  }
}

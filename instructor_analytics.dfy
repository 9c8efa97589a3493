/** The instructor analytics view: the data it scopes to one instructor, the four
    overall figures, the per-assessment statistics and the two chart series. */
module InstructorAnalytics {

  import opened Common
  import opened JsMath
  import opened Sequences
  import opened Questions
  import opened Catalog

  /** An element of the enrollment-analytics response: one course and, when the
      server sent it, the list of its enrolled students. */
  datatype EnrolledStudent = EnrolledStudent(studentId: Id)
  datatype CourseEnrollments = CourseEnrollments(enrolledStudents: Option<seq<EnrolledStudent>>)

  /** The four overall figures. `averageScore` is kept in hundredths. */
  datatype OverallStats = OverallStats(totalStudents: nat, averageScoreHundredths: int,
                                       completionRate: int, assessmentsTaken: nat)

  const ZeroStats := OverallStats(0, 0, 0, 0)

  /** The component state `fetchData` leaves behind. */
  datatype Analytics = Analytics(courses: seq<Course>, assessments: seq<Assessment>,
                                 results: seq<AttemptRecord>, overall: OverallStats)

  // ---------------------------------------------------------------- scoping

  function OwnedBy(userId: Id): Course -> bool {
    (c: Course) => c.instructorId == userId
  }

  predicate HasCourse(courses: seq<Course>, courseId: Id) {
    exists c :: c in courses && c.courseId == courseId
  }

  function InCourses(courses: seq<Course>): Assessment -> bool {
    (a: Assessment) => HasCourse(courses, a.courseId)
  }

  predicate HasAssessment(assessments: seq<Assessment>, assessmentId: Id) {
    exists a :: a in assessments && a.assessmentId == assessmentId
  }

  function InAssessments(assessments: seq<Assessment>): AttemptRecord -> bool {
    (r: AttemptRecord) => HasAssessment(assessments, r.assessmentId)
  }

  /** The courses the instructor created. */
  function InstructorCourses(courses: seq<Course>, userId: Id): (kept: seq<Course>)
    ensures forall i :: 0 <= i < |kept| ==> kept[i] in courses && kept[i].instructorId == userId
    ensures forall i :: 0 <= i < |courses| && courses[i].instructorId == userId ==> courses[i] in kept
  {
    Filter(courses, OwnedBy(userId))
  }

  /** The assessments that belong to one of `kept`. */
  function InstructorAssessments(assessments: seq<Assessment>, kept: seq<Course>): (r: seq<Assessment>)
    ensures forall i :: 0 <= i < |r| ==> r[i] in assessments && HasCourse(kept, r[i].courseId)
    ensures forall i :: 0 <= i < |assessments| && HasCourse(kept, assessments[i].courseId) ==> assessments[i] in r
  {
    Filter(assessments, InCourses(kept))
  }

  /** The results of one of `kept`. */
  function InstructorResults(results: seq<AttemptRecord>, kept: seq<Assessment>): (r: seq<AttemptRecord>)
    ensures forall i :: 0 <= i < |r| ==> r[i] in results && HasAssessment(kept, r[i].assessmentId)
    ensures forall i :: 0 <= i < |results| && HasAssessment(kept, results[i].assessmentId) ==> results[i] in r
  {
    Filter(results, InAssessments(kept))
  }

  /** A result survives the three filters exactly when it belongs to an
      assessment of a course the instructor owns. */
  lemma {:induction false} ScopedResultIff(userId: Id, courses: seq<Course>, assessments: seq<Assessment>,
                                           results: seq<AttemptRecord>, r: AttemptRecord)
    ensures var kc := InstructorCourses(courses, userId);
            var ka := InstructorAssessments(assessments, kc);
            r in InstructorResults(results, ka) <==>
              r in results &&
              exists a, c :: a in assessments && c in courses && a.assessmentId == r.assessmentId &&
                             a.courseId == c.courseId && c.instructorId == userId
  {
    var kc := InstructorCourses(courses, userId);
    var ka := InstructorAssessments(assessments, kc);
    FilterMember(results, InAssessments(ka), r);
    forall a | a in assessments
      ensures a in ka <==> HasCourse(kc, a.courseId)
    {
      FilterMember(assessments, InCourses(kc), a);
    }
    forall c | c in courses
      ensures c in kc <==> c.instructorId == userId
    {
      FilterMember(courses, OwnedBy(userId), c);
    }
  }

  /** Scoping keeps the server's order: it distributes over concatenation of
      the input lists. */
  lemma ScopingKeepsOrder(userId: Id, c1: seq<Course>, c2: seq<Course>,
                          a1: seq<Assessment>, a2: seq<Assessment>, kept: seq<Course>,
                          r1: seq<AttemptRecord>, r2: seq<AttemptRecord>, keptA: seq<Assessment>)
    ensures InstructorCourses(c1 + c2, userId) == InstructorCourses(c1, userId) + InstructorCourses(c2, userId)
    ensures InstructorAssessments(a1 + a2, kept) == InstructorAssessments(a1, kept) + InstructorAssessments(a2, kept)
    ensures InstructorResults(r1 + r2, keptA) == InstructorResults(r1, keptA) + InstructorResults(r2, keptA)
  {
    FilterAppend(c1, c2, OwnedBy(userId));
    FilterAppend(a1, a2, InCourses(kept));
    FilterAppend(r1, r2, InAssessments(keptA));
  }

  // ---------------------------------------------------------------- students

  /** The student ids a course entry lists, in order; none when the entry has
      no student list. */
  function ListedIds(e: CourseEnrollments): (ids: seq<Id>)
    ensures e.enrolledStudents.None? ==> ids == []
    ensures e.enrolledStudents.Some? ==>
              |ids| == |e.enrolledStudents.value| &&
              forall j :: 0 <= j < |ids| ==> ids[j] == e.enrolledStudents.value[j].studentId
  {
    match e.enrolledStudents
    case None => []
    case Some(students) => seq(|students|, j requires 0 <= j < |students| => students[j].studentId)
  }

  /** The `flatMap` of every course's listed student ids. */
  function AllListedIds(data: seq<CourseEnrollments>): (ids: seq<Id>)
    ensures forall id :: id in ids <==> exists k :: 0 <= k < |data| && id in ListedIds(data[k])
  {
    if data == [] then []
    else
      var rest := AllListedIds(data[1..]);
      assert forall k :: 1 <= k < |data| ==> data[k] == data[1..][k - 1];
      ListedIds(data[0]) + rest
  }

  /** The number of distinct student ids listed across all course entries of
      the response: 0 exactly when no entry lists anyone. */
  function TotalStudents(data: seq<CourseEnrollments>): (n: nat)
    ensures n == 0 <==> AllListedIds(data) == []
  {
    DistinctEmpty(AllListedIds(data));
    |set id | id in AllListedIds(data)|
  }

  lemma DistinctEmpty(ids: seq<Id>)
    ensures |set id | id in ids| == 0 <==> ids == []
  {
    if ids != [] {
      var distinct := set id | id in ids;
      assert ids[0] in distinct;
      assert distinct != {};
    }
  }

  /** A student enrolled in several courses is counted once, and no more
      students are counted than listed entries. */
  lemma {:induction false} TotalStudentsBound(data: seq<CourseEnrollments>)
    ensures TotalStudents(data) <= |AllListedIds(data)|
  {
    DistinctBound(AllListedIds(data));
  }

  lemma {:induction false} DistinctBound(ids: seq<Id>)
    ensures |set id | id in ids| <= |ids|
  {
    if ids != [] {
      DistinctBound(ids[1..]);
      assert (set id | id in ids) == (set id | id in ids[1..]) + {ids[0]};
    }
  }

  /** A course entry without an `enrolledStudents` list contributes nothing,
      and one listing already-counted students adds nobody. */
  lemma {:induction false} TotalStudentsIgnoresRepeats(data: seq<CourseEnrollments>, e: CourseEnrollments)
    requires forall id :: id in ListedIds(e) ==> id in AllListedIds(data)
    ensures TotalStudents(data + [e]) == TotalStudents(data)
  {
    ListedIdsAppend(data, [e]);
    assert AllListedIds([e]) == ListedIds(e) + AllListedIds([e][1..]);
    assert [e][1..] == [];
    assert (set id | id in AllListedIds(data + [e])) == (set id | id in AllListedIds(data));
  }

  /** The listed ids of two responses put together are the two lists of ids
      put together. */
  lemma {:induction false} ListedIdsAppend(a: seq<CourseEnrollments>, b: seq<CourseEnrollments>)
    ensures AllListedIds(a + b) == AllListedIds(a) + AllListedIds(b)
  {
    if a == [] {
      assert a + b == b;
    } else {
      assert (a + b)[0] == a[0] && (a + b)[1..] == a[1..] + b;
      ListedIdsAppend(a[1..], b);
    }
  }

  // ---------------------------------------------------------------- scores

  /** The sum of the results' scores, where a score that is not a finite
      number adds nothing. */
  function TotalScore(rs: seq<AttemptRecord>): (t: int)
    ensures (forall i :: 0 <= i < |rs| ==> !rs[i].score.Finite?) ==> t == 0
    ensures (forall i :: 0 <= i < |rs| ==> FiniteOrZero(rs[i].score) >= 0) ==> t >= 0
  {
    if rs == [] then 0 else FiniteOrZero(rs[0].score) + TotalScore(rs[1..])
  }

  /** Every attempt adds its own score; repeat attempts are not merged. */
  lemma {:induction false} TotalScoreAppend(a: seq<AttemptRecord>, b: seq<AttemptRecord>)
    ensures TotalScore(a + b) == TotalScore(a) + TotalScore(b)
  {
    if a != [] {
      assert (a + b)[0] == a[0] && (a + b)[1..] == a[1..] + b;
      TotalScoreAppend(a[1..], b);
    } else {
      assert a + b == b;
    }
  }

  /** Scores between 0 and `m` sum to between 0 and `m` per attempt. */
  lemma {:induction false} TotalScoreBounds(rs: seq<AttemptRecord>, m: int)
    requires forall i :: 0 <= i < |rs| ==> 0 <= FiniteOrZero(rs[i].score) <= m
    ensures 0 <= TotalScore(rs) <= m * |rs|
  {
    if rs != [] {
      TotalScoreBounds(rs[1..], m);
      assert m * |rs| == m + m * |rs[1..]|;
    }
  }

  // ---------------------------------------------------------------- overall

  /** The overall figures of `fetchData` from the scoped assessments and results. */
  function Overall(assessments: seq<Assessment>, results: seq<AttemptRecord>,
                   enrollmentData: seq<CourseEnrollments>): (o: OverallStats)
    ensures o.totalStudents == TotalStudents(enrollmentData)
    ensures o.assessmentsTaken == |results|
    ensures results == [] ==> o.averageScoreHundredths == 0
    ensures results != [] ==> o.averageScoreHundredths == Percent(TotalScore(results), |results|)
    ensures o.totalStudents * |assessments| == 0 ==> o.completionRate == 0
    ensures o.totalStudents * |assessments| > 0 ==>
              o.completionRate == Percent(|results|, o.totalStudents * |assessments|)
  {
    var students := TotalStudents(enrollmentData);
    var attempts := |results|;
    var average := if attempts > 0 then RoundRatio(100 * TotalScore(results), attempts) else 0;
    var possible := students * |assessments|;
    var completion := if possible > 0 then RoundRatio(100 * attempts, possible) else 0;
    OverallStats(students, average, completion, attempts)
  }

  /** `fetchData`: all four requests must succeed; any failure empties the
      three lists and zeroes the figures. A missing enrollment body counts as an
      empty list. */
  function FetchData(userId: Id, resultsRes: Fetched<seq<AttemptRecord>>, assessmentsRes: Fetched<seq<Assessment>>,
                     coursesRes: Fetched<seq<Course>>,
                     enrollmentsRes: Fetched<Option<seq<CourseEnrollments>>>): (st: Analytics)
    ensures (resultsRes.Failed? || assessmentsRes.Failed? || coursesRes.Failed? || enrollmentsRes.Failed?) ==>
              st == Analytics([], [], [], ZeroStats)
    ensures (resultsRes.Ok? && assessmentsRes.Ok? && coursesRes.Ok? && enrollmentsRes.Ok?) ==>
              && st.courses == InstructorCourses(coursesRes.data, userId)
              && st.assessments == InstructorAssessments(assessmentsRes.data, st.courses)
              && st.results == InstructorResults(resultsRes.data, st.assessments)
              && st.overall == Overall(st.assessments, st.results,
                                       if enrollmentsRes.data.Some? then enrollmentsRes.data.value else [])
  {
    if resultsRes.Failed? || assessmentsRes.Failed? || coursesRes.Failed? || enrollmentsRes.Failed? then
      Analytics([], [], [], ZeroStats)
    else
      var courses := InstructorCourses(coursesRes.data, userId);
      var assessments := InstructorAssessments(assessmentsRes.data, courses);
      var results := InstructorResults(resultsRes.data, assessments);
      var enrollmentData := if enrollmentsRes.data.Some? then enrollmentsRes.data.value else [];
      Analytics(courses, assessments, results, Overall(assessments, results, enrollmentData))
  }

  /** The average stays within the score range: with scores between 0 and `m`
      the average, in hundredths, is between 0 and 100 * m. */
  lemma {:induction false} AverageScoreBounds(assessments: seq<Assessment>, results: seq<AttemptRecord>,
                                              enrollmentData: seq<CourseEnrollments>, m: nat)
    requires forall i :: 0 <= i < |results| ==> 0 <= FiniteOrZero(results[i].score) <= m
    ensures 0 <= Overall(assessments, results, enrollmentData).averageScoreHundredths <= 100 * m
  {
    if results != [] {
      TotalScoreBounds(results, m);
      PercentScaledBounds(TotalScore(results), |results|, m);
    }
  }

  /** The completion rate is a percentage as long as there are no more
      attempts than (student, assessment) pairs; no division by zero occurs. */
  lemma CompletionRateBounds(assessments: seq<Assessment>, results: seq<AttemptRecord>,
                             enrollmentData: seq<CourseEnrollments>)
    requires |results| <= TotalStudents(enrollmentData) * |assessments|
    ensures 0 <= Overall(assessments, results, enrollmentData).completionRate <= 100
  {
    var possible := TotalStudents(enrollmentData) * |assessments|;
    if possible > 0 {
      PercentBounds(|results|, possible);
    }
  }

  /** Repeat attempts count, so the completion rate is not capped at 100:
      one student and one assessment attempted three times gives 300. */
  lemma RepeatAttemptsExceedFullCompletion(a: Assessment, r: AttemptRecord, sid: Id)
    ensures Overall([a], [r, r, r], [CourseEnrollments(Some([EnrolledStudent(sid)]))]).completionRate == 300
  {
    var data := [CourseEnrollments(Some([EnrolledStudent(sid)]))];
    assert AllListedIds(data) == [sid];
    assert (set id | id in [sid]) == {sid};
  }

  /** One course, one four-question assessment, two enrolled students who
      scored 3 and 2: two students, an average of 2.50, two attempts and a
      completion rate of 100. */
  lemma TwoStudentScenario(a: Assessment, r1: AttemptRecord, r2: AttemptRecord, s1: Id, s2: Id)
    requires s1 != s2 && r1.score == Finite(3) && r2.score == Finite(2)
    ensures Overall([a], [r1, r2], [CourseEnrollments(Some([EnrolledStudent(s1), EnrolledStudent(s2)]))])
            == OverallStats(2, 250, 100, 2)
  {
    var data := [CourseEnrollments(Some([EnrolledStudent(s1), EnrolledStudent(s2)]))];
    assert AllListedIds(data) == [s1, s2];
    assert (set id | id in [s1, s2]) == {s1, s2};
    assert [r1, r2][1..] == [r2] && [r2][1..] == [];
    assert TotalScore([r2]) == 2 + TotalScore([]);
  }

  // ---------------------------------------------------------------- per assessment

  /** What `getAssessmentStats` returns; `avgScore.toFixed(1)` is kept in tenths. */
  datatype AssessmentStats = AssessmentStats(totalAttempts: nat, avgScoreTenths: int,
                                             maxScore: nat, avgPercentage: int)

  function ForAssessment(id: Id): AttemptRecord -> bool {
    (r: AttemptRecord) => r.assessmentId == id
  }

  function WithId(id: Id): Assessment -> bool {
    (a: Assessment) => a.assessmentId == id
  }

  /** `maxScore` of `getAssessmentStats`: the question count of the first
      assessment with this id, 0 when there is none, its questions are falsy, or
      they do not parse. */
  function MaxScoreOf(assessments: seq<Assessment>, id: Id): (m: nat)
    ensures Find(assessments, WithId(id)).None? ==> m == 0
    ensures Find(assessments, WithId(id)).Some? ==> m == GuardedCount(Find(assessments, WithId(id)).value.questions)
  {
    match Find(assessments, WithId(id))
    case None => 0
    case Some(a) => GuardedCount(a.questions)
  }

  /** `avgPercentage`: the average score over the question count as a rounded
      percentage, 0 when the assessment has no questions. */
  function AveragePercent(total: int, attempts: nat, maxScore: nat): (p: int)
    requires attempts > 0
    ensures maxScore == 0 ==> p == 0
    ensures maxScore > 0 ==> p == Percent(total, attempts * maxScore)
  {
    if maxScore > 0 then Percent(total, attempts * maxScore) else 0
  }

  /** `getAssessmentStats(id)` over the component's scoped results and assessments. */
  function GetAssessmentStats(id: Id, results: seq<AttemptRecord>, assessments: seq<Assessment>)
    : (st: Option<AssessmentStats>)
    ensures st.None? <==> forall i :: 0 <= i < |results| ==> results[i].assessmentId != id
    ensures st.Some? ==> st.value.totalAttempts == CountWhere(results, ForAssessment(id)) > 0
    ensures st.Some? ==> st.value.maxScore == MaxScoreOf(assessments, id)
    ensures st.Some? ==>
              st.value.avgScoreTenths == TenthsToFixed(TotalScore(Filter(results, ForAssessment(id))), st.value.totalAttempts)
    ensures st.Some? ==>
              st.value.avgPercentage == AveragePercent(TotalScore(Filter(results, ForAssessment(id))),
                                                       st.value.totalAttempts, st.value.maxScore)
  {
    var attempts := CountWhere(results, ForAssessment(id));
    if attempts == 0 then None
    else
      var total := TotalScore(Filter(results, ForAssessment(id)));
      var maxScore := MaxScoreOf(assessments, id);
      Some(AssessmentStats(attempts, TenthsToFixed(total, attempts), maxScore, AveragePercent(total, attempts, maxScore)))
  }

  /** When every attempt at the assessment scored between 0 and its question
      count, the average percentage is between 0 and 100. */
  lemma {:induction false} AssessmentPercentageBounds(id: Id, results: seq<AttemptRecord>, assessments: seq<Assessment>)
    requires MaxScoreOf(assessments, id) > 0 ==>
               forall i :: 0 <= i < |results| && results[i].assessmentId == id ==>
                 0 <= FiniteOrZero(results[i].score) <= MaxScoreOf(assessments, id)
    ensures var st := GetAssessmentStats(id, results, assessments);
            st.Some? ==> 0 <= st.value.avgPercentage <= 100
  {
    var st := GetAssessmentStats(id, results, assessments);
    if st.Some? && st.value.maxScore > 0 {
      var mine := Filter(results, ForAssessment(id));
      var m := st.value.maxScore;
      forall i | 0 <= i < |mine| ensures 0 <= FiniteOrZero(mine[i].score) <= m {
        assert mine[i] in results;
      }
      TotalScoreBounds(mine, m);
      assert m * |mine| == |mine| * m;
      PercentBounds(TotalScore(mine), |mine| * m);
    }
  }

  // ---------------------------------------------------------------- charts

  /** A chart: one label and one value per bar or point. */
  datatype Series = Series(labels: seq<string>, data: seq<int>)

  /** A chart label: the title, or the fallback text when the title is empty. */
  function TitleOr(title: string, fallback: string): (t: string)
    requires fallback != ""
    ensures t != ""
    ensures title != "" ==> t == title
    ensures title == "" ==> t == fallback
  {
    if title == "" then fallback else title
  }

  /** One bar of the performance chart: the assessment's average percentage,
      0 when it has no results. */
  function ChartValue(id: Id, results: seq<AttemptRecord>, assessments: seq<Assessment>): (v: int)
    ensures (forall i :: 0 <= i < |results| ==> results[i].assessmentId != id) ==> v == 0
    ensures GetAssessmentStats(id, results, assessments).Some? ==>
              v == GetAssessmentStats(id, results, assessments).value.avgPercentage
  {
    match GetAssessmentStats(id, results, assessments)
    case None => 0
    case Some(st) => st.avgPercentage
  }

  /** `getPerformanceChartData`: one bar per scoped assessment, in order. */
  function PerformanceChartData(assessments: seq<Assessment>, results: seq<AttemptRecord>): (c: Series)
    ensures |c.labels| == |assessments| && |c.data| == |assessments|
    ensures forall i :: 0 <= i < |assessments| ==>
              c.labels[i] == TitleOr(assessments[i].title, "Untitled Assessment") &&
              c.data[i] == ChartValue(assessments[i].assessmentId, results, assessments)
  {
    Series(seq(|assessments|, i requires 0 <= i < |assessments| => TitleOr(assessments[i].title, "Untitled Assessment")),
           seq(|assessments|, i requires 0 <= i < |assessments| => ChartValue(assessments[i].assessmentId, results, assessments)))
  }

  /** Every bar of the performance chart is a percentage once every attempt's
      score lies between 0 and its assessment's question count. */
  lemma PerformanceChartBounds(assessments: seq<Assessment>, results: seq<AttemptRecord>)
    requires forall i :: 0 <= i < |results| && MaxScoreOf(assessments, results[i].assessmentId) > 0 ==>
               0 <= FiniteOrZero(results[i].score) <= MaxScoreOf(assessments, results[i].assessmentId)
    ensures forall v :: v in PerformanceChartData(assessments, results).data ==> 0 <= v <= 100
  {
    var c := PerformanceChartData(assessments, results);
    forall k | 0 <= k < |assessments|
      ensures 0 <= c.data[k] <= 100
    {
      AssessmentPercentageBounds(assessments[k].assessmentId, results, assessments);
    }
  }

  function OfCourse(courseId: Id): Assessment -> bool {
    (a: Assessment) => a.courseId == courseId
  }

  /** The number of scoped results belonging to an assessment of this course. */
  function CourseAttempts(courseId: Id, assessments: seq<Assessment>, results: seq<AttemptRecord>): (n: nat)
    ensures n <= |results|
    ensures n == 0 <==>
              forall i, a :: 0 <= i < |results| && a in assessments && a.courseId == courseId ==>
                a.assessmentId != results[i].assessmentId
  {
    var ofCourse := Filter(assessments, OfCourse(courseId));
    assert forall a :: a in ofCourse <==> a in assessments && a.courseId == courseId;
    CountWhere(results, InAssessments(ofCourse))
  }

  /** One point of `getCompletionRateData`: the course's attempts against its
      assessments times `overallStats.totalStudents`, 0 on a zero denominator. */
  function CourseCompletion(courseId: Id, assessments: seq<Assessment>, results: seq<AttemptRecord>,
                            totalStudents: nat): (rate: int)
    ensures var possible := CountWhere(assessments, OfCourse(courseId)) * totalStudents;
            (possible == 0 ==> rate == 0) &&
            (possible > 0 ==> rate == Percent(CourseAttempts(courseId, assessments, results), possible))
  {
    var possible := |Filter(assessments, OfCourse(courseId))| * totalStudents;
    if possible > 0 then RoundRatio(100 * CourseAttempts(courseId, assessments, results), possible) else 0
  }

  /** A course's completion rate is a percentage while its attempts do not
      outnumber its (student, assessment) pairs. */
  lemma CourseCompletionBounds(courseId: Id, assessments: seq<Assessment>, results: seq<AttemptRecord>,
                               totalStudents: nat)
    requires CourseAttempts(courseId, assessments, results) <= CountWhere(assessments, OfCourse(courseId)) * totalStudents
    ensures 0 <= CourseCompletion(courseId, assessments, results, totalStudents) <= 100
  {
    var possible := CountWhere(assessments, OfCourse(courseId)) * totalStudents;
    if possible > 0 {
      PercentBounds(CourseAttempts(courseId, assessments, results), possible);
    }
  }

  /** `getCompletionRateData`: one point per scoped course, in order. */
  function CompletionRateData(courses: seq<Course>, assessments: seq<Assessment>, results: seq<AttemptRecord>,
                              totalStudents: nat): (c: Series)
    ensures |c.labels| == |courses| && |c.data| == |courses|
    ensures forall i :: 0 <= i < |courses| ==>
              c.labels[i] == TitleOr(courses[i].title, "Untitled Course") &&
              c.data[i] == CourseCompletion(courses[i].courseId, assessments, results, totalStudents)
  {
    Series(seq(|courses|, i requires 0 <= i < |courses| => TitleOr(courses[i].title, "Untitled Course")),
           seq(|courses|, i requires 0 <= i < |courses| => CourseCompletion(courses[i].courseId, assessments, results, totalStudents)))
  }

  // ---------------------------------------------------------------- detail modal

  /** One row of the detailed-results table. */
  datatype DetailRow = DetailRow(resultId: Id, score: JsNumber, maxScore: nat, percentage: JsNumber)

  /** The modal parses the assessment's questions without a `try`: rendering
      it is defined only when they are falsy or parse. */
  predicate ModalRenders(assessments: seq<Assessment>, id: Id) {
    var found := Find(assessments, WithId(id));
    found.None? || !found.value.questions.Malformed?
  }

  /** The per-result percentage of the modal: 0 when the assessment has no
      questions, otherwise the score over the question count, rounded. */
  function ModalPercentage(score: JsNumber, maxScore: nat): (p: JsNumber)
    ensures maxScore == 0 ==> p == Finite(0)
    ensures maxScore > 0 ==> p == UnguardedPercent(score, maxScore)
  {
    if maxScore > 0 then UnguardedPercent(score, maxScore) else Finite(0)
  }

  /** The rows of the detailed-results modal for the selected assessment. */
  function DetailRows(id: Id, results: seq<AttemptRecord>, assessments: seq<Assessment>): (rows: seq<DetailRow>)
    requires ModalRenders(assessments, id)
    ensures var mine := Filter(results, ForAssessment(id));
            |rows| == |mine| &&
            forall i :: 0 <= i < |rows| ==>
              && rows[i].resultId == mine[i].resultId
              && rows[i].score == mine[i].score
              && rows[i].maxScore == MaxScoreOf(assessments, id)
              && rows[i].percentage == ModalPercentage(mine[i].score, rows[i].maxScore)
  {
    var mine := Filter(results, ForAssessment(id));
    var maxScore := MaxScoreOf(assessments, id);
    seq(|mine|, i requires 0 <= i < |mine| =>
      DetailRow(mine[i].resultId, mine[i].score, maxScore, ModalPercentage(mine[i].score, maxScore)))
  }
}

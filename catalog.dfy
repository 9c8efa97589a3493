/** The records the components receive from the REST endpoints. */
module Catalog {

  import opened Common
  import opened Questions

  /** An element of `/Course`. */
  datatype Course = Course(courseId: Id, instructorId: Id, title: string)

  /** An element of `/Assessment`. */
  datatype Assessment = Assessment(assessmentId: Id, courseId: Id, title: string, questions: Blob)

  /** An element of `/Result`: one attempt. `attemptDate` is an opaque timestamp. */
  datatype AttemptRecord = AttemptRecord(resultId: Id, assessmentId: Id, userId: Id, score: JsNumber, attemptDate: int)
}

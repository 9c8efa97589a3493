/** The multiple-choice question set and its stored encoding. The encoding is
    abstract: `JSON.stringify` / `JSON.parse` are library calls, so a stored
    `questions` field is modelled by what parsing it yields, not by its syntax. */
module Questions {

  import opened Common

  /** One question as the components read it: `question`, `options`, `correctIndex`. */
  datatype Question = Question(text: string, options: seq<string>, correctIndex: int)

  /** The `questions` field of an assessment:
      Absent    -- a falsy value (null, undefined or the empty string);
      Malformed -- a string on which `JSON.parse` throws;
      Encoded   -- a string that parses to this list of questions. */
  datatype Blob = Absent | Malformed | Encoded(questions: seq<Question>)

  /** What `JSON.stringify` makes of a question list. */
  function Encode(qs: seq<Question>): (b: Blob)
    ensures Decode(b) == Some(qs)
  {
    Encoded(qs)
  }

  /** What `JSON.parse` yields where it does not throw. */
  function Decode(b: Blob): (r: Option<seq<Question>>)
    ensures r.Some? <==> b.Encoded?
  {
    if b.Encoded? then Some(b.questions) else None
  }

  /** The question count as the guarded readers compute it: the length of the
      parsed list, and 0 when the field is falsy or parsing fails. */
  function GuardedCount(b: Blob): (n: nat)
    ensures Decode(b).Some? ==> n == |Decode(b).value|
    ensures Decode(b).None? ==> n == 0
  {
    if b.Encoded? then |b.questions| else 0
  }

  /** The question a blank form row and `addQuestion` start from: no text,
      four empty options, the first one marked correct. */
  function Blank(): (q: Question)
    ensures q.text == "" && q.options == ["", "", "", ""] && q.correctIndex == 0
  {
    Question("", ["", "", "", ""], 0)
  }

  /** The invariant a question's correct index should keep: it names a real option. */
  predicate WellFormed(q: Question) {
    0 <= q.correctIndex < |q.options|
  }
}

/** The document-store entities (src/models.rs) and the shared, mutable
    configuration cell that the master-data, rating and save screens edit. */
module Models {
  import opened Common

  datatype Question = Question(id: U32, name: string, fullScore: U32, weight: real, comment: string)

  datatype Student = Student(id: string, name: string)

  /** One grading cell; `score == None` means "not graded yet". */
  datatype Score = Score(studentId: string, questionId: U32, score: Option<U32>)

  /** A rating bucket (`label`, `min_score`): scores at or above `minScore` fall into it. */
  datatype Rating = Rating(labelText: string, minScore: U32)

  /** The whole snapshot, as serialized to a JSON file. */
  datatype Config = Config(
    questions: seq<Question>,
    students: seq<Student>,
    scores: seq<Score>,
    ratings: seq<Rating>,
    savePath: Option<string>)

  /** One row of the results table: the score strings per question and the
      final percentage, `None` where the screen shows an empty cell. */
  datatype TableRow = TableRow(studentId: string, studentName: string, scores: seq<string>, finalDisplay: Option<real>)

  /** The category serde_json attaches to a parse error. */
  datatype JsonCategory = Io | Syntax | Data | Eof

  /** A failed parse: its category, 1-based line and column (0 when unknown)
      and the error's own display text. */
  datatype JsonError = JsonError(category: JsonCategory, line: nat, column: nat, display: string)

  /** The reactive `Signal<Config>` shared by the screens: one mutable cell. */
  class ConfigSignal {
    var value: Config

    constructor (init: Config)
      ensures value == init
    {
      value := init;
    }
  }
}

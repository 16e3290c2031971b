/** Rows and values of the query engine.  Values are integers, booleans and NULL; a row is a
    sequence of them.  Evaluation can fail, which `Result` makes explicit. */
module Values {

  datatype Value = Null | Bool(b: bool) | Int(n: int)

  type Row = seq<Value>

  /** A column of a schema: the table it comes from and its name. */
  datatype Column = Column(source: string, name: string)

  type Schema = seq<Column>

  datatype Option<+T> = None | Some(value: T)

  datatype Result<+T> = Ok(value: T) | Err {
    predicate IsFailure() { Err? }
    function PropagateFailure<U>(): Result<U> requires Err? { Err }
    function Extract(): T requires Ok? { value }
  }

  /** `sql.EvaluateCondition` and `sql.ConvertToBool` on the values of the model. */
  predicate Truthy(v: Value) {
    match v
    case Null => false
    case Bool(b) => b
    case Int(n) => n != 0
  }

  /** A value that converts to `false`; NULL does not convert at all. */
  predicate Falsy(v: Value) {
    v != Null && !Truthy(v)
  }

  /** The number a non-NULL value is compared as. */
  function AsInt(v: Value): int {
    match v
    case Null => 0
    case Bool(b) => if b then 1 else 0
    case Int(n) => n
  }
}

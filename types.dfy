/** The shapes of src/types.ts: the strategy contract the reconciliation
    engine relies on, and the values strategies exchange with it. */
module Types {

  datatype Option<+T> = None | Some(value: T)

  /** A value or the message of the error that was thrown instead. */
  datatype Result<+T> = Ok(value: T) | Err(error: string)

  /** A filesystem path. */
  type Path = string

  /** A JavaScript value as a strategy sees it (`unknown` to the engine).
      `Null` stands for both `null` and `undefined`, which the engine
      tells apart from everything else with `== null`. */
  datatype Value =
    | Null
    | Bool(b: bool)
    | Num(n: int)
    | Str(s: string)
    | Arr(items: seq<Value>)
    | Obj(members: seq<(string, Value)>)

  /** The second argument of a callback: `{ file, path }`. */
  datatype Context = Context(file: string, path: Path)

  /** `FileCallback`: maps the actual content (`Null` when the file does
      not exist) to the expected content (`Null` when the file should not
      exist). */
  type FileCallback = (Value, Context) -> Value

  /** `FileConfig`, a strategy of four operations.
      - `read` gets the path and the file's current text, so it can only be
        called for a file that exists; it may fail (malformed JSON).
      - `update` computes the expected content.
      - `equal` compares expected with actual.
      - `write` gives the text to store at the path, or the error it throws. */
  datatype FileConfig = FileConfig(
    read: (Path, string) -> Result<Value>,
    update: FileCallback,
    equal: (Value, Value) --> bool,
    write: (Path, Value) --> Result<string>)
  {
    /** The call preconditions of src/types.ts: `equal` must accept any two
        non-null values and `write` any non-null expected value; the engine
        promises never to call them with anything else. */
    ghost predicate Valid() {
      && (forall expected: Value, actual: Value ::
            !expected.Null? && !actual.Null? ==> equal.requires(expected, actual))
      && (forall path: Path, expected: Value :: !expected.Null? ==> write.requires(path, expected))
    }
  }

  /** `Updater`: a full strategy or a bare callback over strings. */
  datatype Updater = Config(config: FileConfig) | Callback(callback: FileCallback)
  {
    ghost predicate Valid() {
      Config? ==> config.Valid()
    }
  }
}

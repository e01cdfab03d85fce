/** The two built-in strategies of src/index.ts: `text` for plain strings
    and `json` for parsed documents. */
module Strategies {
  import opened Types
  import opened Messages

  /** The first sentence of the `ERR_INVALID_ARG_TYPE` message
      `fs.writeFileSync` throws when its data is neither a string nor a
      byte buffer. */
  const NotStringPrefix := "The \"data\" argument must be of type string or an instance of Buffer, TypedArray, or DataView."

  /** The whole message for the offending `data`: the sentence above, then
      what was received instead. */
  function NotStringError(data: Value): (m: string)
    requires !data.Str?
    ensures |m| > |NotStringPrefix| && m[..|NotStringPrefix|] == NotStringPrefix
  {
    NotStringPrefix + " Received " + Received(data)
  }

  /** How Node names a value it refused: `null`, an object by its
      constructor, a primitive by its type and its printed form, cut to 25
      characters. */
  function Received(v: Value): string
    requires !v.Str?
  {
    match v
    case Null => "null"
    case Arr(_) => "an instance of Array"
    case Obj(_) => "an instance of Object"
    case Bool(b) => "type boolean (" + (if b then "true" else "false") + ")"
    case Num(n) => "type number (" + Shortened(IntToString(n)) + ")"
  }

  /** The printed form of a value as an error message quotes it: at most 25
      characters, then `...` when anything was cut. */
  function Shortened(s: string): (r: string)
    ensures |s| <= 25 ==> r == s
    ensures |s| > 25 ==> |r| == 28 && r[..25] == s[..25] && r[25..] == "..."
  {
    if |s| > 25 then s[..25] + "..." else s
  }

  /** `text(callback)`: the file's text is its content, `===` compares, and
      the expected string is written verbatim. */
  function Text(callback: FileCallback): (c: FileConfig)
    ensures c.Valid()
    ensures c.update == callback
  {
    FileConfig(
      (path: Path, text: string) => Ok(Str(text)),
      callback,
      (expected: Value, actual: Value) => expected == actual,
      (path: Path, expected: Value) =>
        if expected.Str? then Ok(expected.s) else Err(NotStringError(expected)))
  }

  /** Text content reads back as exactly the string on disk. */
  lemma TextReadsVerbatim(callback: FileCallback, path: Path, text: string)
    ensures Text(callback).read(path, text) == Ok(Str(text))
  {
  }

  /** The text strategy writes a string exactly as given and refuses any
      other non-null value. */
  lemma TextWritesVerbatim(callback: FileCallback, path: Path, expected: Value)
    requires !expected.Null?
    ensures Text(callback).write.requires(path, expected)
    ensures Text(callback).write(path, expected) ==
              if expected.Str? then Ok(expected.s) else Err(NotStringError(expected))
  {
  }

  /** Reading back what the text strategy wrote gives the value it was
      asked to write. */
  lemma TextWriteReadRoundTrip(callback: FileCallback, path: Path, s: string)
    ensures Text(callback).write.requires(path, Str(s))
    ensures Text(callback).write(path, Str(s)).Ok?
    ensures Text(callback).read(path, Text(callback).write(path, Str(s)).value) == Ok(Str(s))
  {
  }

  /** The text strategy's `equal` is value equality. */
  lemma TextEqualIsIdentity(callback: FileCallback, expected: Value, actual: Value)
    ensures Text(callback).equal.requires(expected, actual)
    ensures Text(callback).equal(expected, actual) <==> expected == actual
  {
  }

  /** The library calls the JSON strategy leaves to the platform:
      `JSON.parse`, `JSON.stringify(v)` and `JSON.stringify(v, null, 4)`. */
  datatype JsonCodec = JsonCodec(
    parse: string -> Result<Value>,
    stringify: Value -> string,
    pretty: Value -> string)

  const ByteOrderMark: char := '\U{FEFF}'

  /** `new TextDecoder().decode(...)` drops one leading byte-order mark. */
  function StripBom(text: string): (r: string)
    ensures text != [] && text[0] == ByteOrderMark ==> text == [ByteOrderMark] + r
    ensures (text == [] || text[0] != ByteOrderMark) ==> r == text
  {
    if text != [] && text[0] == ByteOrderMark then text[1..] else text
  }

  /** `json(callback)`: the content is the parsed file, two values are equal
      when their serialisations are, and the write is the 4-space
      serialisation followed by one newline. */
  function Json(callback: FileCallback, codec: JsonCodec): (c: FileConfig)
    ensures c.Valid()
    ensures c.update == callback
  {
    FileConfig(
      (path: Path, text: string) => codec.parse(StripBom(text)),
      callback,
      (expected: Value, actual: Value) => codec.stringify(expected) == codec.stringify(actual),
      (path: Path, expected: Value) => Ok(codec.pretty(expected) + "\n"))
  }

  /** The JSON strategy compares serialisations, so it is an equivalence and
      holds of any two values that serialise alike, whatever their shape. */
  lemma JsonEqualBySerialisation(callback: FileCallback, codec: JsonCodec, x: Value, y: Value, z: Value)
    ensures Json(callback, codec).equal.requires(x, y)
    ensures Json(callback, codec).equal(x, y) <==> codec.stringify(x) == codec.stringify(y)
    ensures Json(callback, codec).equal(x, x)
    ensures Json(callback, codec).equal(x, y) ==> Json(callback, codec).equal(y, x)
    ensures Json(callback, codec).equal(x, y) && Json(callback, codec).equal(y, z) ==>
              Json(callback, codec).equal(x, z)
  {
  }

  /** The JSON strategy always writes its pretty serialisation with exactly
      one newline appended, and never fails. */
  lemma JsonWritesWithNewline(callback: FileCallback, codec: JsonCodec, path: Path, expected: Value)
    requires !expected.Null?
    ensures Json(callback, codec).write.requires(path, expected)
    ensures var w := Json(callback, codec).write(path, expected);
            && w.Ok?
            && |w.value| == |codec.pretty(expected)| + 1
            && w.value[..|w.value| - 1] == codec.pretty(expected)
            && w.value[|w.value| - 1] == '\n'
  {
  }

  /** A JSON file reads the same with or without a leading byte-order mark. */
  lemma JsonReadIgnoresBom(callback: FileCallback, codec: JsonCodec, path: Path, text: string)
    ensures Json(callback, codec).read(path, [ByteOrderMark] + text) == Json(callback, codec).read(path, text)
            || (text != [] && text[0] == ByteOrderMark)
  {
    var c := Json(callback, codec);
    assert StripBom([ByteOrderMark] + text) == text;
    assert c.read(path, [ByteOrderMark] + text) == codec.parse(text);
    if text == [] || text[0] != ByteOrderMark {
      assert StripBom(text) == text;
      assert c.read(path, text) == codec.parse(text);
    }
  }
}

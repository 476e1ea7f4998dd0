/** Outcomes shared by every decoding step: a value, or the kind of exception
    the Python code raises (or the JavaScript code throws) at that step.
    The exception's message text is abstracted to a `Cause` tag. */
module Results {

  /** The exception kinds the decoding routines can run into. */
  datatype Cause =
    | NonAsciiText        // ValueError: a str handed to base64 decoding holds a non-ASCII character
    | Base64Length        // binascii.Error: one data character more than a multiple of four
    | IncorrectPadding    // binascii.Error: the last quantum is not closed by enough '='
    | NonHexadecimal      // ValueError from bytes.fromhex
    | NotLatin1           // UnicodeEncodeError: a character above U+00FF in a Latin-1 encode
    | ZeroDivision        // ZeroDivisionError: repeating key of length zero
    | InvalidUtf8         // UnicodeDecodeError from a strict UTF-8 decode
    | InvalidIntLiteral   // ValueError from int()
    | IntTooLong          // ValueError from int(): more digits than the interpreter's limit
    | JsonDecode          // json.JSONDecodeError
    | SplitArity          // ValueError: unpacking a split that is not exactly two parts
    | IndexOutOfRange     // IndexError
    | KeyMissing          // KeyError
    | WrongType           // TypeError (unsubscriptable value, non-integer index, ...)
    | MissingAttribute    // AttributeError (a method called on a value that lacks it)
    | UnfilledPosition    // TypeError from "".join over a list still holding None

  /** A value, or the exception that replaced it. */
  datatype Result<+T> = Ok(value: T) | Err(cause: Cause) {

    predicate IsFailure() {
      Err?
    }

    function PropagateFailure<U>(): Result<U>
      requires Err?
    {
      Err(cause)
    }

    function Extract(): T
      requires Ok?
    {
      value
    }
  }

  /** Python's None / JavaScript's null or undefined, or a value. */
  datatype Option<+T> = None | Some(value: T) {

    predicate IsFailure() {
      None?
    }

    function PropagateFailure<U>(): Option<U>
      requires None?
    {
      None
    }

    function Extract(): T
      requires Some?
    {
      value
    }
  }

  /** A list built element by element where building an element may
      raise: every value when none raises, else the first exception. */
  function AllOk<T>(outs: seq<Result<T>>): (r: Result<seq<T>>)
    ensures r.Ok? <==> forall j :: 0 <= j < |outs| ==> outs[j].Ok?
    ensures r.Ok? ==> |r.value| == |outs| && forall j :: 0 <= j < |outs| ==> outs[j] == Ok(r.value[j])
    ensures r.Err? ==> exists j :: 0 <= j < |outs| && outs[j] == Err(r.cause)
                                 && forall k :: 0 <= k < j ==> outs[k].Ok?
    decreases |outs|
  {
    if |outs| == 0 then Ok([])
    else
      var n := |outs| - 1;
      assert forall j :: 0 <= j < n ==> outs[..n][j] == outs[j];
      var init :- AllOk(outs[..n]);
      var last :- outs[n];
      Ok(init + [last])
  }

  /** A short description of a cause, standing for `str(e)` of the exception. */
  function Describe(c: Cause): string
  {
    match c
    case NonAsciiText => "string argument should contain only ASCII characters"
    case Base64Length => "Invalid base64-encoded string"
    case IncorrectPadding => "Incorrect padding"
    case NonHexadecimal => "non-hexadecimal number found in fromhex() arg"
    case NotLatin1 => "'latin-1' codec can't encode character"
    case ZeroDivision => "integer modulo by zero"
    case InvalidUtf8 => "'utf-8' codec can't decode byte"
    case InvalidIntLiteral => "invalid literal for int() with base 10"
    case IntTooLong => "Exceeds the limit for integer string conversion"
    case JsonDecode => "Expecting value"
    case SplitArity => "too many values to unpack"
    case IndexOutOfRange => "list index out of range"
    case KeyMissing => "key not found"
    case WrongType => "unsupported operand type"
    case MissingAttribute => "object has no attribute"
    case UnfilledPosition => "sequence item: expected str instance, NoneType found"
  }

  const ErrorPrefix: string := "Error decoding: "

  predicate StartsWith(s: string, prefix: string)
  {
    |prefix| <= |s| && s[..|prefix|] == prefix
  }

  /** The per-item error marker: `f"Error decoding: {e}"`. Every marker starts
      with "Error decoding", which is what the server-name lookup tests for. */
  function ErrorMarker(c: Cause): (m: string)
    ensures StartsWith(m, "Error decoding")
    ensures m != ""
  {
    ErrorPrefix + Describe(c)
  }
}

/**
 * The PHP values the decision engine passes around without inspecting them:
 * the rendering call's parameter array, the optional default handle, the
 * evaluation context, and the single error kind a collaborator can raise.
 */
module PhpValues {
  import opened Wrappers

  /** An opaque `mixed` parameter value. Only equality is ever used on it. */
  datatype Value =
    | VNull
    | VBool(b: bool)
    | VInt(i: int)
    | VString(s: string)
    | VArray(entries: seq<(string, Value)>)

  /**
   * An ordered, string-keyed PHP array. Insertion order is part of the value:
   * PHP's strict `===` on arrays compares keys, values and order, which is
   * exactly sequence equality here.
   */
  type Assoc = seq<(string, Value)>

  /** A default layout handle, possibly null. */
  type Handle = Option<string>

  /** An exception raised by a collaborator, reduced to its message. */
  datatype Error = Error(message: string)

  /** Order-insensitive comparison: both arrays hold the same key/value pairs. */
  ghost predicate SameEntries(a: Assoc, b: Assoc)
  {
    forall kv :: kv in a <==> kv in b
  }

  /** The name PHP's `get_debug_type` gives a non-object value. */
  function DebugType(v: Value): string
  {
    match v
    case VNull => "null"
    case VBool(_) => "bool"
    case VInt(_) => "int"
    case VString(_) => "string"
    case VArray(_) => "array"
  }
}

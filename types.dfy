/** The metadata model: syscall records, their arguments, the Context tag
    that says how an argument value is rendered, and the rule that turns a
    JSON context field into a Context. */
module Types {

  /** Go's `Context`, a named int. A table may hold any int here; only the
      two constants below have a meaning. */
  newtype Context = int

  /** Unknown context: the value is rendered in hexadecimal. */
  const CtxNone: Context := 0

  /** The value is a file descriptor: rendered in decimal. */
  const CtxFD: Context := 1

  /** One syscall argument: its level of indirection, its C signature
      (display only) and its context. */
  datatype Argument = Argument(refCount: int, sig: string, context: Context)

  /** One syscall: its number, user-readable name, entry point (kernel
      function name) and its arguments in declaration order. */
  datatype Syscall = Syscall(num: int, name: string, entry: string, args: seq<Argument>)

  /** Go's zero value `Syscall{}`, returned beside an error. */
  const EmptySyscall := Syscall(0, "", "", [])

  /** A Go `error`: nil, or an error carrying its message. */
  datatype Error = Nil | Err(msg: string)

  /** A JSON value as `encoding/json` has already decoded it: a string, or
      anything else, kept as the raw text the error message quotes. */
  datatype Json = JsonString(s: string) | JsonOther(raw: string)

  /** The context a decoded JSON string names: exactly "FD" is a file
      descriptor, every other string (including "" and "fd") is none. */
  function ContextOf(s: string): (c: Context)
    ensures c == CtxFD <==> s == "FD"
    ensures c == CtxNone <==> s != "FD"
  {
    if s == "FD" then CtxFD else CtxNone
  }

  /** The message the decoder returns for a JSON value that is not a string. */
  function NotAStringMessage(raw: string): string
  {
    "context should be a string, got " + raw
  }

  /** A `Context` variable that the JSON decoder writes through a pointer. */
  class ContextVar {
    var value: Context

    constructor (c: Context)
      ensures value == c
    {
      value := c;
    }

    /** Go's `(*Context).UnmarshalJSON`: a string sets the variable to the
        context it names and succeeds; any other value is an error and
        leaves the variable as it was. */
    method UnmarshalJSON(data: Json) returns (err: Error)
      modifies this
      ensures data.JsonString? ==> err == Nil && value == ContextOf(data.s)
      ensures data.JsonOther? ==> err == Err(NotAStringMessage(data.raw)) && value == old(value)
    {
      if !data.JsonString? {
        return Err(NotAStringMessage(data.raw));
      }
      value := ContextOf(data.s);
      err := Nil;
    }
  }

  /** The comparison is exact: case and emptiness are not folded into "FD". */
  lemma ContextOfIsExact()
    ensures ContextOf("FD") == CtxFD
    ensures ContextOf("fd") == CtxNone && ContextOf("") == CtxNone && ContextOf("FD ") == CtxNone
  {
  }
}

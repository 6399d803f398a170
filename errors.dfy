/**
 * The part of the errors package (github.com/pkg/errors) that the event code
 * relies on: wrapping an error with a message, the text of an error, and
 * recovering the original cause of a wrapped error.
 */
module Errors {
  import opened Wrappers

  /** An error value: one raised outside this core, or one wrapped with a message. */
  datatype Error =
    | Fault(reason: string)
    | WithMessage(message: string, inner: Error)

  predicate IsSuffix(s: string, t: string) {
    |s| <= |t| && t[|t| - |s|..] == s
  }

  /** What `Error()` returns: each wrapping message, then ": ", then the inner text. */
  function Text(e: Error): string {
    match e
    case Fault(reason) => reason
    case WithMessage(message, inner) => message + ": " + Text(inner)
  }

  /**
   * `errors.Cause`: the innermost error, with every wrapping removed; an
   * error that wraps nothing is its own cause.
   */
  function Cause(e: Error): (c: Error)
    ensures c.Fault?
    ensures e.Fault? ==> c == e
    ensures e.WithMessage? ==> c == Cause(e.inner)
    ensures IsSuffix(Text(c), Text(e))
  {
    match e
    case Fault(_) => e
    case WithMessage(message, inner) =>
      var c := Cause(inner);
      assert Text(e) == (message + ": ") + Text(inner);
      assert Text(e)[|Text(e)| - |Text(inner)|..] == Text(inner);
      c
  }

  /**
   * `errors.Wrap(err, message)`: nil stays nil; any other error keeps its
   * cause and gains the message in front of its text.
   */
  function Wrap(err: Option<Error>, message: string): (r: Option<Error>)
    ensures r.None? <==> err.None?
    ensures r.Some? ==> Cause(r.value) == Cause(err.value)
    ensures r.Some? ==> Text(r.value) == message + ": " + Text(err.value)
  {
    match err
    case None => None
    case Some(e) => Some(WithMessage(message, e))
  }
}

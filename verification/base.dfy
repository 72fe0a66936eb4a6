/** Shared vocabulary of the model: optional values, results, and the
    exceptions the OpenShift service raises, as data. */
module Base {

  datatype Option<+T> = None | Some(value: T) {
    function GetOr(default: T): T {
      match this
      case Some(v) => v
      case None => default
    }
  }

  /** The exceptions the service raises or lets escape, by Java class. */
  datatype Error =
    | IllegalArgument(message: string)
    | IllegalState(message: string)
    | NullPointer
      // `Collectors.toMap` on two parameters with the same name
    | DuplicateKey(key: string)
      // `Optional.get()` on a build config without a GitHub trigger
    | NoSuchElement
      // a `KubernetesClientException` raised by the cluster client
    | ClientFailure(detail: string)
      // what `ExceptionMapper` makes of a rejected project request; the
      // mapping itself is not part of this model
    | ProjectRequestRejected(detail: string)
      // `new RuntimeException(message, cause)`
    | Wrapped(message: string, cause: Error)

  datatype Result<+T> = Success(value: T) | Failure(error: Error) {
    predicate IsFailure() { Failure? }
    function PropagateFailure<U>(): Result<U>
      requires Failure?
    {
      Failure(error)
    }
    function Extract(): T
      requires Success?
    {
      value
    }
  }

  /** Nullable Java strings that the service checks with `s == null || s.isEmpty()`. */
  predicate IsNullOrEmpty(s: Option<string>) {
    s.None? || |s.value| == 0
  }

  /** Every character of `s` is in `chars`. */
  predicate AllIn(s: string, chars: set<char>) {
    forall k :: 0 <= k < |s| ==> s[k] in chars
  }

  /** `c` does not occur in `s`. */
  predicate Lacks(s: string, c: char) {
    forall k :: 0 <= k < |s| ==> s[k] != c
  }
}

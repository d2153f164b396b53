/** The self-validation capability of commands and queries (`IValidatable`) and the
    ordered first-failure rule list every `Validate()` override follows. */
module Cqrs {
  import opened Common
  import opened Results

  /** The tuple `(bool IsValid, string? ErrorMessage)` that `Validate()` returns. */
  datatype Verdict = Verdict(isValid: bool, errorMessage: Option<Message>)

  /** What `Validate()` throws when it reads the length of a null string. */
  const NullReference: Exception :=
    Exception("NullReferenceException", "Object reference not set to an instance of an object.")

  /** The accepting verdict `(true, null)`. */
  const Accepted: Verdict := Verdict(true, None)

  /** The rejecting verdict `(false, message)`. */
  function Rejected(message: Message): Verdict {
    Verdict(false, Some(message))
  }

  /** `IValidatable.Validate()`'s default body, used by every request that does not
      override it. */
  function DefaultValidate(): (v: Verdict)
    ensures v.isValid && v.errorMessage == None
  {
    Accepted
  }

  /** One rule of a `Validate()` body: whether it holds, and the message returned when
      it is the first one that does not. */
  datatype Check = Check(holds: bool, message: Message)

  /** The meaning of an ordered chain of `if (...) return (false, msg);` statements ending
      in `return (true, null)`: the first broken rule decides the message. */
  function FirstViolation(checks: seq<Check>): (v: Verdict)
  {
    if checks == [] then Accepted
    else if !checks[0].holds then Rejected(checks[0].message)
    else FirstViolation(checks[1..])
  }

  /** A rule chain accepts exactly when every rule holds, and then reports no message. */
  lemma {:induction false} FirstViolationAcceptsIffAllHold(checks: seq<Check>)
    ensures FirstViolation(checks).isValid <==> forall i :: 0 <= i < |checks| ==> checks[i].holds
    ensures FirstViolation(checks).isValid ==> FirstViolation(checks).errorMessage == None
  {
    if checks != [] {
      FirstViolationAcceptsIffAllHold(checks[1..]);
      if checks[0].holds {
        forall i | 0 <= i < |checks[1..]| ensures checks[1..][i] == checks[i + 1] { }
      }
    }
  }

  /** When rule `k` is broken and every earlier rule holds, the chain rejects with rule
      `k`'s message: rules are checked in order and later ones are never reached. */
  lemma {:induction false} FirstViolationReportsFirstBroken(checks: seq<Check>, k: nat)
    requires k < |checks| && !checks[k].holds
    requires forall i :: 0 <= i < k ==> checks[i].holds
    ensures FirstViolation(checks) == Rejected(checks[k].message)
  {
    if k > 0 {
      FirstViolationReportsFirstBroken(checks[1..], k - 1);
    }
  }
}

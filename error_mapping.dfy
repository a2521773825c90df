/**
 * The catch block of `POST` in src/app/api/analyze/route.ts: a caught error
 * becomes a response whose status is the error's `status` when that is
 * truthy, else 500, and whose text names the error's message.
 */
module ErrorMapping {
  import opened Wrappers

  /**
   * What the handler reads off a caught error: its `status` and `message`
   * properties, `None` where the property is undefined.
   */
  datatype Thrown = Thrown(status: Option<int>, message: Option<string>)

  const FailurePrefix: string := "AI Analysis failed: "
  const UnknownError: string := "Unknown error"
  const DefaultStatus: int := 500

  /** JavaScript truthiness of a numeric property: undefined and 0 are falsy. */
  predicate StatusTruthy(status: Option<int>)
  {
    status.Some? && status.value != 0
  }

  predicate MessageTruthy(message: Option<string>)
  {
    message.Some? && message.value != ""
  }

  /** `error.status || 500` */
  function ErrorStatus(e: Thrown): int
  {
    if StatusTruthy(e.status) then e.status.value else DefaultStatus
  }

  /** `error.message || "Unknown error"` */
  function ShownMessage(e: Thrown): string
  {
    if MessageTruthy(e.message) then e.message.value else UnknownError
  }

  /** The `error` text of the response body. */
  function ErrorText(e: Thrown): string
  {
    FailurePrefix + ShownMessage(e)
  }

  /**
   * The status is never 0; a truthy status is forwarded unchanged, so
   * 500 comes out exactly when the error carries no truthy status or
   * carries 500 itself.
   */
  lemma ErrorStatusSpec(e: Thrown)
    ensures ErrorStatus(e) != 0
    ensures StatusTruthy(e.status) ==> ErrorStatus(e) == e.status.value
    ensures ErrorStatus(e) == DefaultStatus <==> !StatusTruthy(e.status) || e.status.value == DefaultStatus
  {
  }

  /** The text after the fixed prefix recovers a non-empty message. */
  lemma ErrorTextRecoversMessage(e: Thrown)
    ensures |ErrorText(e)| > |FailurePrefix|
    ensures ErrorText(e)[..|FailurePrefix|] == FailurePrefix
    ensures MessageTruthy(e.message) ==> ErrorText(e)[|FailurePrefix|..] == e.message.value
    ensures !MessageTruthy(e.message) ==> ErrorText(e)[|FailurePrefix|..] == UnknownError
  {
  }

  /** Two errors give the same text exactly when they show the same message. */
  lemma ErrorTextInjective(e1: Thrown, e2: Thrown)
    ensures ErrorText(e1) == ErrorText(e2) <==> ShownMessage(e1) == ShownMessage(e2)
  {
    ErrorTextRecoversMessage(e1);
    ErrorTextRecoversMessage(e2);
  }
}

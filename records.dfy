/**
 * The records the pages read, with the fields they use: adjusters as the
 * database stores them (shared/schema.ts), claims as the claims listing
 * returns them, and the rows that link claims to adjusters.
 */
module Records {
  import opened Wrappers

  /** An adjuster; `carrier` is required, `region` and `riskImpression` may be null. */
  datatype Adjuster = Adjuster(
    id: string,
    name: string,
    carrier: string,
    region: Option<string>,
    internalNotes: Option<string>,
    riskImpression: Option<string>)

  /** A claim as listed by the API: the pages read its carrier (which may be absent) and its status. */
  datatype Claim = Claim(id: string, carrier: Option<string>, status: string)

  /**
   * A logged interaction with an adjuster. The date is a timestamp (the
   * stored text read with `new Date(...)`); outcome and claim id may be null.
   */
  datatype Interaction = Interaction(
    id: string,
    adjusterId: string,
    date: int,
    kind: string,
    description: string,
    outcome: Option<string>,
    claimId: Option<string>)

  /** `value || fallback` for a nullable text: null and the empty string both fall back. */
  function OrElse(value: Option<string>, fallback: string): (r: string)
    ensures value.Some? && value.value != "" ==> r == value.value
    ensures value.None? || value.value == "" ==> r == fallback
  {
    if value.Some? && value.value != "" then value.value else fallback
  }

  /** A row of the claim/adjuster junction table. */
  datatype ClaimAdjuster = ClaimAdjuster(claimId: string, adjusterId: string)
}

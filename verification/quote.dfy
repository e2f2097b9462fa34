/**
 The quote record and its embedded approval sub-record, field for field as the
 application declares them, plus the identifier views the save rule works on.
 Monetary value and win probability are JavaScript numbers; the save rule does
 no arithmetic on them, so they are kept as opaque reals.
 */
module Quotes {
  import opened QuoteEnums

  datatype Approval = Approval(
    state: ApprovalState,
    approver: string,
    requestedAt: string,
    decidedAt: string,
    note: string)

  datatype Quote = Quote(
    id: string,
    title: string,
    client: string,
    contact: string,
    value: real,
    currency: Currency,
    probability: real,
    status: Status,
    owner: string,
    createdBy: string,
    validUntil: string,
    notes: string,
    approval: Approval,
    createdAt: string,
    updatedAt: string)

  /** JavaScript truthiness of the `id` string: only the empty string is falsy. */
  predicate HasId(q: Quote) {
    q.id != ""
  }

  /** The set of identifiers occurring in a list of quotes. */
  function IdSet(quotes: seq<Quote>): set<string> {
    set i | 0 <= i < |quotes| :: quotes[i].id
  }

  /** No two positions of the list carry the same identifier (the list view
      uses the identifier as the rendering key of each row). */
  predicate UniqueIds(quotes: seq<Quote>) {
    forall i, j :: 0 <= i < j < |quotes| ==> quotes[i].id != quotes[j].id
  }
}

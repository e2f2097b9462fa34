/**
 The quote form, reduced to what it hands to the save rule. A form session
 starts from the quote being edited, or from a blank skeleton for a new quote;
 the user can change exactly eight inputs (title, client, contact, value,
 currency, probability, status, notes); submitting hands over the starting
 quote with those eight fields replaced. Every other field, the identifier and
 the timestamps among them, passes through untouched.
 */
module QuoteForm {
  import opened Wrappers
  import opened QuoteEnums
  import opened Quotes

  /** The final contents of the eight inputs the form shows. */
  datatype FormFields = FormFields(
    title: string,
    client: string,
    contact: string,
    value: real,
    currency: Currency,
    probability: real,
    status: Status,
    notes: string)

  /** The part of a quote the form shows. */
  function Shown(q: Quote): FormFields {
    FormFields(q.title, q.client, q.contact, q.value, q.currency, q.probability, q.status, q.notes)
  }

  /** Two quotes agree on every field the form does not show. */
  predicate SameHidden(a: Quote, b: Quote) {
    && a.id == b.id
    && a.owner == b.owner
    && a.createdBy == b.createdBy
    && a.validUntil == b.validUntil
    && a.approval == b.approval
    && a.createdAt == b.createdAt
    && a.updatedAt == b.updatedAt
  }

  /** A quote is fully determined by what the form shows and what it hides. */
  lemma ShownAndHiddenDetermineQuote(a: Quote, b: Quote)
    requires Shown(a) == Shown(b)
    requires SameHidden(a, b)
    ensures a == b
  {
  }

  /** The skeleton a new quote starts from; `validUntil` is the date thirty
      days from today, which the caller computes. */
  function Blank(validUntil: string): (q: Quote)
    ensures !HasId(q)
    ensures q.createdAt == "" && q.updatedAt == ""
    ensures q.validUntil == validUntil
    ensures q.currency == Currencies[0]
    ensures q.status == Statuses[0]
    ensures q.approval.state == ApprovalStates[0]
  {
    Quote(
      id := "",
      title := "",
      client := "",
      contact := "",
      value := 0.0,
      currency := GBP,
      probability := 50.0,
      status := Draft,
      owner := "",
      createdBy := "",
      validUntil := validUntil,
      notes := "",
      approval := Approval(NotRequired, "", "", "", ""),
      createdAt := "",
      updatedAt := "")
  }

  /** The quote a form session starts from. */
  function Start(initial: Option<Quote>, validUntil: string): Quote {
    match initial
    case Some(x) => x
    case None => Blank(validUntil)
  }

  /** The quote a form session hands to the save rule: the starting quote with
      the eight shown fields replaced by the inputs' final contents. */
  function Submit(initial: Option<Quote>, validUntil: string, f: FormFields): (q: Quote)
    ensures Shown(q) == f
    ensures SameHidden(q, Start(initial, validUntil))
    ensures initial.None? ==> !HasId(q)
    ensures initial.Some? ==> q.id == initial.value.id && q.createdAt == initial.value.createdAt
  {
    Start(initial, validUntil).(
      title := f.title,
      client := f.client,
      contact := f.contact,
      value := f.value,
      currency := f.currency,
      probability := f.probability,
      status := f.status,
      notes := f.notes)
  }

  /** Submitting a form without touching any input hands back the starting
      quote unchanged. */
  lemma SubmitUntouched(initial: Option<Quote>, validUntil: string)
    ensures Submit(initial, validUntil, Shown(Start(initial, validUntil))) == Start(initial, validUntil)
  {
    var s := Start(initial, validUntil);
    ShownAndHiddenDetermineQuote(Submit(initial, validUntil, Shown(s)), s);
  }
}

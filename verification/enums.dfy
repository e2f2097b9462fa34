/**
 The three closed string-literal sets of the quote record: lifecycle status,
 approval state and currency. Each list is kept in the order the application
 declares it, because the first member is the baseline the blank form starts
 from and the order is the order of the options in the form's select boxes.
 */
module QuoteEnums {
  import opened Wrappers

  /** Lifecycle status of a quote. */
  datatype Status = Draft | Sent | Accepted | Declined | Expired

  /** State of the approval sub-record of a quote. */
  datatype ApprovalState = NotRequired | Requested | Approved | Declined

  /** Currency in which a quote's value is expressed. */
  datatype Currency = GBP | USD | EUR

  /** The status list, in declaration order. */
  const Statuses: seq<Status> := [Draft, Sent, Accepted, Status.Declined, Expired]

  /** The approval-state list, in declaration order. */
  const ApprovalStates: seq<ApprovalState> := [NotRequired, Requested, Approved, ApprovalState.Declined]

  /** The currency list, in declaration order. */
  const Currencies: seq<Currency> := [GBP, USD, EUR]

  /** The string literal that stands for a status at run time. */
  function StatusName(s: Status): string {
    match s
    case Draft => "Draft"
    case Sent => "Sent"
    case Accepted => "Accepted"
    case Declined => "Declined"
    case Expired => "Expired"
  }

  /** The string literal that stands for an approval state at run time. */
  function ApprovalStateName(a: ApprovalState): string {
    match a
    case NotRequired => "Not Required"
    case Requested => "Requested"
    case Approved => "Approved"
    case Declined => "Declined"
  }

  /** The string literal that stands for a currency at run time. */
  function CurrencyName(c: Currency): string {
    match c
    case GBP => "GBP"
    case USD => "USD"
    case EUR => "EUR"
  }

  /** Reads back the status a select option's text names; None for any
      text outside the closed list. */
  function ParseStatus(text: string): (r: Option<Status>)
    ensures forall s :: r == Some(s) <==> StatusName(s) == text
  {
    if text == "Draft" then Some(Draft)
    else if text == "Sent" then Some(Sent)
    else if text == "Accepted" then Some(Accepted)
    else if text == "Declined" then Some(Status.Declined)
    else if text == "Expired" then Some(Expired)
    else None
  }

  /** Reads back the approval state a text names; None outside the closed list. */
  function ParseApprovalState(text: string): (r: Option<ApprovalState>)
    ensures forall a :: r == Some(a) <==> ApprovalStateName(a) == text
  {
    if text == "Not Required" then Some(NotRequired)
    else if text == "Requested" then Some(Requested)
    else if text == "Approved" then Some(Approved)
    else if text == "Declined" then Some(ApprovalState.Declined)
    else None
  }

  /** Reads back the currency a select option's text names; None outside the
      closed list. */
  function ParseCurrency(text: string): (r: Option<Currency>)
    ensures forall c :: r == Some(c) <==> CurrencyName(c) == text
  {
    if text == "GBP" then Some(GBP)
    else if text == "USD" then Some(USD)
    else if text == "EUR" then Some(EUR)
    else None
  }

  /** Every option the status select box offers reads back as the status it
      was rendered from, and every status is offered exactly once. */
  lemma StatusOptionsRoundTrip()
    ensures forall s :: s in Statuses
    ensures forall i, j :: 0 <= i < j < |Statuses| ==> StatusName(Statuses[i]) != StatusName(Statuses[j])
    ensures forall i :: 0 <= i < |Statuses| ==> ParseStatus(StatusName(Statuses[i])) == Some(Statuses[i])
  {
    forall s ensures s in Statuses {
      match s
      case Draft => assert Statuses[0] == s;
      case Sent => assert Statuses[1] == s;
      case Accepted => assert Statuses[2] == s;
      case Declined => assert Statuses[3] == s;
      case Expired => assert Statuses[4] == s;
    }
  }

  /** Every option the currency select box offers reads back as the currency
      it was rendered from, and every currency is offered exactly once. */
  lemma CurrencyOptionsRoundTrip()
    ensures forall c :: c in Currencies
    ensures forall i, j :: 0 <= i < j < |Currencies| ==> CurrencyName(Currencies[i]) != CurrencyName(Currencies[j])
    ensures forall i :: 0 <= i < |Currencies| ==> ParseCurrency(CurrencyName(Currencies[i])) == Some(Currencies[i])
  {
    forall c ensures c in Currencies {
      match c
      case GBP => assert Currencies[0] == c;
      case USD => assert Currencies[1] == c;
      case EUR => assert Currencies[2] == c;
    }
  }

  /** Every approval state is listed exactly once and its text reads back. */
  lemma ApprovalStatesRoundTrip()
    ensures forall a :: a in ApprovalStates
    ensures forall i, j :: 0 <= i < j < |ApprovalStates| ==> ApprovalStateName(ApprovalStates[i]) != ApprovalStateName(ApprovalStates[j])
    ensures forall i :: 0 <= i < |ApprovalStates| ==> ParseApprovalState(ApprovalStateName(ApprovalStates[i])) == Some(ApprovalStates[i])
  {
    forall a ensures a in ApprovalStates {
      match a
      case NotRequired => assert ApprovalStates[0] == a;
      case Requested => assert ApprovalStates[1] == a;
      case Approved => assert ApprovalStates[2] == a;
      case Declined => assert ApprovalStates[3] == a;
    }
  }
}

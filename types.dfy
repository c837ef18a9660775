/**
 * The data shape of the roster: one client record, the closed set of
 * authorization statuses and the order in which the status picker offers them.
 */
module Types {

  /** An optional value. For a record field, None is a field left undefined;
      for a parsed number, None is JavaScript's NaN. */
  datatype Option<+T> = None | Some(value: T)

  /** How a client's units are budgeted. */
  datatype UnitsMode = Annual | Monthly

  /** The six authorization statuses, in the order the union type declares them. */
  datatype ClientStatus =
    | NewAuthorization
    | NewlyAssigned
    | ClientHospitalized
    | FrequentCaregiverCancellations
    | CurrentAuthorization
    | CurrentAuthorizationNewLbs

  /** One row of the roster. Dates are kept as the strings the record carries. */
  datatype Client = Client(
    id: string,
    name: string,
    clinician: string,
    assignedDate: string,
    unitsUsed: real,
    status: ClientStatus,
    lastUpdated: string,
    unitsMode: UnitsMode,
    monthsAssigned: Option<int>)

  /** The string literal that stands for a status. */
  function Label(s: ClientStatus): string {
    match s
    case NewAuthorization => "New Authorization"
    case NewlyAssigned => "Newly Assigned"
    case ClientHospitalized => "Client Hospitalized"
    case FrequentCaregiverCancellations => "Frequent Caregiver Cancellations"
    case CurrentAuthorization => "Current Authorization"
    case CurrentAuthorizationNewLbs => "Current Authorization (New LBS)"
  }

  /** The string literal of a units mode. */
  function ModeLabel(m: UnitsMode): string {
    match m
    case Annual => "annual"
    case Monthly => "monthly"
  }

  /** Reading a status back from its literal, as the picker's cast does. */
  function StatusOfLabel(text: string): (r: Option<ClientStatus>)
    ensures r.Some? ==> Label(r.value) == text
  {
    if text == "New Authorization" then Some(NewAuthorization)
    else if text == "Newly Assigned" then Some(NewlyAssigned)
    else if text == "Client Hospitalized" then Some(ClientHospitalized)
    else if text == "Frequent Caregiver Cancellations" then Some(FrequentCaregiverCancellations)
    else if text == "Current Authorization" then Some(CurrentAuthorization)
    else if text == "Current Authorization (New LBS)" then Some(CurrentAuthorizationNewLbs)
    else None
  }

  /** Every status is read back from its own literal, so no two statuses share one. */
  lemma LabelRoundTrip(s: ClientStatus)
    ensures StatusOfLabel(Label(s)) == Some(s)
  {
  }

  lemma LabelInjective(s: ClientStatus, t: ClientStatus)
    ensures Label(s) == Label(t) <==> s == t
  {
    LabelRoundTrip(s);
    LabelRoundTrip(t);
  }

  /** The order in which the status picker lists the statuses. */
  const ClientStatuses: seq<ClientStatus> := [
    NewAuthorization,
    CurrentAuthorization,
    CurrentAuthorizationNewLbs,
    NewlyAssigned,
    ClientHospitalized,
    FrequentCaregiverCancellations
  ]

  /** The picker's option values: the labels of ClientStatuses, in order. */
  function StatusOptions(): (r: seq<string>)
    ensures |r| == |ClientStatuses|
    ensures forall k :: 0 <= k < |r| ==> r[k] == Label(ClientStatuses[k])
  {
    seq(|ClientStatuses|, k requires 0 <= k < |ClientStatuses| => Label(ClientStatuses[k]))
  }

  /** The position of a status in the picker. */
  function DisplayIndex(s: ClientStatus): (k: nat)
    ensures k < |ClientStatuses| && ClientStatuses[k] == s
  {
    match s
    case NewAuthorization => 0
    case CurrentAuthorization => 1
    case CurrentAuthorizationNewLbs => 2
    case NewlyAssigned => 3
    case ClientHospitalized => 4
    case FrequentCaregiverCancellations => 5
  }

  /** The picker lists six statuses, each once. */
  lemma StatusesDistinct()
    ensures |ClientStatuses| == 6
    ensures forall i, j :: 0 <= i < j < |ClientStatuses| ==> ClientStatuses[i] != ClientStatuses[j]
  {
  }

  /** Every status of the union appears in the picker: the list is a permutation of the union. */
  lemma StatusesComplete(s: ClientStatus)
    ensures s in ClientStatuses
    ensures multiset(ClientStatuses)[s] == 1
  {
    var k := DisplayIndex(s);
    assert multiset(ClientStatuses) == multiset{NewAuthorization, CurrentAuthorization,
      CurrentAuthorizationNewLbs, NewlyAssigned, ClientHospitalized, FrequentCaregiverCancellations};
  }

  /** Option values are pairwise distinct, as the picker's option keys must be;
      each one reads back as the status at that position. */
  lemma StatusOptionsDistinct()
    ensures forall i, j :: 0 <= i < j < |StatusOptions()| ==> StatusOptions()[i] != StatusOptions()[j]
    ensures forall k :: 0 <= k < |StatusOptions()| ==> StatusOfLabel(StatusOptions()[k]) == Some(ClientStatuses[k])
  {
    var opts := StatusOptions();
    forall k | 0 <= k < |opts| ensures StatusOfLabel(opts[k]) == Some(ClientStatuses[k]) {
      LabelRoundTrip(ClientStatuses[k]);
    }
    forall i, j | 0 <= i < j < |opts| ensures opts[i] != opts[j] {
      StatusesDistinct();
      LabelInjective(ClientStatuses[i], ClientStatuses[j]);
    }
  }

  /** The picker's order is not the union's declaration order. */
  lemma DisplayOrderDiffersFromDeclaration()
    ensures ClientStatuses[0] == NewAuthorization && ClientStatuses[1] == CurrentAuthorization
    ensures ClientStatuses[2] == CurrentAuthorizationNewLbs && ClientStatuses[3] == NewlyAssigned
    ensures ClientStatuses[4] == ClientHospitalized && ClientStatuses[5] == FrequentCaregiverCancellations
    ensures ClientStatuses != [NewAuthorization, NewlyAssigned, ClientHospitalized,
                               FrequentCaregiverCancellations, CurrentAuthorization, CurrentAuthorizationNewLbs]
  {
  }
}

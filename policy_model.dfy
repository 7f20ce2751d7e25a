/** The `Policy` table's record shape and the rules the ORM schema applies when a
    row is created: three non-null names, a two-value status enum defaulting to
    "active", a document list defaulting to empty, and a required owner. */
module PolicyModel {
  import opened Wrappers

  /** Dates are millisecond timestamps; amounts are whole numbers. */
  type Millis = int

  const StatusActive: string := "active"
  const StatusInactive: string := "inactive"

  /** The values the `status` enum column accepts. */
  predicate IsStatus(s: string) {
    s == StatusActive || s == StatusInactive
  }

  /** One stored row. `None` stands for a SQL NULL. */
  datatype Policy = Policy(
    id: nat,
    policyName: string,
    policyNumber: string,
    insuranceCompany: string,
    policyType: Option<string>,
    premiumAmount: Option<int>,
    premiumFrequency: Option<string>,
    coverageAmount: Option<int>,
    status: string,
    startDate: Option<Millis>,
    endDate: Option<Millis>,
    notes: Option<string>,
    documents: seq<string>,
    userId: int,
    createdAt: Millis)

  /** A row the schema admits: the status is one of the enum's values. The names
      and the owner cannot be NULL because their Dafny types have no NULL. */
  predicate Storable(p: Policy) {
    IsStatus(p.status)
  }

  /** The attribute bag handed to `Policy.create`; an absent attribute is `None`. */
  datatype Attributes = Attributes(
    policyName: Option<string>,
    policyNumber: Option<string>,
    insuranceCompany: Option<string>,
    policyType: Option<string>,
    premiumAmount: Option<int>,
    premiumFrequency: Option<string>,
    coverageAmount: Option<int>,
    status: Option<string>,
    startDate: Option<Millis>,
    endDate: Option<Millis>,
    notes: Option<string>,
    documents: Option<seq<string>>,
    userId: Option<int>)

  /** Building a row from attributes: defaults are filled in and the column
      constraints checked. `None` means the database refuses the row. */
  function FromAttributes(a: Attributes, id: nat, createdAt: Millis): (r: Option<Policy>)
    ensures r.Some? <==>
      a.policyName.Some? && a.policyNumber.Some? && a.insuranceCompany.Some? &&
      a.userId.Some? && IsStatus(a.status.GetOr(StatusActive))
    ensures r.Some? ==> Storable(r.value)
    ensures r.Some? ==> r.value.status == a.status.GetOr(StatusActive)
    ensures r.Some? ==> r.value.documents == a.documents.GetOr([])
    ensures r.Some? ==> r.value.userId == a.userId.value && r.value.id == id
    ensures r.Some? ==> (r.value.policyName == a.policyName.value &&
      r.value.policyNumber == a.policyNumber.value &&
      r.value.insuranceCompany == a.insuranceCompany.value)
    ensures r.Some? ==> (r.value.policyType == a.policyType &&
      r.value.premiumAmount == a.premiumAmount &&
      r.value.premiumFrequency == a.premiumFrequency &&
      r.value.coverageAmount == a.coverageAmount &&
      r.value.startDate == a.startDate && r.value.endDate == a.endDate &&
      r.value.notes == a.notes && r.value.createdAt == createdAt)
  {
    if a.policyName.None? || a.policyNumber.None? || a.insuranceCompany.None? || a.userId.None? then None
    else
      var status := a.status.GetOr(StatusActive);
      if !IsStatus(status) then None
      else Some(Policy(
        id := id,
        policyName := a.policyName.value,
        policyNumber := a.policyNumber.value,
        insuranceCompany := a.insuranceCompany.value,
        policyType := a.policyType,
        premiumAmount := a.premiumAmount,
        premiumFrequency := a.premiumFrequency,
        coverageAmount := a.coverageAmount,
        status := status,
        startDate := a.startDate,
        endDate := a.endDate,
        notes := a.notes,
        documents := a.documents.GetOr([]),
        userId := a.userId.value,
        createdAt := createdAt))
  }

  /** The status column holds neither "expired" nor any other value outside the enum,
      and no order between start and end date is demanded: a row whose end date
      precedes its start date is still admitted. */
  lemma EnumRejectsOtherStatuses(a: Attributes, id: nat, createdAt: Millis)
    requires a.policyName.Some? && a.policyNumber.Some? && a.insuranceCompany.Some? && a.userId.Some?
    ensures a.status == Some("expired") ==> FromAttributes(a, id, createdAt).None?
    ensures a.status == None ==> FromAttributes(a, id, createdAt).Some?
    ensures a.status == None && a.startDate == Some(10) && a.endDate == Some(0) ==>
      FromAttributes(a, id, createdAt).Some?
  {
    assert "expired" != StatusActive && "expired" != StatusInactive;
  }
}

/**
 * EnumHelper: turns a status code of one of the three known enumerations into
 * the sentence shown to a library user. Each enumeration has its own fixed,
 * read-only description table, and GetDescription dispatches on the runtime
 * category of the value it is given.
 */
module EnumHelper {
  import opened Enums

  /**
   * The argument of GetDescription, which is statically typed `Enum` and may be
   * null: a value of one of the three known enumerations, a null reference, or
   * a value of any other enumeration, represented only by what its `ToString()`
   * returns.
   */
  datatype StatusValue =
    | Null
    | LoanExtension(extension: LoanExtensionStatus)
    | LoanReturn(loanReturn: LoanReturnStatus)
    | MembershipRenewal(renewal: MembershipRenewalStatus)
    | OtherEnum(name: string)

  /** True for a value of one of the three enumerations that have a table. */
  predicate IsKnownStatus(value: StatusValue)
  {
    value.LoanExtension? || value.LoanReturn? || value.MembershipRenewal?
  }

  const LOAN_EXTENSION_STATUS_DESCRIPTIONS: map<LoanExtensionStatus, string> := map[
    LoanExtensionStatus.Success := "Book loan extension was successful.",
    LoanExtensionStatus.LoanNotFound := "Loan not found.",
    LoanExtensionStatus.LoanExpired := "Cannot extend book loan as it already has expired. Return the book instead.",
    LoanExtensionStatus.MembershipExpired := "Cannot extend book loan due to expired patron's membership.",
    LoanExtensionStatus.LoanReturned := "Cannot extend book loan as the book is already returned."
  ]

  const LOAN_RETURN_STATUS_DESCRIPTIONS: map<LoanReturnStatus, string> := map[
    LoanReturnStatus.Success := "Book was successfully returned.",
    LoanReturnStatus.LoanNotFound := "Loan not found.",
    LoanReturnStatus.AlreadyReturned := "Cannot return book as the book is already returned.",
    LoanReturnStatus.Error := "Cannot return book due to an error."
  ]

  const MEMBERSHIP_RENEWAL_STATUS_DESCRIPTIONS: map<MembershipRenewalStatus, string> := map[
    MembershipRenewalStatus.Success := "Membership renewal was successful.",
    MembershipRenewalStatus.PatronNotFound := "Patron not found.",
    MembershipRenewalStatus.TooEarlyToRenew := "It is too early to renew the membership.",
    MembershipRenewalStatus.LoanNotReturned := "Cannot renew membership due to an outstanding loan.",
    MembershipRenewalStatus.Error := "Cannot renew membership due to an error."
  ]

  /**
   * Completeness of each table: its keys are exactly the codes of its
   * enumeration, and no entry of the initializer was overwritten by a later
   * one with the same key (the table has as many entries as the initializer).
   */
  lemma LoanExtensionTableComplete()
    ensures LOAN_EXTENSION_STATUS_DESCRIPTIONS.Keys == LOAN_EXTENSION_CODES
    ensures forall c: LoanExtensionStatus :: c in LOAN_EXTENSION_STATUS_DESCRIPTIONS
    ensures |LOAN_EXTENSION_STATUS_DESCRIPTIONS| == 5
  {
    LoanExtensionCodesAll();
  }

  lemma LoanReturnTableComplete()
    ensures LOAN_RETURN_STATUS_DESCRIPTIONS.Keys == LOAN_RETURN_CODES
    ensures forall c: LoanReturnStatus :: c in LOAN_RETURN_STATUS_DESCRIPTIONS
    ensures |LOAN_RETURN_STATUS_DESCRIPTIONS| == 4
  {
    LoanReturnCodesAll();
  }

  lemma MembershipRenewalTableComplete()
    ensures MEMBERSHIP_RENEWAL_STATUS_DESCRIPTIONS.Keys == MEMBERSHIP_RENEWAL_CODES
    ensures forall c: MembershipRenewalStatus :: c in MEMBERSHIP_RENEWAL_STATUS_DESCRIPTIONS
    ensures |MEMBERSHIP_RENEWAL_STATUS_DESCRIPTIONS| == 5
  {
    MembershipRenewalCodesAll();
  }

  /** Every description in every table is a non-empty sentence. */
  lemma LoanExtensionDescriptionsNonEmpty(c: LoanExtensionStatus)
    ensures c in LOAN_EXTENSION_STATUS_DESCRIPTIONS && |LOAN_EXTENSION_STATUS_DESCRIPTIONS[c]| > 0
  {
  }

  lemma LoanReturnDescriptionsNonEmpty(c: LoanReturnStatus)
    ensures c in LOAN_RETURN_STATUS_DESCRIPTIONS && |LOAN_RETURN_STATUS_DESCRIPTIONS[c]| > 0
  {
  }

  lemma MembershipRenewalDescriptionsNonEmpty(c: MembershipRenewalStatus)
    ensures c in MEMBERSHIP_RENEWAL_STATUS_DESCRIPTIONS && |MEMBERSHIP_RENEWAL_STATUS_DESCRIPTIONS[c]| > 0
  {
  }

  /**
   * The description of a status value. Null gives the empty string, a known
   * status the entry of its category's table (the lookup never misses), and a
   * value of any other enumeration its own name.
   */
  function GetDescription(value: StatusValue): (r: string)
    ensures value.Null? ==> r == ""
    ensures value.LoanExtension? ==>
      value.extension in LOAN_EXTENSION_STATUS_DESCRIPTIONS
      && r == LOAN_EXTENSION_STATUS_DESCRIPTIONS[value.extension]
    ensures value.LoanReturn? ==>
      value.loanReturn in LOAN_RETURN_STATUS_DESCRIPTIONS
      && r == LOAN_RETURN_STATUS_DESCRIPTIONS[value.loanReturn]
    ensures value.MembershipRenewal? ==>
      value.renewal in MEMBERSHIP_RENEWAL_STATUS_DESCRIPTIONS
      && r == MEMBERSHIP_RENEWAL_STATUS_DESCRIPTIONS[value.renewal]
    ensures value.OtherEnum? ==> r == value.name
    ensures r == "" <==> value.Null? || (value.OtherEnum? && value.name == "")
  {
    match value
    case Null => ""
    case MembershipRenewal(status) =>
      MembershipRenewalDescriptionsNonEmpty(status);
      MEMBERSHIP_RENEWAL_STATUS_DESCRIPTIONS[status]
    case LoanReturn(status) =>
      LoanReturnDescriptionsNonEmpty(status);
      LOAN_RETURN_STATUS_DESCRIPTIONS[status]
    case LoanExtension(status) =>
      LoanExtensionDescriptionsNonEmpty(status);
      LOAN_EXTENSION_STATUS_DESCRIPTIONS[status]
    case OtherEnum(name) => name
  }
}

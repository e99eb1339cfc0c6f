/**
 * The three status enumerations that the library's application layer reports
 * and that EnumHelper knows how to describe. Each enumeration is closed: its
 * codes are exactly the keys of the matching description table in EnumHelper.
 */
module Enums {

  /** Outcome of an attempt to extend a book loan. */
  datatype LoanExtensionStatus =
    | Success
    | LoanNotFound
    | LoanExpired
    | MembershipExpired
    | LoanReturned

  /** Outcome of an attempt to return a borrowed book. */
  datatype LoanReturnStatus =
    | Success
    | LoanNotFound
    | AlreadyReturned
    | Error

  /** Outcome of an attempt to renew a patron's membership. */
  datatype MembershipRenewalStatus =
    | Success
    | PatronNotFound
    | TooEarlyToRenew
    | LoanNotReturned
    | Error

  /** Every code of each enumeration, one set per enumeration. */
  const LOAN_EXTENSION_CODES: set<LoanExtensionStatus> := {
    LoanExtensionStatus.Success,
    LoanExtensionStatus.LoanNotFound,
    LoanExtensionStatus.LoanExpired,
    LoanExtensionStatus.MembershipExpired,
    LoanExtensionStatus.LoanReturned
  }

  const LOAN_RETURN_CODES: set<LoanReturnStatus> := {
    LoanReturnStatus.Success,
    LoanReturnStatus.LoanNotFound,
    LoanReturnStatus.AlreadyReturned,
    LoanReturnStatus.Error
  }

  const MEMBERSHIP_RENEWAL_CODES: set<MembershipRenewalStatus> := {
    MembershipRenewalStatus.Success,
    MembershipRenewalStatus.PatronNotFound,
    MembershipRenewalStatus.TooEarlyToRenew,
    MembershipRenewalStatus.LoanNotReturned,
    MembershipRenewalStatus.Error
  }

  /** The code sets really do list every value of their enumeration. */
  lemma LoanExtensionCodesAll()
    ensures forall c: LoanExtensionStatus :: c in LOAN_EXTENSION_CODES
    ensures |LOAN_EXTENSION_CODES| == 5
  {
    forall c: LoanExtensionStatus ensures c in LOAN_EXTENSION_CODES {
      match c
      case Success =>
      case LoanNotFound =>
      case LoanExpired =>
      case MembershipExpired =>
      case LoanReturned =>
    }
  }

  lemma LoanReturnCodesAll()
    ensures forall c: LoanReturnStatus :: c in LOAN_RETURN_CODES
    ensures |LOAN_RETURN_CODES| == 4
  {
    forall c: LoanReturnStatus ensures c in LOAN_RETURN_CODES {
      match c
      case Success =>
      case LoanNotFound =>
      case AlreadyReturned =>
      case Error =>
    }
  }

  lemma MembershipRenewalCodesAll()
    ensures forall c: MembershipRenewalStatus :: c in MEMBERSHIP_RENEWAL_CODES
    ensures |MEMBERSHIP_RENEWAL_CODES| == 5
  {
    forall c: MembershipRenewalStatus ensures c in MEMBERSHIP_RENEWAL_CODES {
      match c
      case Success =>
      case PatronNotFound =>
      case TooEarlyToRenew =>
      case LoanNotReturned =>
      case Error =>
    }
  }
}

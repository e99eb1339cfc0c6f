/**
 * Properties of EnumHelper.GetDescription that relate several inputs: the
 * exact sentence for every code, distinctness of descriptions inside each
 * table, and the single description that two tables share.
 */
module EnumHelperProperties {
  import opened Enums
  import opened EnumHelper

  /** The sentence for every loan extension status, literally. */
  lemma LoanExtensionDescriptions()
    ensures GetDescription(LoanExtension(LoanExtensionStatus.Success)) == "Book loan extension was successful."
    ensures GetDescription(LoanExtension(LoanExtensionStatus.LoanNotFound)) == "Loan not found."
    ensures GetDescription(LoanExtension(LoanExtensionStatus.LoanExpired))
         == "Cannot extend book loan as it already has expired. Return the book instead."
    ensures GetDescription(LoanExtension(LoanExtensionStatus.MembershipExpired))
         == "Cannot extend book loan due to expired patron's membership."
    ensures GetDescription(LoanExtension(LoanExtensionStatus.LoanReturned))
         == "Cannot extend book loan as the book is already returned."
  {
  }

  /** The sentence for every loan return status, literally. */
  lemma LoanReturnDescriptions()
    ensures GetDescription(LoanReturn(LoanReturnStatus.Success)) == "Book was successfully returned."
    ensures GetDescription(LoanReturn(LoanReturnStatus.LoanNotFound)) == "Loan not found."
    ensures GetDescription(LoanReturn(LoanReturnStatus.AlreadyReturned))
         == "Cannot return book as the book is already returned."
    ensures GetDescription(LoanReturn(LoanReturnStatus.Error)) == "Cannot return book due to an error."
  {
  }

  /** The sentence for every membership renewal status, literally. */
  lemma MembershipRenewalDescriptions()
    ensures GetDescription(MembershipRenewal(MembershipRenewalStatus.Success)) == "Membership renewal was successful."
    ensures GetDescription(MembershipRenewal(MembershipRenewalStatus.PatronNotFound)) == "Patron not found."
    ensures GetDescription(MembershipRenewal(MembershipRenewalStatus.TooEarlyToRenew))
         == "It is too early to renew the membership."
    ensures GetDescription(MembershipRenewal(MembershipRenewalStatus.LoanNotReturned))
         == "Cannot renew membership due to an outstanding loan."
    ensures GetDescription(MembershipRenewal(MembershipRenewalStatus.Error))
         == "Cannot renew membership due to an error."
  {
  }

  /** Inside one category, the description determines the code. */
  lemma LoanExtensionDescriptionIdentifiesCode(a: LoanExtensionStatus, b: LoanExtensionStatus)
    ensures GetDescription(LoanExtension(a)) == GetDescription(LoanExtension(b)) <==> a == b
  {
  }

  lemma LoanReturnDescriptionIdentifiesCode(a: LoanReturnStatus, b: LoanReturnStatus)
    ensures GetDescription(LoanReturn(a)) == GetDescription(LoanReturn(b)) <==> a == b
  {
  }

  lemma MembershipRenewalDescriptionIdentifiesCode(a: MembershipRenewalStatus, b: MembershipRenewalStatus)
    ensures GetDescription(MembershipRenewal(a)) == GetDescription(MembershipRenewal(b)) <==> a == b
  {
  }

  /**
   * Across categories the only shared sentence is "Loan not found.", which a
   * loan extension and a loan return report alike; membership renewal
   * sentences are never those of the other two categories.
   */
  lemma CrossCategoryDescriptions(e: LoanExtensionStatus, r: LoanReturnStatus, m: MembershipRenewalStatus)
    ensures GetDescription(LoanExtension(e)) == GetDescription(LoanReturn(r))
        <==> e == LoanExtensionStatus.LoanNotFound && r == LoanReturnStatus.LoanNotFound
    ensures GetDescription(LoanExtension(e)) != GetDescription(MembershipRenewal(m))
    ensures GetDescription(LoanReturn(r)) != GetDescription(MembershipRenewal(m))
  {
  }

  /**
   * Two known statuses share a description exactly when they are the same
   * status, or when they are the loan extension and the loan return
   * LoanNotFound codes.
   */
  lemma KnownStatusDescriptionsCollideOnlyOnLoanNotFound(v: StatusValue, w: StatusValue)
    requires IsKnownStatus(v) && IsKnownStatus(w)
    ensures GetDescription(v) == GetDescription(w) <==> (v == w || IsSharedLoanNotFoundPair(v, w))
  {
    match (v, w)
    case (LoanExtension(a), LoanExtension(b)) => LoanExtensionDescriptionIdentifiesCode(a, b);
    case (LoanReturn(a), LoanReturn(b)) => LoanReturnDescriptionIdentifiesCode(a, b);
    case (MembershipRenewal(a), MembershipRenewal(b)) => MembershipRenewalDescriptionIdentifiesCode(a, b);
    case (LoanExtension(e), LoanReturn(r)) => CrossCategoryDescriptions(e, r, MembershipRenewalStatus.Success);
    case (LoanReturn(r), LoanExtension(e)) => CrossCategoryDescriptions(e, r, MembershipRenewalStatus.Success);
    case (LoanExtension(e), MembershipRenewal(m)) => CrossCategoryDescriptions(e, LoanReturnStatus.Success, m);
    case (MembershipRenewal(m), LoanExtension(e)) => CrossCategoryDescriptions(e, LoanReturnStatus.Success, m);
    case (LoanReturn(r), MembershipRenewal(m)) => CrossCategoryDescriptions(LoanExtensionStatus.Success, r, m);
    case (MembershipRenewal(m), LoanReturn(r)) => CrossCategoryDescriptions(LoanExtensionStatus.Success, r, m);
  }

  /** The one pair of known statuses, in either order, whose descriptions coincide. */
  predicate IsSharedLoanNotFoundPair(v: StatusValue, w: StatusValue)
  {
    || (v == LoanExtension(LoanExtensionStatus.LoanNotFound) && w == LoanReturn(LoanReturnStatus.LoanNotFound))
    || (v == LoanReturn(LoanReturnStatus.LoanNotFound) && w == LoanExtension(LoanExtensionStatus.LoanNotFound))
  }
}

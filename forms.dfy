/**
 * The submit handlers of the three entry pages: each looks up what the page was
 * opened for, runs its check, and only on success calls the store.
 */
module Forms {
  import opened Wrappers
  import opened Records
  import opened Derived
  import opened Cascade
  import opened Validation
  import opened Store

  /** `AddCustomerPage.handleSubmit`: add the trimmed customer, or report why not and change nothing. */
  method SubmitCustomer(store: DataStore, name: string, email: string, phone: string)
      returns (outcome: Result<Id, CustomerError>)
    requires store.Valid()
    modifies store
    ensures store.Valid()
    ensures match ValidateCustomer(name, email, phone)
      case Failure(e) => outcome == Failure(e) && unchanged(store)
      case Success(f) =>
        && outcome.Success?
        && store.customers == old(store.customers) + [Customer(outcome.value, f.name, f.email, f.phone)]
        && (forall c :: c in old(store.customers) ==> c.id != outcome.value)
        && store.loans == old(store.loans) && store.repayments == old(store.repayments)
    ensures old(store.Sound()) ==> store.Sound()
  {
    match ValidateCustomer(name, email, phone)
    case Failure(e) =>
      outcome := Failure(e);
    case Success(f) =>
      var id := store.AddCustomer(f.name, f.email, f.phone);
      outcome := Success(id);
  }

  /**
   * `AddLoanPage.handleSubmit`: for a listed customer, add the checked loan issued `today`;
   * otherwise report why not and change nothing.
   */
  method SubmitLoan(store: DataStore, customerId: Id, itemSold: string, amount: AmountField, dueDate: DateField, today: Time)
      returns (outcome: Result<Id, LoanError>)
    requires store.Valid()
    modifies store
    ensures store.Valid()
    ensures FindCustomer(old(store.customers), customerId).None? ==>
              outcome == Failure(CustomerNotFound) && unchanged(store)
    ensures FindCustomer(old(store.customers), customerId).Some? ==>
              match ValidateLoan(itemSold, amount, dueDate)
              case Failure(e) => outcome == Failure(e) && unchanged(store)
              case Success(f) =>
                && outcome.Success?
                && store.loans == old(store.loans) + [Loan(outcome.value, customerId, f.itemSold, f.amount, today, f.dueDate)]
                && (forall l :: l in old(store.loans) ==> l.id != outcome.value)
                && store.customers == old(store.customers) && store.repayments == old(store.repayments)
    ensures old(store.Sound()) ==> store.Sound()
  {
    var customer := FindCustomer(store.customers, customerId);
    if customer.None? {
      return Failure(CustomerNotFound);
    }
    match ValidateLoan(itemSold, amount, dueDate)
    case Failure(e) =>
      outcome := Failure(e);
    case Success(f) =>
      var id := store.AddLoan(customerId, f.itemSold, f.amount, today, f.dueDate);
      outcome := Success(id);
  }

  /**
   * `RecordRepaymentPage.handleSubmit`: for a listed loan, add the checked repayment;
   * otherwise report why not and change nothing. An accepted repayment lowers that
   * loan's balance by its amount and leaves it at zero or above.
   */
  method SubmitRepayment(store: DataStore, loanId: Id, amount: AmountField, date: Option<Time>)
      returns (outcome: Result<Id, RepaymentError>)
    requires store.Valid()
    modifies store
    ensures store.Valid()
    ensures FindLoan(old(store.loans), loanId).None? ==>
              outcome == Failure(LoanNotFound) && unchanged(store)
    ensures FindLoan(old(store.loans), loanId).Some? ==>
              var loan := FindLoan(old(store.loans), loanId).value;
              match ValidateRepayment(LoanBalance(loan, old(store.repayments)), amount, date)
              case Failure(e) => outcome == Failure(e) && unchanged(store)
              case Success(f) =>
                && outcome.Success?
                && store.repayments == old(store.repayments) + [Repayment(outcome.value, loanId, f.amount, f.date)]
                && (forall r :: r in old(store.repayments) ==> r.id != outcome.value)
                && store.customers == old(store.customers) && store.loans == old(store.loans)
                && LoanBalance(loan, store.repayments) == LoanBalance(loan, old(store.repayments)) - f.amount
                && LoanBalance(loan, store.repayments) >= 0
    ensures old(store.Sound()) ==> store.Sound()
  {
    var found := FindLoan(store.loans, loanId);
    if found.None? {
      return Failure(LoanNotFound);
    }
    var loan := found.value;
    var currentBalance := LoanBalance(loan, store.repayments);
    match ValidateRepayment(currentBalance, amount, date)
    case Failure(e) =>
      outcome := Failure(e);
    case Success(f) =>
      ghost var cs, ls, rs := store.customers, store.loans, store.repayments;
      var id := store.AddRepayment(loanId, f.amount, f.date);
      outcome := Success(id);
      if Consistent(cs, ls, rs) {
        AddRepaymentKeepsConsistency(cs, ls, rs, Repayment(id, loanId, f.amount, f.date));
      }
  }
}

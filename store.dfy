/**
 * The ledger store: three ordered lists that the adds and deletes replace with
 * an appended or a filtered copy, and the per-customer aggregation loop.
 */
module Store {
  import opened Wrappers
  import opened Records
  import opened Derived
  import opened Cascade

  class DataStore {
    var customers: seq<Customer>
    var loans: seq<Loan>
    var repayments: seq<Repayment>
    /** The next id to hand out; every id in use is below it. */
    var nextId: Id

    /** Ids are fresh when handed out, so each one names a single record of its list. */
    ghost predicate Valid()
      reads this
    {
      && UniqueCustomerIds(customers)
      && UniqueLoanIds(loans)
      && UniqueRepaymentIds(repayments)
      && (forall c :: c in customers ==> c.id < nextId)
      && (forall l :: l in loans ==> l.id < nextId)
      && (forall r :: r in repayments ==> r.id < nextId)
    }

    /** The lists as every form submission leaves them; see Cascade.Consistent. */
    ghost predicate Sound()
      reads this
    {
      Consistent(customers, loans, repayments)
    }

    constructor ()
      ensures Valid() && Sound()
      ensures customers == [] && loans == [] && repayments == []
    {
      customers, loans, repayments := [], [], [];
      nextId := 0;
    }

    /** `addCustomer`: append the customer under a fresh id. */
    method AddCustomer(name: string, email: string, phone: string) returns (id: Id)
      requires Valid()
      modifies this
      ensures Valid()
      ensures customers == old(customers) + [Customer(id, name, email, phone)]
      ensures forall c :: c in old(customers) ==> c.id != id
      ensures loans == old(loans) && repayments == old(repayments)
      ensures old(Sound()) ==> Sound()
    {
      id := nextId;
      nextId := nextId + 1;
      if Sound() {
        AddCustomerKeepsConsistency(customers, loans, repayments, Customer(id, name, email, phone));
      }
      customers := customers + [Customer(id, name, email, phone)];
    }

    /** `addLoan`: append the loan under a fresh id; the store itself checks nothing. */
    method AddLoan(customerId: Id, itemSold: string, amount: Money, date: Time, dueDate: Time) returns (id: Id)
      requires Valid()
      modifies this
      ensures Valid()
      ensures loans == old(loans) + [Loan(id, customerId, itemSold, amount, date, dueDate)]
      ensures forall l :: l in old(loans) ==> l.id != id
      ensures customers == old(customers) && repayments == old(repayments)
      ensures old(Sound()) && HasCustomer(customers, customerId) && amount > 0 ==> Sound()
    {
      id := nextId;
      nextId := nextId + 1;
      var loan := Loan(id, customerId, itemSold, amount, date, dueDate);
      if Sound() && HasCustomer(customers, customerId) && amount > 0 {
        AddLoanKeepsConsistency(customers, loans, repayments, loan);
      }
      loans := loans + [loan];
    }

    /** `addRepayment`: append the repayment under a fresh id; the store itself checks nothing. */
    method AddRepayment(loanId: Id, amount: Money, date: Time) returns (id: Id)
      requires Valid()
      modifies this
      ensures Valid()
      ensures repayments == old(repayments) + [Repayment(id, loanId, amount, date)]
      ensures forall r :: r in old(repayments) ==> r.id != id
      ensures customers == old(customers) && loans == old(loans)
      ensures forall l :: l in loans ==>
                LoanBalance(l, repayments) == LoanBalance(l, old(repayments)) - (if l.id == loanId then amount else 0)
    {
      id := nextId;
      nextId := nextId + 1;
      var r := Repayment(id, loanId, amount, date);
      forall l | l in loans
        ensures LoanBalance(l, repayments + [r]) == LoanBalance(l, repayments) - (if l.id == loanId then amount else 0)
      {
        BalanceAfterRepayment(l, repayments, r);
      }
      repayments := repayments + [r];
    }

    /** `deleteCustomer`: drop the customer, its loans, and the repayments of those loans. */
    method DeleteCustomer(customerId: Id)
      requires Valid()
      modifies this
      ensures Valid()
      ensures customers == DropCustomer(old(customers), customerId)
      ensures loans == DropCustomerLoans(old(loans), customerId)
      ensures repayments == DropRepaymentsOf(old(repayments), LoansToDelete(old(loans), customerId))
      ensures nextId == old(nextId)
      ensures old(Linked(customers, loans, repayments)) ==> Linked(customers, loans, repayments)
      ensures old(Sound()) ==> Sound()
    {
      var loansToDelete := LoansToDelete(loans, customerId);
      if Linked(customers, loans, repayments) {
        DeleteCustomerLeavesNoOrphans(customers, loans, repayments, customerId);
      }
      if Sound() {
        DeleteCustomerKeepsConsistency(customers, loans, repayments, customerId);
      }
      repayments := DropRepaymentsOf(repayments, loansToDelete);
      loans := DropCustomerLoans(loans, customerId);
      customers := DropCustomer(customers, customerId);
    }

    /** `deleteLoan`: drop the loan and exactly its repayments. */
    method DeleteLoan(loanId: Id)
      requires Valid()
      modifies this
      ensures Valid()
      ensures customers == old(customers)
      ensures loans == DropLoan(old(loans), loanId)
      ensures repayments == DropLoanRepayments(old(repayments), loanId)
      ensures nextId == old(nextId)
      ensures old(Linked(customers, loans, repayments)) ==> Linked(customers, loans, repayments)
      ensures old(Sound()) ==> Sound()
    {
      if Linked(customers, loans, repayments) {
        DeleteLoanLeavesNoOrphans(customers, loans, repayments, loanId);
      }
      if Sound() {
        DeleteLoanKeepsConsistency(customers, loans, repayments, loanId);
      }
      repayments := DropLoanRepayments(repayments, loanId);
      loans := DropLoan(loans, loanId);
    }

    /** `deleteRepayment`: drop only the repayments with that id. */
    method DeleteRepayment(repaymentId: Id)
      requires Valid()
      modifies this
      ensures Valid()
      ensures customers == old(customers) && loans == old(loans)
      ensures repayments == DropRepayment(old(repayments), repaymentId)
      ensures nextId == old(nextId)
      ensures old(Sound()) ==> Sound()
    {
      if Sound() {
        DeleteRepaymentKeepsConsistency(customers, loans, repayments, repaymentId);
      }
      repayments := DropRepayment(repayments, repaymentId);
    }

    /**
     * `getCustomerData`: walk the customer's loans once, adding up what is owed,
     * noting whether any owed loan is past due and keeping the earliest due date.
     */
    method GetCustomerData(customerId: Id, now: Time) returns (view: Option<CustomerView>)
      ensures view == CustomerData(customers, loans, repayments, customerId, now)
    {
      var customer := FindCustomer(customers, customerId);
      if customer.None? {
        return None;
      }
      var customerLoans := CustomerLoans(loans, customerId);
      var outstandingBalance := 0;
      var nextDueDate: Option<Time> := None;
      var isOverdue := false;
      var i := 0;
      while i < |customerLoans|
        invariant 0 <= i <= |customerLoans|
        invariant outstandingBalance == Outstanding(customerLoans[..i], repayments)
        invariant nextDueDate == NextDue(customerLoans[..i], repayments)
        invariant isOverdue == AnyOverdue(customerLoans[..i], repayments, now)
      {
        AccumulateStep(customerLoans, repayments, now, i);
        var loan := customerLoans[i];
        var balance := LoanBalance(loan, repayments);
        if balance > 0 {
          outstandingBalance := outstandingBalance + balance;
          if loan.dueDate < now {
            isOverdue := true;
          }
          if nextDueDate.None? || loan.dueDate < nextDueDate.value {
            nextDueDate := Some(loan.dueDate);
          }
        }
        i := i + 1;
      }
      assert customerLoans[..i] == customerLoans;
      var status := if isOverdue then Overdue else if outstandingBalance > 0 then Due else Paid;
      view := Some(CustomerView(customer.value, outstandingBalance, nextDueDate, status, isOverdue));
    }
  }
}

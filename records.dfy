/**
 * The three record kinds the ledger stores: customers, loans (credit sales)
 * and repayments against a loan.
 *
 * Amounts are integers in the smallest currency unit (paise). Dates and the
 * current time are integer instants on one clock; a due date is the instant
 * its calendar date denotes, so "due date before now" compares two instants.
 * Ids are naturals handed out by the store's counter.
 */
module Records {

  type Id = nat
  type Money = int
  type Time = int

  datatype Customer = Customer(id: Id, name: string, email: string, phone: string)

  /** A credit sale: `amount` is the principal, `date` the issue date, `dueDate` when it falls due. */
  datatype Loan = Loan(id: Id, customerId: Id, itemSold: string, amount: Money, date: Time, dueDate: Time)

  datatype Repayment = Repayment(id: Id, loanId: Id, amount: Money, date: Time)

  /** An id names at most one customer. */
  predicate UniqueCustomerIds(cs: seq<Customer>) {
    forall a, b :: a in cs && b in cs && a.id == b.id ==> a == b
  }

  /** An id names at most one loan. */
  predicate UniqueLoanIds(ls: seq<Loan>) {
    forall a, b :: a in ls && b in ls && a.id == b.id ==> a == b
  }

  /** An id names at most one repayment. */
  predicate UniqueRepaymentIds(rs: seq<Repayment>) {
    forall a, b :: a in rs && b in rs && a.id == b.id ==> a == b
  }
}

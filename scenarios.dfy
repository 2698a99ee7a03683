/**
 * The worked examples of the ledger, on concrete lists. Amounts are in paise:
 * 100000 is one thousand rupees.
 */
module Scenarios {
  import opened Wrappers
  import opened Records
  import opened Seqs
  import opened Derived
  import opened Validation

  /** The sample loan of 1000 with 400 repaid against it has a balance of 600. */
  lemma SampleBalance(today: Time)
    ensures var loan := Loan(1, 0, "Tailoring Service", 100000, today - 30, today - 1);
      LoanBalance(loan, [Repayment(2, 1, 40000, today - 10)]) == 60000
  {
    var rs := [Repayment(2, 1, 40000, today - 10)];
    FilterKeepsAll(rs, RepaymentOf(1));
    assert rs[..0] == [];
  }

  /**
   * A customer owes 1000 on a loan that fell due yesterday and has repaid 400: the loan's
   * balance is 600 and it is overdue, and the customer is Overdue with 600 outstanding.
   */
  lemma OverdueCustomer(today: Time)
    ensures var c := Customer(0, "Sunita Sharma", "sunita@example.com", "9876543211");
      var loan := Loan(1, 0, "Tailoring Service", 100000, today - 30, today - 1);
      var rs := [Repayment(2, 1, 40000, today - 10)];
      && LoanBalance(loan, rs) == 60000
      && IsLoanOverdue(loan, rs, today)
      && CustomerData([c], [loan], rs, 0, today) == Some(CustomerView(c, 60000, Some(today - 1), Overdue, true))
  {
    var loan := Loan(1, 0, "Tailoring Service", 100000, today - 30, today - 1);
    var rs := [Repayment(2, 1, 40000, today - 10)];
    SampleBalance(today);
    FilterKeepsAll([loan], LoanOf(0));
    assert [loan][..0] == [];
    assert CustomerLoans([loan], 0) == [loan];
    assert Outstanding([loan], rs) == 60000;
    assert NextDue([loan], rs) == Some(today - 1);
    assert AnyOverdue([loan], rs, today);
  }

  /**
   * Against that balance of 600, a repayment of 700 is refused with the remaining balance,
   * while one of 600 is accepted and clears the loan.
   */
  lemma RepaymentAboveBalance(today: Time)
    ensures var loan := Loan(1, 0, "Tailoring Service", 100000, today - 30, today - 1);
      var rs := [Repayment(2, 1, 40000, today - 10)];
      && ValidateRepayment(LoanBalance(loan, rs), Amount(70000), Some(today)) == Failure(ExceedsBalance(60000))
      && ValidateRepayment(LoanBalance(loan, rs), Amount(60000), Some(today)).Success?
      && LoanBalance(loan, rs + [Repayment(3, 1, 60000, today)]) == 0
  {
    var loan := Loan(1, 0, "Tailoring Service", 100000, today - 30, today - 1);
    var rs := [Repayment(2, 1, 40000, today - 10)];
    SampleBalance(today);
    var b := LoanBalance(loan, rs);
    assert ValidateRepayment(b, Amount(70000), Some(today)) == Failure(ExceedsBalance(60000));
    BalanceAfterRepayment(loan, rs, Repayment(3, 1, 60000, today));
  }

  /** A blank name is refused. */
  lemma BlankNameRefused()
    ensures ValidateCustomer("   ", "", "") == Failure(NameRequired)
  {
    assert IsBlank("   ");
  }
}

/**
 * The list rewrites behind the store's deletes, and the integrity of the three
 * lists: every loan belongs to a listed customer, every repayment to a listed
 * loan, amounts are positive and no loan is overpaid.
 */
module Cascade {
  import opened Seqs
  import opened Records
  import opened Derived

  // ---- The filters the deletes apply ----

  /** Whether a customer is not the one with the given id. */
  function CustomerOtherThan(id: Id): Customer -> bool {
    (c: Customer) => c.id != id
  }

  /** The customers other than the deleted one, in their order. */
  function DropCustomer(cs: seq<Customer>, id: Id): (r: seq<Customer>)
    ensures forall c :: c in r <==> c in cs && c.id != id
  {
    Filter(cs, CustomerOtherThan(id))
  }

  /** Whether a loan belongs to some customer other than the given one. */
  function LoanNotOf(customerId: Id): Loan -> bool {
    (l: Loan) => l.customerId != customerId
  }

  /** The loans of every customer but the deleted one, in their order. */
  function DropCustomerLoans(ls: seq<Loan>, customerId: Id): (r: seq<Loan>)
    ensures forall l :: l in r <==> l in ls && l.customerId != customerId
  {
    Filter(ls, LoanNotOf(customerId))
  }

  /** The ids of the loans, in the loans' order. */
  function LoanIds(ls: seq<Loan>): (ids: seq<Id>)
    ensures |ids| == |ls|
    ensures forall i :: 0 <= i < |ls| ==> ids[i] == ls[i].id
  {
    seq(|ls|, i requires 0 <= i < |ls| => ls[i].id)
  }

  /** The ids `deleteCustomer` collects before it filters anything: those of the customer's loans. */
  function LoansToDelete(ls: seq<Loan>, customerId: Id): (ids: seq<Id>)
    ensures forall x :: x in ids <==> exists l :: l in ls && l.customerId == customerId && l.id == x
  {
    var mine := CustomerLoans(ls, customerId);
    var ids := LoanIds(mine);
    assert forall x :: x in ids ==> exists i :: 0 <= i < |mine| && mine[i].id == x;
    assert forall l :: l in mine ==> exists i :: 0 <= i < |mine| && mine[i] == l;
    ids
  }

  /** Whether a repayment was recorded against none of the given loans. */
  function RepaymentNotIn(loanIds: seq<Id>): Repayment -> bool {
    (r: Repayment) => r.loanId !in loanIds
  }

  /** The repayments against loans outside the collected ids, in their order. */
  function DropRepaymentsOf(rs: seq<Repayment>, loanIds: seq<Id>): (r: seq<Repayment>)
    ensures forall x :: x in r <==> x in rs && x.loanId !in loanIds
  {
    Filter(rs, RepaymentNotIn(loanIds))
  }

  /** Whether a loan is not the one with the given id. */
  function LoanOtherThan(id: Id): Loan -> bool {
    (l: Loan) => l.id != id
  }

  /** The loans other than the deleted one, in their order. */
  function DropLoan(ls: seq<Loan>, id: Id): (r: seq<Loan>)
    ensures forall l :: l in r <==> l in ls && l.id != id
  {
    Filter(ls, LoanOtherThan(id))
  }

  /** Whether a repayment was recorded against some loan other than the given one. */
  function RepaymentNotOf(loanId: Id): Repayment -> bool {
    (r: Repayment) => r.loanId != loanId
  }

  /** The repayments against every loan but the deleted one, in their order. */
  function DropLoanRepayments(rs: seq<Repayment>, loanId: Id): (r: seq<Repayment>)
    ensures forall x :: x in r <==> x in rs && x.loanId != loanId
  {
    Filter(rs, RepaymentNotOf(loanId))
  }

  /** Whether a repayment is not the one with the given id. */
  function RepaymentOtherThan(id: Id): Repayment -> bool {
    (r: Repayment) => r.id != id
  }

  /** The repayments other than the deleted one, in their order. */
  function DropRepayment(rs: seq<Repayment>, id: Id): (r: seq<Repayment>)
    ensures forall x :: x in r <==> x in rs && x.id != id
  {
    Filter(rs, RepaymentOtherThan(id))
  }

  // ---- Integrity of the lists ----

  predicate HasCustomer(cs: seq<Customer>, id: Id) {
    exists c :: c in cs && c.id == id
  }

  predicate HasLoan(ls: seq<Loan>, id: Id) {
    exists l :: l in ls && l.id == id
  }

  /** No loan points to a missing customer and no repayment to a missing loan. */
  predicate Linked(cs: seq<Customer>, ls: seq<Loan>, rs: seq<Repayment>) {
    && (forall l :: l in ls ==> HasCustomer(cs, l.customerId))
    && (forall r :: r in rs ==> HasLoan(ls, r.loanId))
  }

  /** What the forms guarantee of the lists: linked, positive amounts, and no loan repaid beyond its principal. */
  predicate Consistent(cs: seq<Customer>, ls: seq<Loan>, rs: seq<Repayment>) {
    && Linked(cs, ls, rs)
    && (forall l :: l in ls ==> l.amount > 0)
    && (forall r :: r in rs ==> r.amount > 0)
    && (forall l :: l in ls ==> LoanBalance(l, rs) >= 0)
  }

  // ---- Balances under removal of repayments ----

  /** Removing only positive repayments never lowers a balance. */
  lemma {:induction false} RepaidAfterFilterAtMost(rs: seq<Repayment>, keep: Repayment -> bool, loanId: Id)
    requires forall x :: x in rs ==> x.amount > 0
    ensures RepaidTo(Filter(rs, keep), loanId) <= RepaidTo(rs, loanId)
    decreases |rs|
  {
    if rs != [] {
      var init, last := rs[..|rs| - 1], rs[|rs| - 1];
      assert rs == init + [last];
      RepaidAfterFilterAtMost(init, keep, loanId);
      FilterSnoc(init, last, keep);
      RepaidToSnoc(init, last, loanId);
      if keep(last) {
        RepaidToSnoc(Filter(init, keep), last, loanId);
      }
    }
  }

  /** A filter that keeps every repayment of a loan leaves that loan's repaid total unchanged. */
  lemma {:induction false} RepaidAfterFilterSame(rs: seq<Repayment>, keep: Repayment -> bool, loanId: Id)
    requires forall x :: x in rs && x.loanId == loanId ==> keep(x)
    ensures RepaidTo(Filter(rs, keep), loanId) == RepaidTo(rs, loanId)
    decreases |rs|
  {
    if rs != [] {
      var init, last := rs[..|rs| - 1], rs[|rs| - 1];
      assert rs == init + [last];
      assert forall x :: x in init ==> x in rs;
      RepaidAfterFilterSame(init, keep, loanId);
      FilterSnoc(init, last, keep);
      RepaidToSnoc(init, last, loanId);
      if keep(last) {
        RepaidToSnoc(Filter(init, keep), last, loanId);
      } else {
        assert last.loanId != loanId;
      }
    }
  }

  /** Balances do not drop when positive repayments are removed. */
  lemma BalanceAfterFilterAtLeast(loan: Loan, rs: seq<Repayment>, keep: Repayment -> bool)
    requires forall x :: x in rs ==> x.amount > 0
    ensures LoanBalance(loan, Filter(rs, keep)) >= LoanBalance(loan, rs)
  {
    BalanceIsPrincipalLessRepaid(loan, rs);
    BalanceIsPrincipalLessRepaid(loan, Filter(rs, keep));
    RepaidAfterFilterAtMost(rs, keep, loan.id);
  }

  /** Balances are unchanged when none of the loan's repayments is removed. */
  lemma BalanceAfterFilterSame(loan: Loan, rs: seq<Repayment>, keep: Repayment -> bool)
    requires forall x :: x in rs && x.loanId == loan.id ==> keep(x)
    ensures LoanBalance(loan, Filter(rs, keep)) == LoanBalance(loan, rs)
  {
    BalanceIsPrincipalLessRepaid(loan, rs);
    BalanceIsPrincipalLessRepaid(loan, Filter(rs, keep));
    RepaidAfterFilterSame(rs, keep, loan.id);
  }

  // ---- deleteCustomer ----

  /**
   * After `deleteCustomer` no loan of that customer is left, no repayment points to one of
   * its loans, and nothing is left pointing to a deleted record.
   */
  lemma DeleteCustomerLeavesNoOrphans(cs: seq<Customer>, ls: seq<Loan>, rs: seq<Repayment>, id: Id)
    requires Linked(cs, ls, rs)
    ensures var rs' := DropRepaymentsOf(rs, LoansToDelete(ls, id));
      && Linked(DropCustomer(cs, id), DropCustomerLoans(ls, id), rs')
      && (forall l :: l in DropCustomerLoans(ls, id) ==> l.customerId != id)
      && (forall r :: r in rs' ==> forall l :: l in ls && l.id == r.loanId ==> l.customerId != id)
  {
    var cs', ls' := DropCustomer(cs, id), DropCustomerLoans(ls, id);
    var doomed := LoansToDelete(ls, id);
    var rs' := DropRepaymentsOf(rs, doomed);
    forall l | l in ls' ensures HasCustomer(cs', l.customerId) {
      var c :| c in cs && c.id == l.customerId;
      assert c in cs';
    }
    forall r | r in rs' ensures HasLoan(ls', r.loanId) {
      var l :| l in ls && l.id == r.loanId;
      assert l in ls';
    }
  }

  /** `deleteCustomer` keeps the lists consistent. */
  lemma DeleteCustomerKeepsConsistency(cs: seq<Customer>, ls: seq<Loan>, rs: seq<Repayment>, id: Id)
    requires Consistent(cs, ls, rs)
    ensures Consistent(DropCustomer(cs, id), DropCustomerLoans(ls, id), DropRepaymentsOf(rs, LoansToDelete(ls, id)))
  {
    DeleteCustomerLeavesNoOrphans(cs, ls, rs, id);
    var keep := RepaymentNotIn(LoansToDelete(ls, id));
    forall l | l in DropCustomerLoans(ls, id) ensures LoanBalance(l, Filter(rs, keep)) >= 0 {
      BalanceAfterFilterAtLeast(l, rs, keep);
    }
  }

  /** With unique loan ids, `deleteCustomer` leaves the balance of every other customer's loan unchanged. */
  lemma DeleteCustomerKeepsOtherBalances(ls: seq<Loan>, rs: seq<Repayment>, id: Id, loan: Loan)
    requires UniqueLoanIds(ls)
    requires loan in ls && loan.customerId != id
    ensures LoanBalance(loan, DropRepaymentsOf(rs, LoansToDelete(ls, id))) == LoanBalance(loan, rs)
  {
    var doomed := LoansToDelete(ls, id);
    BalanceAfterFilterSame(loan, rs, RepaymentNotIn(doomed));
  }

  // ---- deleteLoan and deleteRepayment ----

  /** After `deleteLoan` no repayment of that loan is left and nothing points to a missing loan. */
  lemma DeleteLoanLeavesNoOrphans(cs: seq<Customer>, ls: seq<Loan>, rs: seq<Repayment>, id: Id)
    requires Linked(cs, ls, rs)
    ensures Linked(cs, DropLoan(ls, id), DropLoanRepayments(rs, id))
  {
    var ls', rs' := DropLoan(ls, id), DropLoanRepayments(rs, id);
    forall r | r in rs' ensures HasLoan(ls', r.loanId) {
      var l :| l in ls && l.id == r.loanId;
      assert l in ls';
    }
  }

  /** `deleteLoan` keeps the lists consistent and leaves the balance of every other loan unchanged. */
  lemma DeleteLoanKeepsConsistency(cs: seq<Customer>, ls: seq<Loan>, rs: seq<Repayment>, id: Id)
    requires Consistent(cs, ls, rs)
    ensures Consistent(cs, DropLoan(ls, id), DropLoanRepayments(rs, id))
    ensures forall l :: l in ls && l.id != id ==> LoanBalance(l, DropLoanRepayments(rs, id)) == LoanBalance(l, rs)
  {
    DeleteLoanLeavesNoOrphans(cs, ls, rs, id);
    forall l | l in ls && l.id != id ensures LoanBalance(l, DropLoanRepayments(rs, id)) == LoanBalance(l, rs) {
      BalanceAfterFilterSame(l, rs, RepaymentNotOf(id));
    }
  }

  /** `deleteRepayment` keeps the lists consistent. */
  lemma DeleteRepaymentKeepsConsistency(cs: seq<Customer>, ls: seq<Loan>, rs: seq<Repayment>, id: Id)
    requires Consistent(cs, ls, rs)
    ensures Consistent(cs, ls, DropRepayment(rs, id))
  {
    forall l | l in ls ensures LoanBalance(l, DropRepayment(rs, id)) >= 0 {
      BalanceAfterFilterAtLeast(l, rs, RepaymentOtherThan(id));
    }
  }

  // ---- Adds, and deletes as their inverses ----

  /** Appending a customer keeps the lists consistent. */
  lemma AddCustomerKeepsConsistency(cs: seq<Customer>, ls: seq<Loan>, rs: seq<Repayment>, c: Customer)
    requires Consistent(cs, ls, rs)
    ensures Consistent(cs + [c], ls, rs)
  {
    forall l | l in ls ensures HasCustomer(cs + [c], l.customerId) {
      var x :| x in cs && x.id == l.customerId;
      assert x in cs + [c];
    }
  }

  /** Appending a positive loan of a listed customer under a fresh id keeps the lists consistent; the new loan's balance is its principal. */
  lemma AddLoanKeepsConsistency(cs: seq<Customer>, ls: seq<Loan>, rs: seq<Repayment>, loan: Loan)
    requires Consistent(cs, ls, rs)
    requires HasCustomer(cs, loan.customerId) && loan.amount > 0
    requires forall l :: l in ls ==> l.id != loan.id
    ensures Consistent(cs, ls + [loan], rs)
    ensures LoanBalance(loan, rs) == loan.amount
  {
    forall r | r in rs ensures HasLoan(ls + [loan], r.loanId) {
      var l :| l in ls && l.id == r.loanId;
      assert l in ls + [loan];
    }
    forall r | r in rs ensures r.loanId != loan.id {
      var l :| l in ls && l.id == r.loanId;
    }
    BalanceWithoutRepayments(loan, rs);
  }

  /**
   * Appending a positive repayment to a listed loan keeps the lists consistent when it
   * does not exceed what is owed on that loan.
   */
  lemma AddRepaymentKeepsConsistency(cs: seq<Customer>, ls: seq<Loan>, rs: seq<Repayment>, r: Repayment)
    requires Consistent(cs, ls, rs)
    requires HasLoan(ls, r.loanId) && r.amount > 0
    requires forall l :: l in ls && l.id == r.loanId ==> r.amount <= LoanBalance(l, rs)
    ensures Consistent(cs, ls, rs + [r])
  {
    forall x | x in rs + [r] ensures HasLoan(ls, x.loanId) {
      if x in rs {
        var l :| l in ls && l.id == x.loanId;
      }
    }
    forall l | l in ls ensures LoanBalance(l, rs + [r]) >= 0 {
      BalanceAfterRepayment(l, rs, r);
    }
  }

  /** Deleting a customer just added, who has no loans yet, restores all three lists. */
  lemma DeleteCustomerUndoesAdd(cs: seq<Customer>, ls: seq<Loan>, rs: seq<Repayment>, c: Customer)
    requires forall x :: x in cs ==> x.id != c.id
    requires forall l :: l in ls ==> l.customerId != c.id
    ensures DropCustomer(cs + [c], c.id) == cs
    ensures DropCustomerLoans(ls, c.id) == ls
    ensures DropRepaymentsOf(rs, LoansToDelete(ls, c.id)) == rs
  {
    FilterSnoc(cs, c, CustomerOtherThan(c.id));
    FilterKeepsAll(cs, CustomerOtherThan(c.id));
    FilterKeepsAll(ls, LoanNotOf(c.id));
    FilterKeepsAll(rs, RepaymentNotIn(LoansToDelete(ls, c.id)));
  }

  /** Deleting a loan just added, which has no repayments yet, restores the lists. */
  lemma DeleteLoanUndoesAdd(ls: seq<Loan>, rs: seq<Repayment>, loan: Loan)
    requires forall l :: l in ls ==> l.id != loan.id
    requires forall r :: r in rs ==> r.loanId != loan.id
    ensures DropLoan(ls + [loan], loan.id) == ls
    ensures DropLoanRepayments(rs, loan.id) == rs
  {
    FilterSnoc(ls, loan, LoanOtherThan(loan.id));
    FilterKeepsAll(ls, LoanOtherThan(loan.id));
    FilterKeepsAll(rs, RepaymentNotOf(loan.id));
  }

  /** Deleting a repayment just added restores the repayments. */
  lemma DeleteRepaymentUndoesAdd(rs: seq<Repayment>, r: Repayment)
    requires forall x :: x in rs ==> x.id != r.id
    ensures DropRepayment(rs + [r], r.id) == rs
  {
    FilterSnoc(rs, r, RepaymentOtherThan(r.id));
    FilterKeepsAll(rs, RepaymentOtherThan(r.id));
  }
}

/**
 * The ledger's derived state, recomputed from the three lists on every read:
 * a loan's repayments and balance, whether it is overdue, its status, and
 * the per-customer aggregate shown on the dashboard.
 */
module Derived {
  import opened Wrappers
  import opened Seqs
  import opened Records

  datatype Status = Overdue | Due | Paid

  /** What the dashboard and the detail page show for one customer. */
  datatype CustomerView = CustomerView(
    customer: Customer,
    outstandingBalance: Money,
    nextDueDate: Option<Time>,
    status: Status,
    isOverdue: bool)

  // ---- Per loan ----

  /** Whether a repayment was recorded against the given loan. */
  function RepaymentOf(loanId: Id): Repayment -> bool {
    (r: Repayment) => r.loanId == loanId
  }

  /** The repayments recorded against one loan, in the order they were recorded. */
  function LoanRepayments(rs: seq<Repayment>, loanId: Id): (r: seq<Repayment>)
    ensures forall x :: x in r <==> x in rs && x.loanId == loanId
  {
    Filter(rs, RepaymentOf(loanId))
  }

  /**
   * The sum of the amounts, added left to right from zero. When every amount is positive
   * the total is never negative, is at least each amount, and is zero only for no repayments.
   */
  function TotalRepaid(rs: seq<Repayment>): (t: Money)
    ensures (forall x :: x in rs ==> x.amount > 0) ==>
              && t >= 0
              && (t == 0 <==> rs == [])
              && (forall x :: x in rs ==> x.amount <= t)
    decreases |rs|
  {
    if rs == [] then 0 else TotalRepaid(rs[..|rs| - 1]) + rs[|rs| - 1].amount
  }

  /** The amount repaid to `loanId`, computed in one pass without building the filtered list. */
  function RepaidTo(rs: seq<Repayment>, loanId: Id): Money
    decreases |rs|
  {
    if rs == [] then 0
    else RepaidTo(rs[..|rs| - 1], loanId) + (if rs[|rs| - 1].loanId == loanId then rs[|rs| - 1].amount else 0)
  }

  lemma RepaidToSnoc(rs: seq<Repayment>, x: Repayment, loanId: Id)
    ensures RepaidTo(rs + [x], loanId) == RepaidTo(rs, loanId) + (if x.loanId == loanId then x.amount else 0)
  {
    assert (rs + [x])[..|rs|] == rs;
  }

  lemma TotalRepaidSnoc(rs: seq<Repayment>, x: Repayment)
    ensures TotalRepaid(rs + [x]) == TotalRepaid(rs) + x.amount
  {
    assert (rs + [x])[..|rs|] == rs;
  }

  /** Summing the filtered list equals the one-pass conditional sum. */
  lemma {:induction false} RepaidToIsFilteredSum(rs: seq<Repayment>, loanId: Id)
    ensures TotalRepaid(LoanRepayments(rs, loanId)) == RepaidTo(rs, loanId)
    decreases |rs|
  {
    if rs != [] {
      var init, last := rs[..|rs| - 1], rs[|rs| - 1];
      assert rs == init + [last];
      RepaidToIsFilteredSum(init, loanId);
      FilterSnoc(init, last, RepaymentOf(loanId));
      TotalRepaidSnoc(LoanRepayments(init, loanId), last);
    }
  }

  /** What is still owed on a loan: its principal less every repayment recorded against it. */
  function LoanBalance(loan: Loan, rs: seq<Repayment>): Money {
    loan.amount - TotalRepaid(LoanRepayments(rs, loan.id))
  }

  /** A loan's balance is its principal minus the amounts of the repayments whose loanId is its id. */
  lemma BalanceIsPrincipalLessRepaid(loan: Loan, rs: seq<Repayment>)
    ensures LoanBalance(loan, rs) == loan.amount - RepaidTo(rs, loan.id)
  {
    RepaidToIsFilteredSum(rs, loan.id);
  }

  /** A loan no repayment points to still has its whole principal owed. */
  lemma {:induction false} BalanceWithoutRepayments(loan: Loan, rs: seq<Repayment>)
    requires forall r :: r in rs ==> r.loanId != loan.id
    ensures LoanBalance(loan, rs) == loan.amount
  {
    BalanceIsPrincipalLessRepaid(loan, rs);
    RepaidToNothing(rs, loan.id);
  }

  lemma {:induction false} RepaidToNothing(rs: seq<Repayment>, loanId: Id)
    requires forall r :: r in rs ==> r.loanId != loanId
    ensures RepaidTo(rs, loanId) == 0
    decreases |rs|
  {
    if rs != [] {
      var init := rs[..|rs| - 1];
      assert forall r :: r in init ==> r in rs;
      RepaidToNothing(init, loanId);
    }
  }

  /** Recording a repayment lowers the balance of its own loan by its amount and leaves every other loan's balance alone. */
  lemma BalanceAfterRepayment(loan: Loan, rs: seq<Repayment>, x: Repayment)
    ensures LoanBalance(loan, rs + [x]) == LoanBalance(loan, rs) - (if x.loanId == loan.id then x.amount else 0)
  {
    BalanceIsPrincipalLessRepaid(loan, rs);
    BalanceIsPrincipalLessRepaid(loan, rs + [x]);
    RepaidToSnoc(rs, x, loan.id);
  }

  /**
   * The overdue test of a loan: something is still owed and its due date has passed, that is,
   * the repayments against it fall short of its principal and its due date is before now.
   */
  predicate IsLoanOverdue(loan: Loan, rs: seq<Repayment>, now: Time): (b: bool)
    ensures b <==> RepaidTo(rs, loan.id) < loan.amount && loan.dueDate < now
  {
    BalanceIsPrincipalLessRepaid(loan, rs);
    LoanBalance(loan, rs) > 0 && loan.dueDate < now
  }

  /** The status shown for one loan on the customer page. */
  function LoanStatus(loan: Loan, rs: seq<Repayment>, now: Time): (s: Status)
    ensures s == Overdue <==> LoanBalance(loan, rs) > 0 && loan.dueDate < now
    ensures s == Paid <==> LoanBalance(loan, rs) <= 0
    ensures s == Due <==> LoanBalance(loan, rs) > 0 && now <= loan.dueDate
  {
    if IsLoanOverdue(loan, rs, now) then Overdue
    else if LoanBalance(loan, rs) <= 0 then Paid
    else Due
  }

  // ---- Per customer ----

  /** Whether a loan was given to the given customer. */
  function LoanOf(customerId: Id): Loan -> bool {
    (l: Loan) => l.customerId == customerId
  }

  /** The loans of one customer, in the order they were added. */
  function CustomerLoans(ls: seq<Loan>, customerId: Id): (r: seq<Loan>)
    ensures forall l :: l in r <==> l in ls && l.customerId == customerId
  {
    Filter(ls, LoanOf(customerId))
  }

  /** The first customer with the given id, as `Array.prototype.find` returns it. */
  function FindCustomer(cs: seq<Customer>, id: Id): (r: Option<Customer>)
    ensures r.None? <==> forall c :: c in cs ==> c.id != id
    ensures r.Some? ==> r.value in cs && r.value.id == id
  {
    if cs == [] then None
    else if cs[0].id == id then Some(cs[0])
    else FindCustomer(cs[1..], id)
  }

  /** The first loan with the given id, as `Array.prototype.find` returns it. */
  function FindLoan(ls: seq<Loan>, id: Id): (r: Option<Loan>)
    ensures r.None? <==> forall l :: l in ls ==> l.id != id
    ensures r.Some? ==> r.value in ls && r.value.id == id
  {
    if ls == [] then None
    else if ls[0].id == id then Some(ls[0])
    else FindLoan(ls[1..], id)
  }

  /** Sum of the strictly positive balances, accumulated loan by loan. */
  function Outstanding(ls: seq<Loan>, rs: seq<Repayment>): Money
    decreases |ls|
  {
    if ls == [] then 0
    else
      var b := LoanBalance(ls[|ls| - 1], rs);
      Outstanding(ls[..|ls| - 1], rs) + (if b > 0 then b else 0)
  }

  /**
   * The running "next due date": a loan with something owed replaces the date kept so
   * far when there is none yet or its due date is strictly earlier.
   */
  function NextDue(ls: seq<Loan>, rs: seq<Repayment>): Option<Time>
    decreases |ls|
  {
    if ls == [] then None
    else
      var prev := NextDue(ls[..|ls| - 1], rs);
      var l := ls[|ls| - 1];
      if LoanBalance(l, rs) > 0 && (prev.None? || l.dueDate < prev.value) then Some(l.dueDate) else prev
  }

  /** Whether some loan seen so far is overdue. */
  function AnyOverdue(ls: seq<Loan>, rs: seq<Repayment>, now: Time): bool
    decreases |ls|
  {
    if ls == [] then false
    else AnyOverdue(ls[..|ls| - 1], rs, now) || IsLoanOverdue(ls[|ls| - 1], rs, now)
  }

  /** One more loan changes the three running values exactly as one pass of the loop over the customer's loans does. */
  lemma AccumulateStep(ls: seq<Loan>, rs: seq<Repayment>, now: Time, i: nat)
    requires i < |ls|
    ensures var l, b := ls[i], LoanBalance(ls[i], rs);
      && Outstanding(ls[..i + 1], rs) == Outstanding(ls[..i], rs) + (if b > 0 then b else 0)
      && NextDue(ls[..i + 1], rs) ==
           (var prev := NextDue(ls[..i], rs);
            if b > 0 && (prev.None? || l.dueDate < prev.value) then Some(l.dueDate) else prev)
      && AnyOverdue(ls[..i + 1], rs, now) == (AnyOverdue(ls[..i], rs, now) || (b > 0 && l.dueDate < now))
  {
    assert ls[..i + 1][..i] == ls[..i];
  }

  /** The customer status: Overdue wins, then Due while anything is owed, else Paid. */
  function CustomerStatus(outstanding: Money, overdue: bool): Status {
    if overdue then Overdue else if outstanding > 0 then Due else Paid
  }

  /** `getCustomerData`: the view of one customer, or nothing when no customer has that id. */
  function CustomerData(cs: seq<Customer>, ls: seq<Loan>, rs: seq<Repayment>, id: Id, now: Time): (r: Option<CustomerView>)
    ensures r.None? <==> forall c :: c in cs ==> c.id != id
    ensures r.Some? ==> r.value.customer in cs && r.value.customer.id == id
  {
    match FindCustomer(cs, id)
    case None => None
    case Some(c) =>
      var mine := CustomerLoans(ls, id);
      var outstanding := Outstanding(mine, rs);
      var overdue := AnyOverdue(mine, rs, now);
      Some(CustomerView(c, outstanding, NextDue(mine, rs), CustomerStatus(outstanding, overdue), overdue))
  }

  /** `customersWithDetails`: one view per customer, in customer order. */
  function CustomersWithDetails(cs: seq<Customer>, ls: seq<Loan>, rs: seq<Repayment>, now: Time): (vs: seq<CustomerView>)
    ensures |vs| == |cs|
    ensures forall i :: 0 <= i < |cs| ==> Some(vs[i]) == CustomerData(cs, ls, rs, cs[i].id, now)
  {
    var views := seq(|cs|, i requires 0 <= i < |cs| => CustomerData(cs, ls, rs, cs[i].id, now));
    assert forall i :: 0 <= i < |cs| ==> cs[i] in cs;
    Somes(views)
  }

  // ---- Properties of the customer aggregate ----

  /** The outstanding balance is never negative, bounds every loan's positive balance, and is zero exactly when nothing is owed on any loan. */
  lemma {:induction false} OutstandingBounds(ls: seq<Loan>, rs: seq<Repayment>)
    ensures Outstanding(ls, rs) >= 0
    ensures forall l :: l in ls ==> LoanBalance(l, rs) <= Outstanding(ls, rs)
    ensures Outstanding(ls, rs) == 0 <==> forall l :: l in ls ==> LoanBalance(l, rs) <= 0
    decreases |ls|
  {
    if ls != [] {
      var init := ls[..|ls| - 1];
      assert ls == init + [ls[|ls| - 1]];
      OutstandingBounds(init, rs);
    }
  }

  /**
   * The next due date is the earliest due date among the loans that still have something
   * owed, and there is none exactly when nothing is owed on any loan.
   */
  lemma {:induction false} NextDueIsEarliest(ls: seq<Loan>, rs: seq<Repayment>)
    ensures NextDue(ls, rs).None? <==> forall l :: l in ls ==> LoanBalance(l, rs) <= 0
    ensures NextDue(ls, rs).Some? ==>
              (exists l :: l in ls && LoanBalance(l, rs) > 0 && l.dueDate == NextDue(ls, rs).value) &&
              (forall l :: l in ls && LoanBalance(l, rs) > 0 ==> NextDue(ls, rs).value <= l.dueDate)
    decreases |ls|
  {
    if ls != [] {
      var init, last := ls[..|ls| - 1], ls[|ls| - 1];
      assert ls == init + [last];
      NextDueIsEarliest(init, rs);
    }
  }

  /** The accumulated overdue flag is set exactly when some loan is overdue. */
  lemma {:induction false} AnyOverdueIff(ls: seq<Loan>, rs: seq<Repayment>, now: Time)
    ensures AnyOverdue(ls, rs, now) <==> exists l :: l in ls && IsLoanOverdue(l, rs, now)
    decreases |ls|
  {
    if ls != [] {
      var init := ls[..|ls| - 1];
      assert ls == init + [ls[|ls| - 1]];
      AnyOverdueIff(init, rs, now);
    }
  }

  /**
   * For an existing customer: the outstanding balance is the sum of positive balances and is
   * never negative; the status is Overdue exactly when one of the customer's loans is overdue,
   * Paid exactly when nothing is owed on any of them, and Due otherwise; the next due date is
   * the earliest due date of a loan with something owed.
   */
  lemma CustomerStatusMeaning(cs: seq<Customer>, ls: seq<Loan>, rs: seq<Repayment>, id: Id, now: Time)
    requires CustomerData(cs, ls, rs, id, now).Some?
    ensures var v := CustomerData(cs, ls, rs, id, now).value;
      && v.outstandingBalance >= 0
      && (v.isOverdue <==> v.status == Overdue)
      && (v.status == Overdue <==> exists l :: l in ls && l.customerId == id && IsLoanOverdue(l, rs, now))
      && (v.status == Paid <==> forall l :: l in ls && l.customerId == id ==> LoanBalance(l, rs) <= 0)
      && (v.status == Paid <==> v.outstandingBalance == 0)
      && (v.nextDueDate.None? <==> v.status == Paid)
      && (v.nextDueDate.Some? ==> forall l :: l in ls && l.customerId == id && LoanBalance(l, rs) > 0 ==> v.nextDueDate.value <= l.dueDate)
  {
    var mine := CustomerLoans(ls, id);
    OutstandingBounds(mine, rs);
    NextDueIsEarliest(mine, rs);
    AnyOverdueIff(mine, rs, now);
  }

  /** The customer status agrees with the loan statuses: Overdue iff some loan is Overdue, Paid iff every loan is Paid. */
  lemma CustomerStatusFromLoanStatuses(cs: seq<Customer>, ls: seq<Loan>, rs: seq<Repayment>, id: Id, now: Time)
    requires CustomerData(cs, ls, rs, id, now).Some?
    ensures var v := CustomerData(cs, ls, rs, id, now).value;
      && (v.status == Overdue <==> exists l :: l in ls && l.customerId == id && LoanStatus(l, rs, now) == Overdue)
      && (v.status == Paid <==> forall l :: l in ls && l.customerId == id ==> LoanStatus(l, rs, now) == Paid)
  {
    CustomerStatusMeaning(cs, ls, rs, id, now);
  }

  /** With unique customer ids, the dashboard's i-th entry is the view of the i-th customer. */
  lemma DashboardFollowsCustomers(cs: seq<Customer>, ls: seq<Loan>, rs: seq<Repayment>, now: Time, i: nat)
    requires UniqueCustomerIds(cs)
    requires i < |cs|
    ensures |CustomersWithDetails(cs, ls, rs, now)| == |cs|
    ensures CustomersWithDetails(cs, ls, rs, now)[i].customer == cs[i]
  {
    assert cs[i] in cs;
  }
}

# CrediKhaata ledger — a Dafny model

CrediKhaata is a single-user bookkeeping page for shopkeepers who sell on
credit ("khaata"). It keeps three ordered lists — customers, loans (credit
sales) and repayments against a loan — and derives from them, on every read,
each loan's balance and status and each customer's outstanding balance, next
due date and status. Three entry forms check their input before anything is
added, and deleting a customer or a loan cascades to what hangs off it.

This project models that core of `app.tsx`:

- `Records`: the three record kinds. Amounts are integers in paise. Dates and
  the current time are integer instants on one clock; a due date is the instant
  its calendar date denotes. Ids are naturals.
- `Seqs`: `Filter`, the order-preserving `Array.prototype.filter`, and `Somes`
  (`.filter(Boolean)` after a map).
- `Derived`: the store's read side — `getLoanRepayments`, `getLoanBalance`,
  `isLoanOverdue`, the per-loan status, `getCustomerLoans`, the lookup by id,
  `getCustomerData` as a specification function, and `customersWithDetails`.
  Lemmas give the meaning of each part of the customer aggregate.
- `Cascade`: the filtered copies the deletes install, referential integrity
  (`Linked`), and `Consistent` (linked, positive amounts, no loan repaid beyond
  its principal). Lemmas show what each add and delete preserves, that the
  cascades leave no orphans, and that deleting a just-added record undoes the add.
- `Store`: the `DataStore` class with the three lists as `seq` fields and an id
  counter in place of the random id generator. Its methods are the store's
  adds, deletes and the `getCustomerData` loop, which is proved equal to the
  specification function.
- `Validation`: `trim`, the digits test and the three form checks as pure functions.
- `Forms`: the three `handleSubmit` handlers. Each runs its check and calls the store
  only on success; the loan and repayment handlers first look up the customer or loan
  their page was opened for.
- `Session`: the sign-in flag and its persisted marker (`login`, `logout`).
- `Scenarios`: worked examples on concrete lists.

"Today" is a parameter wherever the source reads the clock. Reading and
writing browser storage is not modelled; the session's persisted marker is a
field.

Because a due date is the instant its date begins, a loan with something
owed counts as overdue from the start of its due day (`dueDate < now`).

## Model

| member | source | states |
|---|---|---|
| `Seqs.Filter` | app.tsx:150-152 | the result holds exactly the elements the test accepts and is no longer than the input |
| `Seqs.FilterAppend` | app.tsx:150-152 | filtering distributes over concatenation, so surviving records keep their relative order |
| `Seqs.FilterKeepsAll` | app.tsx:162 | a filter that accepts every element returns the list unchanged |
| `Seqs.Somes` | app.tsx:219 | dropping absent entries keeps every entry, in order, when none is absent |
| `Derived.LoanRepayments` | app.tsx:166-168 | a repayment is listed exactly when it is recorded and its loanId is the loan's id |
| `Derived.RepaidToIsFilteredSum` | app.tsx:171 | summing the loan's filtered repayments left to right equals the one-pass sum of the amounts whose loanId matches |
| `Derived.TotalRepaid` | app.tsx:171 | when every amount is positive, the sum is >= 0, at least each amount, and 0 exactly for no repayments |
| `Derived.BalanceIsPrincipalLessRepaid` | app.tsx:170-173 | a loan's balance is its principal minus the amounts of the repayments whose loanId is its id, summed in one independent pass |
| `Derived.BalanceWithoutRepayments` | app.tsx:170-173 | a loan that no repayment points to has its whole principal as balance |
| `Derived.BalanceAfterRepayment` | app.tsx:143-145 | appending a repayment lowers its own loan's balance by its amount and leaves every other loan's balance unchanged |
| `Derived.IsLoanOverdue` | app.tsx:175-178 | a loan is overdue iff the repayments against it fall short of its principal and its due date is before now |
| `Derived.LoanStatus` | app.tsx:636 | Overdue iff balance > 0 and due date before now; Paid iff balance <= 0; Due iff balance > 0 and due date not before now |
| `Derived.CustomerLoans` | app.tsx:180-182 | a loan is listed exactly when it is stored and its customerId matches |
| `Derived.FindCustomer` | app.tsx:185-186 | nothing is found iff no customer has the id; what is found is a listed customer with that id |
| `Derived.FindLoan` | app.tsx:935-939 | nothing is found iff no loan has the id; what is found is a listed loan with that id |
| `Derived.CustomerData` | app.tsx:184-215 | the view is absent iff no customer has the id, else it is of a listed customer with that id |
| `Derived.CustomersWithDetails` | app.tsx:218-220 | exactly one view per customer, the i-th being the view of the i-th customer's id, none dropped |
| `Derived.OutstandingBounds` | app.tsx:194-197 | the outstanding balance is >= 0, at least every loan's balance, and 0 iff no loan has a positive balance |
| `Derived.NextDueIsEarliest` | app.tsx:202-204 | the next due date is absent iff no loan has a positive balance, else it is the due date of such a loan and no later than any other's |
| `Derived.AnyOverdueIff` | app.tsx:198-201 | the overdue flag is set iff some loan has a positive balance and a due date before now |
| `Derived.AccumulateStep` | app.tsx:194-206 | one more loan changes the three running values exactly as one pass of the loop body does: a positive balance is added, may set the overdue flag and may replace the next due date with a strictly earlier one |
| `Derived.CustomerStatusMeaning` | app.tsx:208-214 | for an existing customer: Overdue iff one of its loans is overdue, Paid iff none of its loans has a positive balance iff outstanding is 0, next due date absent iff Paid, and it bounds every owed loan's due date |
| `Derived.CustomerStatusFromLoanStatuses` | app.tsx:212 | the customer is Overdue iff some loan's status is Overdue, and Paid iff every loan's status is Paid |
| `Derived.DashboardFollowsCustomers` | app.tsx:218-220 | with unique customer ids, the dashboard has one entry per customer and the i-th entry is the i-th customer |
| `Cascade.DropCustomer` | app.tsx:152 | a customer survives exactly when its id differs from the deleted one |
| `Cascade.DropCustomerLoans` | app.tsx:151 | a loan survives exactly when its customerId differs from the deleted customer |
| `Cascade.LoansToDelete` | app.tsx:149 | an id is collected exactly when a loan of the deleted customer has it |
| `Cascade.DropRepaymentsOf` | app.tsx:150 | a repayment survives exactly when its loanId is not among the collected ids |
| `Cascade.DropLoan` | app.tsx:158 | a loan survives exactly when its id differs from the deleted one |
| `Cascade.DropLoanRepayments` | app.tsx:157 | a repayment survives exactly when its loanId differs from the deleted loan |
| `Cascade.DropRepayment` | app.tsx:162 | a repayment survives exactly when its id differs from the deleted one |
| `Cascade.RepaidAfterFilterAtMost` | app.tsx:157 | removing positive repayments never raises the amount repaid to a loan |
| `Cascade.RepaidAfterFilterSame` | app.tsx:157 | a filter that keeps all of a loan's repayments leaves the amount repaid to it unchanged |
| `Cascade.BalanceAfterFilterAtLeast` | app.tsx:162 | removing positive repayments never lowers a loan's balance |
| `Cascade.BalanceAfterFilterSame` | app.tsx:157 | a filter that keeps all of a loan's repayments leaves its balance unchanged |
| `Cascade.DeleteCustomerLeavesNoOrphans` | app.tsx:147-153 | after the cascade every loan has a listed customer and every repayment a listed loan; no loan of the deleted customer and no repayment of one of its loans is left |
| `Cascade.DeleteCustomerKeepsConsistency` | app.tsx:147-153 | deleting a customer keeps the lists linked, amounts positive and every balance >= 0 |
| `Cascade.DeleteCustomerKeepsOtherBalances` | app.tsx:147-153 | with unique loan ids, every other customer's loan keeps its balance |
| `Cascade.DeleteLoanLeavesNoOrphans` | app.tsx:155-159 | after deleting a loan every repayment still has a listed loan |
| `Cascade.DeleteLoanKeepsConsistency` | app.tsx:155-159 | deleting a loan keeps the lists consistent and every other loan's balance unchanged |
| `Cascade.DeleteRepaymentKeepsConsistency` | app.tsx:161-163 | deleting a repayment keeps the lists consistent |
| `Cascade.AddCustomerKeepsConsistency` | app.tsx:135-137 | appending a customer keeps the lists consistent |
| `Cascade.AddLoanKeepsConsistency` | app.tsx:139-141 | appending a positive loan of a listed customer under a fresh id keeps the lists consistent, and its balance is its principal |
| `Cascade.AddRepaymentKeepsConsistency` | app.tsx:143-145 | appending a positive repayment to a listed loan, no larger than that loan's balance, keeps the lists consistent |
| `Cascade.DeleteCustomerUndoesAdd` | app.tsx:147-153 | deleting a just-added customer without loans restores all three lists |
| `Cascade.DeleteLoanUndoesAdd` | app.tsx:155-159 | deleting a just-added loan without repayments restores loans and repayments |
| `Cascade.DeleteRepaymentUndoesAdd` | app.tsx:161-163 | deleting a just-added repayment restores the repayments |
| `Store.DataStore.AddCustomer` | app.tsx:135-137 | appends exactly one customer under an id no customer has, leaves the other lists unchanged, and keeps the lists consistent |
| `Store.DataStore.AddLoan` | app.tsx:139-141 | appends exactly one loan under an id no loan has and leaves the other lists unchanged; consistency is kept when the customer is listed and the amount positive |
| `Store.DataStore.AddRepayment` | app.tsx:143-145 | appends exactly one repayment under an id no repayment has, leaves the other lists unchanged, and lowers only its loan's balance, by its amount |
| `Store.DataStore.DeleteCustomer` | app.tsx:147-153 | removes the customer, its loans, and the repayments of the loans collected before filtering; keeps the lists linked and consistent |
| `Store.DataStore.DeleteLoan` | app.tsx:155-159 | removes the loan and exactly its repayments, leaves customers unchanged, keeps the lists linked and consistent |
| `Store.DataStore.DeleteRepayment` | app.tsx:161-163 | removes only the repayments with that id and keeps the lists consistent |
| `Store.DataStore.GetCustomerData` | app.tsx:184-215 | the loop over the customer's loans returns exactly the customer view `CustomerData` specifies |
| `Validation.TrimStartCutsLeadingSpace` | app.tsx:731 | trimming the start keeps a suffix of the input, removes only white space, and stops at a character that is not white space |
| `Validation.TrimEndCutsTrailingSpace` | app.tsx:731 | trimming the end keeps a prefix of the input, removes only white space, and stops at a character that is not white space |
| `Validation.TrimEmptyIffBlank` | app.tsx:731 | the trimmed text is empty if and only if the input is blank |
| `Validation.Trim` | app.tsx:731 | non-empty trimmed text neither starts nor ends with white space |
| `Validation.TrimIsInnerStretch` | app.tsx:731 | the trimmed text is one contiguous stretch of the input with only white space cut off at both ends |
| `Validation.TrimLeavesTrimmedText` | app.tsx:743 | text without white space at its ends is left alone, so trimming is idempotent |
| `Validation.AllDigits` | app.tsx:737 | the character-by-character match of `^\d+$` holds iff the text is non-empty and every character is an ASCII digit |
| `Validation.ValidateCustomer` | app.tsx:728-743 | refused as NameRequired iff the name is blank, as InvalidPhone iff a non-blank phone is not all digits; what passes is the trimmed fields |
| `Validation.ValidateLoan` | app.tsx:830-847 | accepted iff the item is not blank, the amount a positive number and the due date a date; MissingFields iff any field is empty; InvalidAmount iff all present and the amount not positive |
| `Validation.ValidateRepayment` | app.tsx:947-962 | accepted iff the amount is a positive number no larger than the balance and a date is given, so the balance left is >= 0; InvalidRepaymentAmount iff the amount is not a positive number; ExceedsBalance iff it is above the balance, and then it carries that balance; DateRequired iff the amount is valid but no date is given |
| `Forms.SubmitCustomer` | app.tsx:728-745 | a refused submission changes nothing; an accepted one appends the trimmed customer under a fresh id and keeps the lists consistent |
| `Forms.SubmitLoan` | app.tsx:818-855 | an unknown customer or a refused check changes nothing; otherwise the checked loan, issued today, is appended under a fresh id and consistency is kept |
| `Forms.SubmitRepayment` | app.tsx:935-968 | an unknown loan or a refused check changes nothing; otherwise the repayment is appended, the loan's balance drops by its amount and stays >= 0, and consistency is kept |
| `Session.Auth.constructor` | app.tsx:77-80 | signed in at start-up iff the persisted entry is "true" |
| `Session.Auth.Login` | app.tsx:82-90 | succeeds iff the pair is the fixed credential, then signed in with the marker stored; a failure changes nothing |
| `Session.Auth.Logout` | app.tsx:92-95 | clears the flag and removes the marker |
| `Scenarios.OverdueCustomer` | app.tsx:170-215 | principal 1000 due yesterday with 400 repaid: balance 600, loan overdue, customer Overdue with 600 outstanding and next due yesterday |
| `Scenarios.RepaymentAboveBalance` | app.tsx:953-957 | against a balance of 600, a repayment of 700 is refused with that balance and one of 600 is accepted and clears the loan |
| `Scenarios.BlankNameRefused` | app.tsx:731-735 | a name of spaces is refused as NameRequired |

## Left out

- Rendering, context wiring, page routing (`navigate` and the view switch), the toast
  notifications and their timer, the theme toggle, and the `window.confirm` dialogs:
  user interface with no state the ledger depends on.
- Loading and saving the lists and the session marker in browser storage, and the JSON
  round trip: I/O through browser and library calls. The store starts empty.
- The seed customers, loans and repayments used on first run.
- PDF statement export: a foreign library rendering a document.
- `generateId` (time plus `Math.random`): replaced by the store's counter, whose ids are
  fresh by construction.
- `formatDate` and `formatCurrency`: display only.
- Date parsing: a date is an integer instant and the validity of a due-date field is the
  `DateField` constructor the form receives. The repayment form checks only that its date is
  not empty, so `Forms.SubmitRepayment` takes the date as present or absent.
- `parseFloat` and JavaScript number arithmetic: an amount field is empty, not a number, or
  the integer number of paise read from it. Fractions of a paisa and floating-point rounding
  in the sums are not modelled.
- `Derived.CustomerData`: the next due date is kept as an instant, so which of several loans
  with the same due date supplied it (the earliest listed one, by the strict comparison) is not
  observable; an empty due-date string, which the source would treat as "no date yet", cannot occur.
- `Store.DataStore.AddLoan`, `Store.DataStore.AddRepayment`: the store does not check its
  input, as in the source, so they promise consistency only under the conditions the forms check.
- `Store.DataStore.Valid`: says an id names at most one record of its list (what the lemmas
  need, and preserved by every filter) rather than that no id repeats at two positions.
- `Forms.SubmitLoan`, `Forms.SubmitRepayment`, `Validation.ValidateLoan`,
  `Validation.ValidateRepayment`: the browser's own form validation is not modelled. The
  inputs' `required`, `min="0.01"`/`step="0.01"` on amounts (app.tsx:893-894, 996-997),
  `min` of today on the due date (app.tsx:908) and `max` of the current balance (app.tsx:998)
  make the browser refuse a form before `handleSubmit` runs. The model takes `handleSubmit`
  as the only guard, so it accepts some submissions the page would stop, for example a loan
  due before today.

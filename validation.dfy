/**
 * The checks the three entry forms apply before anything reaches the store.
 *
 * A form field arrives as text. The model keeps only what the checks look at:
 * an amount field is empty, not a number, or the number `parseFloat` reads
 * (in paise); a due-date field is empty, not a date, or a date.
 */
module Validation {
  import opened Wrappers
  import opened Records

  // ---- Text ----

  /** The characters `String.prototype.trim` strips: ECMAScript white space and line terminators. */
  predicate IsSpace(ch: char) {
    || ch == '\t' || ch == '\U{000B}' || ch == '\U{000C}' || ch == ' '
    || ch == '\U{00A0}' || ch == '\U{1680}' || ('\U{2000}' <= ch <= '\U{200A}')
    || ch == '\U{202F}' || ch == '\U{205F}' || ch == '\U{3000}' || ch == '\U{FEFF}'
    || ch == '\n' || ch == '\r' || ch == '\U{2028}' || ch == '\U{2029}'
  }

  /** Text with nothing but white space in it, which trims to the empty string. */
  predicate IsBlank(s: string) {
    forall i :: 0 <= i < |s| ==> IsSpace(s[i])
  }

  /** `s` without its leading white space. */
  function TrimStart(s: string): string {
    if s != [] && IsSpace(s[0]) then TrimStart(s[1..]) else s
  }

  /** `s` without its trailing white space. */
  function TrimEnd(s: string): string {
    if s != [] && IsSpace(s[|s| - 1]) then TrimEnd(s[..|s| - 1]) else s
  }

  /** `s.trim()`: `s` with the white space at both ends cut off, so it neither starts nor ends with white space. */
  function Trim(s: string): (r: string)
    ensures r != [] ==> !IsSpace(r[0]) && !IsSpace(r[|r| - 1])
  {
    var t := TrimStart(s);
    assert t != [] ==> !IsSpace(t[0]) by {
      TrimStartCutsLeadingSpace(s);
    }
    var r := TrimEnd(t);
    assert r != [] ==> r[0] == t[0] && !IsSpace(r[|r| - 1]) by {
      TrimEndCutsTrailingSpace(t);
    }
    r
  }

  /** Trimming the start keeps a suffix and cuts off only white space, up to a character that is not. */
  lemma {:induction false} TrimStartCutsLeadingSpace(s: string)
    ensures var r := TrimStart(s);
      && |r| <= |s| && r == s[|s| - |r|..]
      && (forall i :: 0 <= i < |s| - |r| ==> IsSpace(s[i]))
      && (r != [] ==> !IsSpace(r[0]))
  {
    if s != [] && IsSpace(s[0]) {
      TrimStartCutsLeadingSpace(s[1..]);
      var r := TrimStart(s);
      forall i | 1 <= i < |s| - |r| ensures IsSpace(s[i]) {
        assert s[i] == s[1..][i - 1];
      }
    }
  }

  /** Trimming the end keeps a prefix and cuts off only white space, back to a character that is not. */
  lemma {:induction false} TrimEndCutsTrailingSpace(s: string)
    ensures var r := TrimEnd(s);
      && |r| <= |s| && r == s[..|r|]
      && (forall i :: |r| <= i < |s| ==> IsSpace(s[i]))
      && (r != [] ==> !IsSpace(r[|r| - 1]))
  {
    if s != [] && IsSpace(s[|s| - 1]) {
      TrimEndCutsTrailingSpace(s[..|s| - 1]);
      var r := TrimEnd(s);
      forall i | |r| <= i < |s| - 1 ensures IsSpace(s[i]) {
        assert s[i] == s[..|s| - 1][i];
      }
    }
  }

  /** What `Trim` keeps is one stretch of `s`, with only white space cut off before and after it. */
  lemma TrimIsInnerStretch(s: string)
    ensures |TrimStart(s)| <= |s|
    ensures var k := |s| - |TrimStart(s)|; var r := Trim(s);
      && k + |r| <= |s| && r == s[k..k + |r|]
      && (forall i :: 0 <= i < k ==> IsSpace(s[i]))
      && (forall i :: k + |r| <= i < |s| ==> IsSpace(s[i]))
  {
    var t := TrimStart(s);
    var r := TrimEnd(t);
    var k := |s| - |t|;
    assert |t| <= |s| && t == s[k..] && (forall i :: 0 <= i < k ==> IsSpace(s[i])) by {
      TrimStartCutsLeadingSpace(s);
    }
    assert |r| <= |t| && r == t[..|r|] && (forall i :: |r| <= i < |t| ==> IsSpace(t[i])) by {
      TrimEndCutsTrailingSpace(t);
    }
    assert r == s[k..k + |r|];
    forall i | k + |r| <= i < |s| ensures IsSpace(s[i]) {
      assert s[i] == t[i - k];
    }
  }

  /** Text trims to the empty string exactly when it is blank. */
  lemma TrimEmptyIffBlank(s: string)
    ensures Trim(s) == [] <==> IsBlank(s)
  {
    var t := TrimStart(s);
    var r := TrimEnd(t);
    var k := |s| - |t|;
    TrimStartCutsLeadingSpace(s);
    TrimEndCutsTrailingSpace(t);
    if r != [] {
      assert r == t[..|r|];
      assert s[k] == r[0];
    }
  }

  /** Text that neither starts nor ends with white space is left alone; in particular trimming twice is trimming once. */
  lemma TrimLeavesTrimmedText(s: string)
    ensures s != [] && !IsSpace(s[0]) && !IsSpace(s[|s| - 1]) ==> Trim(s) == s
    ensures Trim(Trim(s)) == Trim(s)
  {
    var r := Trim(s);
    if r != [] {
      assert TrimStart(r) == r;
      assert TrimEnd(r) == r;
    }
  }

  /** The characters the pattern class `\d` matches: the ASCII digits. */
  predicate IsDigit(ch: char) {
    '0' <= ch <= '9'
  }

  /**
   * The phone test `/^\d+$/`, matched a character at a time: a digit, then the end of the
   * text or more digits. It holds exactly for non-empty text made only of digits.
   */
  predicate AllDigits(s: string): (b: bool)
    ensures b <==> |s| > 0 && forall i :: 0 <= i < |s| ==> IsDigit(s[i])
  {
    |s| > 0 && IsDigit(s[0]) && (|s| == 1 || AllDigits(s[1..]))
  }

  // ---- Fields ----

  /** An amount field: empty, unreadable as a number, or the amount read from it. */
  datatype AmountField = Blank | NotANumber | Amount(value: Money)

  /** A due-date field: empty, not a calendar date, or a date. */
  datatype DateField = NoDate | InvalidDate | ValidDate(at: Time)

  // ---- Add customer ----

  datatype CustomerError = NameRequired | InvalidPhone

  datatype CustomerFields = CustomerFields(name: string, email: string, phone: string)

  /**
   * The add-customer check: a name is required, and a phone number, if one is given,
   * must be all digits. What passes is stored trimmed.
   */
  function ValidateCustomer(name: string, email: string, phone: string): (r: Result<CustomerFields, CustomerError>)
    ensures r == Failure(NameRequired) <==> IsBlank(name)
    ensures r == Failure(InvalidPhone) <==> !IsBlank(name) && !IsBlank(phone) && !AllDigits(Trim(phone))
    ensures r.Success? <==> !IsBlank(name) && (IsBlank(phone) || AllDigits(Trim(phone)))
    ensures r.Success? ==>
              && r.value == CustomerFields(Trim(name), Trim(email), Trim(phone))
              && r.value.name != [] && (r.value.phone == [] || AllDigits(r.value.phone))
  {
    TrimEmptyIffBlank(name);
    TrimEmptyIffBlank(phone);
    if Trim(name) == [] then Failure(NameRequired)
    else if Trim(phone) != [] && !AllDigits(Trim(phone)) then Failure(InvalidPhone)
    else Success(CustomerFields(Trim(name), Trim(email), Trim(phone)))
  }

  // ---- Add loan ----

  datatype LoanError = CustomerNotFound | MissingFields | InvalidAmount | InvalidDueDate

  datatype LoanFields = LoanFields(itemSold: string, amount: Money, dueDate: Time)

  /**
   * The add-loan check: item, amount and due date are all required, the amount must be a
   * positive number and the due date a real date, reported in that order.
   */
  function ValidateLoan(itemSold: string, amount: AmountField, dueDate: DateField): (r: Result<LoanFields, LoanError>)
    ensures r.Success? <==> !IsBlank(itemSold) && amount.Amount? && amount.value > 0 && dueDate.ValidDate?
    ensures r == Failure(MissingFields) <==> IsBlank(itemSold) || amount.Blank? || dueDate.NoDate?
    ensures r == Failure(InvalidAmount) <==>
              !IsBlank(itemSold) && !amount.Blank? && !dueDate.NoDate? && !(amount.Amount? && amount.value > 0)
    ensures r.Success? ==> r.value == LoanFields(Trim(itemSold), amount.value, dueDate.at) && r.value.itemSold != []
    ensures r != Failure(CustomerNotFound)
  {
    TrimEmptyIffBlank(itemSold);
    if Trim(itemSold) == [] || amount.Blank? || dueDate.NoDate? then Failure(MissingFields)
    else if !amount.Amount? || amount.value <= 0 then Failure(InvalidAmount)
    else if dueDate.InvalidDate? then Failure(InvalidDueDate)
    else Success(LoanFields(Trim(itemSold), amount.value, dueDate.at))
  }

  // ---- Record repayment ----

  datatype RepaymentError = LoanNotFound | InvalidRepaymentAmount | ExceedsBalance(balance: Money) | DateRequired

  datatype RepaymentFields = RepaymentFields(amount: Money, date: Time)

  /**
   * The record-repayment check against the loan's current balance: the amount must be a
   * positive number no larger than the balance, and a date must be given. An accepted
   * repayment therefore never takes the balance below zero.
   */
  function ValidateRepayment(balance: Money, amount: AmountField, date: Option<Time>): (r: Result<RepaymentFields, RepaymentError>)
    ensures r.Success? <==> amount.Amount? && 0 < amount.value <= balance && date.Some?
    ensures r == Failure(InvalidRepaymentAmount) <==> !(amount.Amount? && amount.value > 0)
    ensures r == Failure(ExceedsBalance(balance)) <==> amount.Amount? && amount.value > 0 && amount.value > balance
    ensures r.Failure? && r.error.ExceedsBalance? ==> r.error == ExceedsBalance(balance)
    ensures r == Failure(DateRequired) <==> amount.Amount? && 0 < amount.value <= balance && date.None?
    ensures r.Success? ==> r.value == RepaymentFields(amount.value, date.value) && balance - r.value.amount >= 0
    ensures r != Failure(LoanNotFound)
  {
    if !amount.Amount? || amount.value <= 0 then Failure(InvalidRepaymentAmount)
    else if amount.value > balance then Failure(ExceedsBalance(balance))
    else if date.None? then Failure(DateRequired)
    else Success(RepaymentFields(amount.value, date.value))
  }
}

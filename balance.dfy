/**
  The trial balance page (`loadBalance`): the line items of all seats of a project are
  grouped by the first four characters of their raw account code, each group's debits
  and credits are added up, the net of each group is folded into one column, and the
  folded columns are summed; the page warns when the two sums differ.
*/
module TrialBalance {
  import opened Grouping
  import opened Books

  /** The group key: `account_code.substring(0, 4)` of the raw code, `-name` suffix and all. */
  function MainKey(p: Posting): string { Prefix(p.detail.account_code, 4) }

  /** An entry of `accountsMap`. */
  datatype Account = Account(account_code: string, totalDebit: int, totalCredit: int, nature: Nature)

  /** A row of the trial balance: `{ ...account, finalDebit, finalCredit }`. */
  datatype Row = Row(account_code: string, totalDebit: int, totalCredit: int, nature: Nature,
                     finalDebit: int, finalCredit: int)

  function FinalDebitOf(r: Row): int { r.finalDebit }
  function FinalCreditOf(r: Row): int { r.finalCredit }

  /** The account of key k after the postings ps have been walked. */
  function AccountFor(ps: seq<Posting>, k: string): Account {
    var g := Select(ps, MainKey, k);
    Account(k, SumOf(g, PostingDebit), SumOf(g, PostingCredit), NatureOf(k))
  }

  function RowOf(a: Account): Row {
    var b := FoldedBalance(a.totalDebit, a.totalCredit);
    Row(a.account_code, a.totalDebit, a.totalCredit, a.nature, b.finalDebit, b.finalCredit)
  }

  /** The rows of the trial balance, one per distinct key in order of first appearance. */
  function Rows(ps: seq<Posting>): (rows: seq<Row>)
    ensures |rows| == |KeysOf(ps, MainKey)|
  {
    var ks := KeysOf(ps, MainKey);
    seq(|ks|, i requires 0 <= i < |ks| => RowOf(AccountFor(ps, ks[i])))
  }

  /** What `accountsMap` and its key order hold after the postings `done` have been walked. */
  ghost predicate Walked(accountsMap: map<string, Account>, order: seq<string>, done: seq<Posting>) {
    && order == KeysOf(done, MainKey)
    && (forall k :: k in accountsMap <==> k in order)
    && Matches(accountsMap, done)
  }

  /** Every account in the map is the account of its key after the postings done. */
  ghost predicate Matches(accountsMap: map<string, Account>, done: seq<Posting>) {
    forall k :: k in accountsMap ==> accountsMap[k] == AccountFor(done, k)
  }

  /** One more posting adds its amounts to the account of its own key. */
  lemma AccountForOwn(done: seq<Posting>, p: Posting)
    ensures var a := AccountFor(done, MainKey(p));
            AccountFor(done + [p], MainKey(p))
              == a.(totalDebit := a.totalDebit + PostingDebit(p), totalCredit := a.totalCredit + PostingCredit(p))
  {
    SelectStep(done, p, MainKey, MainKey(p));
    var g := Select(done, MainKey, MainKey(p));
    SumOfStep(g, p, PostingDebit);
    SumOfStep(g, p, PostingCredit);
  }

  /** One more posting leaves the accounts of other keys as they were. */
  lemma AccountForOther(done: seq<Posting>, p: Posting, k: string)
    requires MainKey(p) != k
    ensures AccountFor(done + [p], k) == AccountFor(done, k)
  {
    SelectStep(done, p, MainKey, k);
  }

  /** A key not met yet has an empty account. */
  lemma AccountForNew(done: seq<Posting>, k: string)
    requires k !in KeysOf(done, MainKey)
    ensures AccountFor(done, k) == Account(k, 0, 0, NatureOf(k))
  {
    SelectNonEmpty(done, MainKey, k);
  }

  /** Creating the account of key when it is missing keeps every account matching. */
  lemma OpenAccount(m0: map<string, Account>, o0: seq<string>, done: seq<Posting>,
                    key: string, m1: map<string, Account>, o1: seq<string>)
    requires Walked(m0, o0, done)
    requires key in m0 ==> m1 == m0 && o1 == o0
    requires key !in m0 ==> m1 == m0[key := Account(key, 0, 0, NatureOf(key))] && o1 == o0 + [key]
    ensures Matches(m1, done) && key in m1
    ensures forall k :: k in m1 <==> k in o1
  {
    if key !in m0 {
      AccountForNew(done, key);
    }
  }

  /** Adding posting p to the account of its key makes the map match one more posting. */
  lemma AddPosting(m1: map<string, Account>, done: seq<Posting>, p: Posting, key: string, acc: Account, dv: int, cv: int)
    requires Matches(m1, done)
    requires key == MainKey(p) && dv == PostingDebit(p) && cv == PostingCredit(p)
    requires key in m1 && acc == m1[key]
    ensures Matches(m1[key := acc.(totalDebit := acc.totalDebit + dv, totalCredit := acc.totalCredit + cv)], done + [p])
  {
    var m := m1[key := acc.(totalDebit := acc.totalDebit + dv, totalCredit := acc.totalCredit + cv)];
    AccountForOwn(done, p);
    forall k | k in m && k != key
      ensures m[k] == AccountFor(done + [p], k)
    {
      AccountForOther(done, p, k);
    }
  }

  /**
    Walking one more posting p keeps `Walked`: the account of its key is created if it
    is new (m1, o1), then the posting is added to it.
  */
  lemma WalkStep(m0: map<string, Account>, o0: seq<string>, done: seq<Posting>, p: Posting,
                 key: string, m1: map<string, Account>, o1: seq<string>, acc: Account, dv: int, cv: int)
    requires Walked(m0, o0, done)
    requires key == MainKey(p) && dv == PostingDebit(p) && cv == PostingCredit(p)
    requires key in m0 ==> m1 == m0 && o1 == o0
    requires key !in m0 ==> m1 == m0[key := Account(key, 0, 0, NatureOf(key))] && o1 == o0 + [key]
    requires key in m1 && acc == m1[key]
    ensures Walked(m1[key := acc.(totalDebit := acc.totalDebit + dv, totalCredit := acc.totalCredit + cv)],
                   o1, done + [p])
  {
    KeysOfStep(done, p, MainKey);
    OpenAccount(m0, o0, done, key, m1, o1);
    AddPosting(m1, done, p, key, acc, dv, cv);
  }

  /**
    The inner `seat.details.forEach` of `loadBalance`: every detail of one seat, in
    order, creates the account of its key if it is new and adds its amounts to it.
  */
  method WalkSeat(accountsMap: map<string, Account>, order: seq<string>, seat: Seat, ghost before: seq<Posting>)
    returns (accountsMap': map<string, Account>, order': seq<string>)
    requires Walked(accountsMap, order, before)
    ensures Walked(accountsMap', order', before + SeatPostings(seat))
  {
    accountsMap', order' := accountsMap, order;
    ghost var done := before;
    var j := 0;
    while j < |seat.details|
      invariant 0 <= j <= |seat.details|
      invariant done == before + SeatPostings(seat)[..j]
      invariant Walked(accountsMap', order', done)
    {
      var detail := seat.details[j];
      var accountMainCode := Prefix(detail.account_code, 4);
      var nature := NatureOf(accountMainCode);
      ghost var m0, o0 := accountsMap', order';
      if accountMainCode !in accountsMap' {
        accountsMap' := accountsMap'[accountMainCode := Account(accountMainCode, 0, 0, nature)];
        order' := order' + [accountMainCode];
      }
      var debitValue := Value(detail.debit);
      var creditValue := Value(detail.credit);
      var acc := accountsMap'[accountMainCode];
      WalkStep(m0, o0, done, Posting(seat.date, detail), accountMainCode, accountsMap', order', acc,
               debitValue, creditValue);
      accountsMap' := accountsMap'[accountMainCode := acc.(totalDebit := acc.totalDebit + debitValue,
                                                          totalCredit := acc.totalCredit + creditValue)];
      SeatPostingsStep(seat, j);
      done := done + [Posting(seat.date, detail)];
      j := j + 1;
    }
    assert SeatPostings(seat)[..j] == SeatPostings(seat);
  }

  /**
    `Object.values(accountsMap).map(...)`: every account, in key order, with its net
    balance folded into one column and everything else kept.
  */
  method FoldAccounts(accountsMap: map<string, Account>, order: seq<string>) returns (accounts: seq<Row>)
    requires forall k :: k in order ==> k in accountsMap
    ensures |accounts| == |order|
    ensures forall r :: 0 <= r < |order| ==> accounts[r] == RowOf(accountsMap[order[r]])
  {
    accounts := [];
    var n := 0;
    while n < |order|
      invariant 0 <= n <= |order|
      invariant |accounts| == n
      invariant forall r :: 0 <= r < n ==> accounts[r] == RowOf(accountsMap[order[r]])
    {
      var account := accountsMap[order[n]];
      var finalDebit, finalCredit := Settle(account.nature, account.totalDebit, account.totalCredit);
      accounts := accounts + [Row(account.account_code, account.totalDebit, account.totalCredit,
                                  account.nature, finalDebit, finalCredit)];
      n := n + 1;
    }
  }

  /**
    `loadBalance`: walks every seat's details in order, creating an account the first
    time a key is met and adding the detail's amounts to it, then folds every account
    and sums the folded columns.
  */
  method LoadBalance(seats: seq<Seat>) returns (accounts: seq<Row>, debitSum: int, creditSum: int)
    ensures accounts == Rows(Postings(seats))
    ensures debitSum == SumOf(accounts, FinalDebitOf)
    ensures creditSum == SumOf(accounts, FinalCreditOf)
  {
    var accountsMap: map<string, Account> := map[];
    var order: seq<string> := [];
    ghost var done: seq<Posting> := [];
    var i := 0;
    while i < |seats|
      invariant 0 <= i <= |seats|
      invariant done == Postings(seats[..i])
      invariant Walked(accountsMap, order, done)
    {
      accountsMap, order := WalkSeat(accountsMap, order, seats[i], done);
      PostingsStep(seats, i);
      done := done + SeatPostings(seats[i]);
      i := i + 1;
    }
    assert seats[..i] == seats;

    accounts := FoldAccounts(accountsMap, order);
    assert accounts == Rows(done) by {
      assert order == KeysOf(done, MainKey);
      forall r | 0 <= r < |accounts|
        ensures accounts[r] == Rows(done)[r]
      {
        assert accountsMap[order[r]] == AccountFor(done, order[r]);
      }
    }

    debitSum := SumOf(accounts, FinalDebitOf);
    creditSum := SumOf(accounts, FinalCreditOf);
  }

  /** The warning "the balance does not add up" is shown when the folded columns differ. */
  function ShowsImbalanceWarning(debitSum: int, creditSum: int): bool {
    debitSum != creditSum
  }

  /**
    The groups of the trial balance: the rows' codes are the distinct keys of the details,
    in order of first appearance, so there is one row per key and a key has a row exactly
    when some detail of some seat carries it.
  */
  lemma TrialBalanceKeys(seats: seq<Seat>)
    ensures var ps := Postings(seats);
            var rows := Rows(ps);
            var ks := KeysOf(ps, MainKey);
            && (forall r :: 0 <= r < |rows| ==> rows[r].account_code == ks[r])
            && Distinct(ks)
            && (forall k :: k in ks <==> exists i :: 0 <= i < |ps| && Prefix(ps[i].detail.account_code, 4) == k)
  {
    KeysOfSpec(Postings(seats), MainKey);
  }

  /**
    Each row of the trial balance: its totals are the sums of the details of its key,
    its nature follows the key's first character, and its folded columns are
    non-negative, at most one non-zero, and keep the net of the totals.
  */
  lemma TrialBalanceRow(seats: seq<Seat>, r: nat)
    requires r < |Rows(Postings(seats))|
    ensures var ps := Postings(seats);
            var row := Rows(ps)[r];
            && row.totalDebit == SumOf(Select(ps, MainKey, row.account_code), PostingDebit)
            && row.totalCredit == SumOf(Select(ps, MainKey, row.account_code), PostingCredit)
            && row.nature == NatureOf(row.account_code)
            && row.finalDebit >= 0 && row.finalCredit >= 0
            && (row.finalDebit == 0 || row.finalCredit == 0)
            && row.finalDebit - row.finalCredit == row.totalDebit - row.totalCredit
  {
  }

  /** The folded columns of the first n rows add up to the raw net of their groups. */
  lemma {:induction false} RowsNet(ps: seq<Posting>, n: nat)
    requires n <= |KeysOf(ps, MainKey)|
    ensures var rows := Rows(ps)[..n];
            var ks := KeysOf(ps, MainKey)[..n];
            SumOf(rows, FinalDebitOf) - SumOf(rows, FinalCreditOf)
              == GroupSum(ks, ps, MainKey, PostingDebit) - GroupSum(ks, ps, MainKey, PostingCredit)
    decreases n
  {
    if n > 0 {
      RowsNet(ps, n - 1);
      var ks := KeysOf(ps, MainKey);
      assert Rows(ps)[..n][..n - 1] == Rows(ps)[..n - 1];
      assert ks[..n][..n - 1] == ks[..n - 1];
    }
  }

  /**
    Conservation over the whole project: the folded debit sum minus the folded credit sum
    is all raw debits minus all raw credits of every seat's details.
  */
  lemma TrialBalanceConservation(seats: seq<Seat>)
    ensures var rows := Rows(Postings(seats));
            SumOf(rows, FinalDebitOf) - SumOf(rows, FinalCreditOf) == SeatsDebit(seats) - SeatsCredit(seats)
  {
    var ps := Postings(seats);
    var ks := KeysOf(ps, MainKey);
    RowsNet(ps, |ks|);
    assert Rows(ps)[..|ks|] == Rows(ps);
    assert ks[..|ks|] == ks;
    GroupSumPartition(ps, MainKey, PostingDebit);
    GroupSumPartition(ps, MainKey, PostingCredit);
    PostingsTotals(seats);
  }

  /** The page warns exactly when the raw debits and credits of all seats differ. */
  lemma ImbalanceWarningIffUnbalanced(seats: seq<Seat>)
    ensures var rows := Rows(Postings(seats));
            var warns := ShowsImbalanceWarning(SumOf(rows, FinalDebitOf), SumOf(rows, FinalCreditOf));
            warns <==> SeatsDebit(seats) != SeatsCredit(seats)
  {
    TrialBalanceConservation(seats);
  }

  /** Every detail is counted in the row of its own key, at its place among that key's details. */
  lemma DetailInItsGroup(seats: seq<Seat>, i: nat)
    requires i < |Postings(seats)|
    ensures var ps := Postings(seats);
            var g := Select(ps, MainKey, Prefix(ps[i].detail.account_code, 4));
            PositionInGroup(ps, MainKey, i) < |g| && g[PositionInGroup(ps, MainKey, i)] == ps[i]
  {
    GroupPlacement(Postings(seats), MainKey, i);
  }

  /** The postings of a single seat with two details. */
  lemma OneSeatTwoDetails(seat: Seat)
    requires |seat.details| == 2
    ensures Postings([seat]) == [Posting(seat.date, seat.details[0]), Posting(seat.date, seat.details[1])]
  {
    assert [seat][..0] == [];
  }

  /**
    A balanced seat "1105-Caja" 1000 / "4135-Ventas" 1000 gives a debit row 1105 and a
    credit row 4135 of 1000 each, and no warning.
  */
  lemma BalancedExample()
    ensures var seats := [Seat("s1", 1, "2024-01-31", "Venta",
                                [Detail("1105-Caja", "", Parsed(1000), Parsed(0)),
                                 Detail("4135-Ventas", "", Parsed(0), Parsed(1000))])];
            var rows := Rows(Postings(seats));
            && rows == [Row("1105", 1000, 0, Debit, 1000, 0), Row("4135", 0, 1000, Credit, 0, 1000)]
            && !ShowsImbalanceWarning(SumOf(rows, FinalDebitOf), SumOf(rows, FinalCreditOf))
  {
    var d1 := Detail("1105-Caja", "", Parsed(1000), Parsed(0));
    var d2 := Detail("4135-Ventas", "", Parsed(0), Parsed(1000));
    var seat := Seat("s1", 1, "2024-01-31", "Venta", [d1, d2]);
    OneSeatTwoDetails(seat);
    var a, b := Posting("2024-01-31", d1), Posting("2024-01-31", d2);
    ExampleRows(a, b);
    var r0, r1 := Row("1105", 1000, 0, Debit, 1000, 0), Row("4135", 0, 1000, Credit, 0, 1000);
    SumOfTwo(r0, r1, FinalDebitOf);
    SumOfTwo(r0, r1, FinalCreditOf);
  }

  /** The rows of the sale's two postings, one account each. */
  lemma ExampleRows(a: Posting, b: Posting)
    requires a == Posting("2024-01-31", Detail("1105-Caja", "", Parsed(1000), Parsed(0)))
    requires b == Posting("2024-01-31", Detail("4135-Ventas", "", Parsed(0), Parsed(1000)))
    ensures Rows([a, b]) == [Row("1105", 1000, 0, Debit, 1000, 0), Row("4135", 0, 1000, Credit, 0, 1000)]
  {
    ExampleAccounts(a, b);
    var rows := Rows([a, b]);
    assert rows[0] == Row("1105", 1000, 0, Debit, 1000, 0);
    assert rows[1] == Row("4135", 0, 1000, Credit, 0, 1000);
  }

  /** The sale's two postings fall in two groups, "1105" holding the debit and "4135" the credit. */
  lemma ExampleAccounts(a: Posting, b: Posting)
    requires a == Posting("2024-01-31", Detail("1105-Caja", "", Parsed(1000), Parsed(0)))
    requires b == Posting("2024-01-31", Detail("4135-Ventas", "", Parsed(0), Parsed(1000)))
    ensures KeysOf([a, b], MainKey) == ["1105", "4135"]
    ensures AccountFor([a, b], "1105") == Account("1105", 1000, 0, Debit)
    ensures AccountFor([a, b], "4135") == Account("4135", 0, 1000, Credit)
  {
    ExampleKeys(a, b);
    GroupTwo(a, b, MainKey);
    SumOfSingle(a, PostingDebit);
    SumOfSingle(a, PostingCredit);
    SumOfSingle(b, PostingDebit);
    SumOfSingle(b, PostingCredit);
  }

  lemma ExampleKeys(a: Posting, b: Posting)
    requires a.detail.account_code == "1105-Caja" && b.detail.account_code == "4135-Ventas"
    ensures MainKey(a) == "1105" && MainKey(b) == "4135"
  {
    assert "1105-Caja"[..4] == "1105" && "4135-Ventas"[..4] == "4135";
  }

  /**
    A debit-natured account with only credit activity shows its balance in the credit
    column; the key is the raw prefix, so "11-Caja" is grouped under "11-C", and an empty
    code forms a credit-natured group of its own.
  */
  lemma RawPrefixExample()
    ensures var seats := [Seat("s1", 1, "", "",
                                [Detail("11-Caja", "", Parsed(0), Parsed(500)),
                                 Detail("", "", Parsed(500), NotANumber)])];
            Rows(Postings(seats)) == [Row("11-C", 0, 500, Debit, 0, 500), Row("", 500, 0, Credit, 500, 0)]
  {
    var d1 := Detail("11-Caja", "", Parsed(0), Parsed(500));
    var d2 := Detail("", "", Parsed(500), NotANumber);
    var seat := Seat("s1", 1, "", "", [d1, d2]);
    OneSeatTwoDetails(seat);
    var a, b := Posting("", d1), Posting("", d2);
    assert "11-Caja"[..4] == "11-C";
    assert MainKey(a) == "11-C" && MainKey(b) == "";
    GroupTwo(a, b, MainKey);
    SumOfSingle(a, PostingDebit);
    SumOfSingle(a, PostingCredit);
    SumOfSingle(b, PostingDebit);
    SumOfSingle(b, PostingCredit);
    assert AccountFor([a, b], "11-C") == Account("11-C", 0, 500, Debit);
    assert AccountFor([a, b], "") == Account("", 500, 0, Credit);
    var rows := Rows([a, b]);
    assert rows[0] == Row("11-C", 0, 500, Debit, 0, 500);
    assert rows[1] == Row("", 500, 0, Credit, 500, 0);
  }
}

/**
  The T-accounts page (`loadTAccounts`): the line items of all seats of a project are
  grouped by the first six characters of their raw account code; each group keeps one
  entry per line item (the seat's date, the line's description and its parsed amounts),
  adds up its debits and credits, and gets its net balance folded into one column.
*/
module TAccounts {
  import opened Grouping
  import opened Books

  /** The group key: `account_code.substring(0, 6)` of the raw code. */
  function SubKey(p: Posting): string { Prefix(p.detail.account_code, 6) }

  /** A line of a T-account. */
  datatype Entry = Entry(date: string, description: string, debit: int, credit: int)

  function EntryOf(p: Posting): Entry {
    Entry(p.date, p.detail.description, PostingDebit(p), PostingCredit(p))
  }

  function EntryDebit(e: Entry): int { e.debit }
  function EntryCredit(e: Entry): int { e.credit }

  /** One entry per posting, in order. */
  function Entries(ps: seq<Posting>): (es: seq<Entry>)
    ensures |es| == |ps|
    ensures forall i :: 0 <= i < |ps| ==> es[i] == EntryOf(ps[i])
  {
    seq(|ps|, i requires 0 <= i < |ps| => EntryOf(ps[i]))
  }

  /** An entry of `accountsMap`. */
  datatype Account = Account(account_code: string, entries: seq<Entry>, totalDebit: int, totalCredit: int,
                             nature: Nature)

  /** A T-account as shown: `{ ...account, finalDebit, finalCredit }`. */
  datatype Row = Row(account_code: string, entries: seq<Entry>, totalDebit: int, totalCredit: int,
                     nature: Nature, finalDebit: int, finalCredit: int)

  /** The account of key k after the postings ps have been walked. */
  function AccountFor(ps: seq<Posting>, k: string): Account {
    var g := Select(ps, SubKey, k);
    Account(k, Entries(g), SumOf(g, PostingDebit), SumOf(g, PostingCredit), NatureOf(k))
  }

  function RowOf(a: Account): Row {
    var b := FoldedBalance(a.totalDebit, a.totalCredit);
    Row(a.account_code, a.entries, a.totalDebit, a.totalCredit, a.nature, b.finalDebit, b.finalCredit)
  }

  /** The T-accounts, one per distinct key in order of first appearance. */
  function Rows(ps: seq<Posting>): (rows: seq<Row>)
    ensures |rows| == |KeysOf(ps, SubKey)|
  {
    var ks := KeysOf(ps, SubKey);
    seq(|ks|, i requires 0 <= i < |ks| => RowOf(AccountFor(ps, ks[i])))
  }

  /** What `accountsMap` and its key order hold after the postings `done` have been walked. */
  ghost predicate Walked(accountsMap: map<string, Account>, order: seq<string>, done: seq<Posting>) {
    && order == KeysOf(done, SubKey)
    && (forall k :: k in accountsMap <==> k in order)
    && Matches(accountsMap, done)
  }

  /** Every account in the map is the account of its key after the postings done. */
  ghost predicate Matches(accountsMap: map<string, Account>, done: seq<Posting>) {
    forall k :: k in accountsMap ==> accountsMap[k] == AccountFor(done, k)
  }

  /** One more posting adds its entry and its amounts to the account of its own key. */
  lemma AccountForOwn(done: seq<Posting>, p: Posting)
    ensures var a := AccountFor(done, SubKey(p));
            AccountFor(done + [p], SubKey(p))
              == a.(entries := a.entries + [EntryOf(p)],
                    totalDebit := a.totalDebit + PostingDebit(p),
                    totalCredit := a.totalCredit + PostingCredit(p))
  {
    SelectStep(done, p, SubKey, SubKey(p));
    var g := Select(done, SubKey, SubKey(p));
    SumOfStep(g, p, PostingDebit);
    SumOfStep(g, p, PostingCredit);
    EntriesStep(g, p);
  }

  lemma EntriesStep(ps: seq<Posting>, p: Posting)
    ensures Entries(ps + [p]) == Entries(ps) + [EntryOf(p)]
  {
  }

  /** One more posting leaves the accounts of other keys as they were. */
  lemma AccountForOther(done: seq<Posting>, p: Posting, k: string)
    requires SubKey(p) != k
    ensures AccountFor(done + [p], k) == AccountFor(done, k)
  {
    SelectStep(done, p, SubKey, k);
  }

  /** A key not met yet has an empty account. */
  lemma AccountForNew(done: seq<Posting>, k: string)
    requires k !in KeysOf(done, SubKey)
    ensures AccountFor(done, k) == Account(k, [], 0, 0, NatureOf(k))
  {
    SelectNonEmpty(done, SubKey, k);
  }

  /** Creating the account of key when it is missing keeps every account matching. */
  lemma OpenAccount(m0: map<string, Account>, o0: seq<string>, done: seq<Posting>,
                    key: string, m1: map<string, Account>, o1: seq<string>)
    requires Walked(m0, o0, done)
    requires key in m0 ==> m1 == m0 && o1 == o0
    requires key !in m0 ==> m1 == m0[key := Account(key, [], 0, 0, NatureOf(key))] && o1 == o0 + [key]
    ensures Matches(m1, done) && key in m1
    ensures forall k :: k in m1 <==> k in o1
  {
    if key !in m0 {
      AccountForNew(done, key);
    }
  }

  /** Adding posting p to the account of its key makes the map match one more posting. */
  lemma AddPosting(m1: map<string, Account>, done: seq<Posting>, p: Posting, key: string, acc: Account, e: Entry)
    requires Matches(m1, done)
    requires key == SubKey(p) && e == EntryOf(p)
    requires key in m1 && acc == m1[key]
    ensures Matches(m1[key := acc.(entries := acc.entries + [e],
                                  totalDebit := acc.totalDebit + e.debit,
                                  totalCredit := acc.totalCredit + e.credit)], done + [p])
  {
    var m := m1[key := acc.(entries := acc.entries + [e],
                                  totalDebit := acc.totalDebit + e.debit,
                                  totalCredit := acc.totalCredit + e.credit)];
    AccountForOwn(done, p);
    forall k | k in m && k != key
      ensures m[k] == AccountFor(done + [p], k)
    {
      AccountForOther(done, p, k);
    }
  }

  /**
    Walking one more posting p keeps `Walked`: the account of its key is created if it
    is new (m1, o1), then the posting is added to it.
  */
  lemma WalkStep(m0: map<string, Account>, o0: seq<string>, done: seq<Posting>, p: Posting,
                 key: string, m1: map<string, Account>, o1: seq<string>, acc: Account, e: Entry)
    requires Walked(m0, o0, done)
    requires key == SubKey(p) && e == EntryOf(p)
    requires key in m0 ==> m1 == m0 && o1 == o0
    requires key !in m0 ==> m1 == m0[key := Account(key, [], 0, 0, NatureOf(key))] && o1 == o0 + [key]
    requires key in m1 && acc == m1[key]
    ensures Walked(m1[key := acc.(entries := acc.entries + [e],
                                  totalDebit := acc.totalDebit + e.debit,
                                  totalCredit := acc.totalCredit + e.credit)],
                   o1, done + [p])
  {
    KeysOfStep(done, p, SubKey);
    OpenAccount(m0, o0, done, key, m1, o1);
    AddPosting(m1, done, p, key, acc, e);
  }

  /**
    The inner `seat.details.forEach` of `loadTAccounts`: every detail of one seat, in
    order, creates the account of its key if it is new, pushes its entry and adds its
    amounts.
  */
  method WalkSeat(accountsMap: map<string, Account>, order: seq<string>, seat: Seat, ghost before: seq<Posting>)
    returns (accountsMap': map<string, Account>, order': seq<string>)
    requires Walked(accountsMap, order, before)
    ensures Walked(accountsMap', order', before + SeatPostings(seat))
  {
    accountsMap', order' := accountsMap, order;
    ghost var done := before;
    var j := 0;
    while j < |seat.details|
      invariant 0 <= j <= |seat.details|
      invariant done == before + SeatPostings(seat)[..j]
      invariant Walked(accountsMap', order', done)
    {
      var detail := seat.details[j];
      var subAccountCode := Prefix(detail.account_code, 6);
      var nature := NatureOf(subAccountCode);
      ghost var m0, o0 := accountsMap', order';
      if subAccountCode !in accountsMap' {
        accountsMap' := accountsMap'[subAccountCode := Account(subAccountCode, [], 0, 0, nature)];
        order' := order' + [subAccountCode];
      }
      var debitValue := Value(detail.debit);
      var creditValue := Value(detail.credit);
      var entry := Entry(seat.date, detail.description, debitValue, creditValue);
      var acc := accountsMap'[subAccountCode];
      WalkStep(m0, o0, done, Posting(seat.date, detail), subAccountCode, accountsMap', order', acc, entry);
      accountsMap' := accountsMap'[subAccountCode := acc.(entries := acc.entries + [entry],
                                                          totalDebit := acc.totalDebit + entry.debit,
                                                          totalCredit := acc.totalCredit + entry.credit)];
      SeatPostingsStep(seat, j);
      done := done + [Posting(seat.date, detail)];
      j := j + 1;
    }
    assert SeatPostings(seat)[..j] == SeatPostings(seat);
  }

  /**
    `Object.values(accountsMap).map(...)`: every account, in key order, with its net
    balance folded into one column and everything else kept.
  */
  method FoldAccounts(accountsMap: map<string, Account>, order: seq<string>) returns (tAccounts: seq<Row>)
    requires forall k :: k in order ==> k in accountsMap
    ensures |tAccounts| == |order|
    ensures forall r :: 0 <= r < |order| ==> tAccounts[r] == RowOf(accountsMap[order[r]])
  {
    tAccounts := [];
    var n := 0;
    while n < |order|
      invariant 0 <= n <= |order|
      invariant |tAccounts| == n
      invariant forall r :: 0 <= r < n ==> tAccounts[r] == RowOf(accountsMap[order[r]])
    {
      var account := accountsMap[order[n]];
      var finalDebit, finalCredit := Settle(account.nature, account.totalDebit, account.totalCredit);
      tAccounts := tAccounts + [Row(account.account_code, account.entries, account.totalDebit,
                                    account.totalCredit, account.nature, finalDebit, finalCredit)];
      n := n + 1;
    }
  }

  /** `loadTAccounts`: walks every seat's details, then folds every account. */
  method LoadTAccounts(seats: seq<Seat>) returns (tAccounts: seq<Row>)
    ensures tAccounts == Rows(Postings(seats))
  {
    var accountsMap: map<string, Account> := map[];
    var order: seq<string> := [];
    ghost var done: seq<Posting> := [];
    var i := 0;
    while i < |seats|
      invariant 0 <= i <= |seats|
      invariant done == Postings(seats[..i])
      invariant Walked(accountsMap, order, done)
    {
      accountsMap, order := WalkSeat(accountsMap, order, seats[i], done);
      PostingsStep(seats, i);
      done := done + SeatPostings(seats[i]);
      i := i + 1;
    }
    assert seats[..i] == seats;

    tAccounts := FoldAccounts(accountsMap, order);
    assert tAccounts == Rows(done) by {
      assert order == KeysOf(done, SubKey);
      forall r | 0 <= r < |tAccounts|
        ensures tAccounts[r] == Rows(done)[r]
      {
        assert accountsMap[order[r]] == AccountFor(done, order[r]);
      }
    }
  }

  /**
    The T-accounts' codes are the distinct 6-character keys of the details, in order of
    first appearance: one T-account per key, and a key has one exactly when some detail
    carries it.
  */
  lemma TAccountKeys(seats: seq<Seat>)
    ensures var ps := Postings(seats);
            var rows := Rows(ps);
            var ks := KeysOf(ps, SubKey);
            && (forall r :: 0 <= r < |rows| ==> rows[r].account_code == ks[r])
            && Distinct(ks)
            && (forall k :: k in ks <==> exists i :: 0 <= i < |ps| && Prefix(ps[i].detail.account_code, 6) == k)
  {
    KeysOfSpec(Postings(seats), SubKey);
  }

  /** The entries' debits (credits) add up to the sum of the postings' debits (credits). */
  lemma {:induction false} EntriesSums(ps: seq<Posting>)
    ensures SumOf(Entries(ps), EntryDebit) == SumOf(ps, PostingDebit)
    ensures SumOf(Entries(ps), EntryCredit) == SumOf(ps, PostingCredit)
    decreases |ps|
  {
    if ps != [] {
      var init := ps[..|ps| - 1];
      EntriesSums(init);
      assert Entries(ps)[..|ps| - 1] == Entries(init);
    }
  }

  /**
    Each T-account: its totals are the sums of its own entries, its nature follows its
    code's first character, and the fold only adds the two final columns (non-negative,
    at most one non-zero, same net), leaving code, entries, totals and nature as they were.
  */
  lemma TAccountRow(seats: seq<Seat>, r: nat)
    requires r < |Rows(Postings(seats))|
    ensures var ps := Postings(seats);
            var row := Rows(ps)[r];
            var a := AccountFor(ps, row.account_code);
            && row.account_code == a.account_code && row.entries == a.entries
            && row.totalDebit == a.totalDebit && row.totalCredit == a.totalCredit && row.nature == a.nature
            && row.totalDebit == SumOf(row.entries, EntryDebit)
            && row.totalCredit == SumOf(row.entries, EntryCredit)
            && row.nature == NatureOf(row.account_code)
            && row.finalDebit >= 0 && row.finalCredit >= 0
            && (row.finalDebit == 0 || row.finalCredit == 0)
            && row.finalDebit - row.finalCredit == row.totalDebit - row.totalCredit
  {
    var ps := Postings(seats);
    EntriesSums(Select(ps, SubKey, Rows(ps)[r].account_code));
  }

  function EntriesOfRow(r: Row): seq<Entry> { r.entries }

  /**
    Every entry of every posting appears in exactly one T-account, as often as the
    postings give it: the T-accounts' entries together are a permutation of the entries
    of all postings, one per detail of every seat.
  */
  lemma EntriesPartition(seats: seq<Seat>)
    ensures multiset(ConcatOf(Rows(Postings(seats)), EntriesOfRow)) == multiset(Entries(Postings(seats)))
  {
    var ps := Postings(seats);
    var ks := KeysOf(ps, SubKey);
    var rows := Rows(ps);
    forall r | 0 <= r < |rows|
      ensures multiset(EntriesOfRow(rows[r])) == multiset(Map(Select(ps, SubKey, ks[r]), EntryOf))
    {
      assert Entries(Select(ps, SubKey, ks[r])) == Map(Select(ps, SubKey, ks[r]), EntryOf);
    }
    ConcatOfGroups(rows, EntriesOfRow, ks, ps, SubKey, EntryOf);
    GroupConcatPartition(ps, SubKey, EntryOf);
    assert Entries(ps) == Map(ps, EntryOf);
  }

  function EntryCount(r: Row): int { |r.entries| }

  /** Every detail of every seat gives exactly one entry: the entries number the details. */
  lemma EntriesCountDetails(seats: seq<Seat>)
    ensures SumOf(Rows(Postings(seats)), EntryCount) == DetailCount(seats)
  {
    var ps := Postings(seats);
    var ks := KeysOf(ps, SubKey);
    var rows := Rows(ps);
    forall r | 0 <= r < |rows|
      ensures EntryCount(rows[r]) == SumOf(Select(ps, SubKey, ks[r]), One)
    {
      SumOfOnes(Select(ps, SubKey, ks[r]));
    }
    SumOfGroups(rows, EntryCount, ks, ps, SubKey, One);
    GroupSizes(ps, SubKey);
    PostingsCount(seats);
  }

  /**
    The i-th detail overall becomes an entry of the T-account of its own key, carrying its
    seat's date, its description and its parsed amounts, placed after the earlier
    details of that key.
  */
  lemma DetailEntry(seats: seq<Seat>, i: nat)
    requires i < |Postings(seats)|
    ensures var ps := Postings(seats);
            var k := Prefix(ps[i].detail.account_code, 6);
            var es := AccountFor(ps, k).entries;
            && k in KeysOf(ps, SubKey)
            && PositionInGroup(ps, SubKey, i) < |es|
            && es[PositionInGroup(ps, SubKey, i)]
               == Entry(ps[i].date, ps[i].detail.description, Value(ps[i].detail.debit), Value(ps[i].detail.credit))
  {
    var ps := Postings(seats);
    KeysOfSpec(ps, SubKey);
    GroupPlacement(ps, SubKey, i);
  }

  /** Entries of one T-account keep source order: seat order, then detail order. */
  lemma EntryOrder(seats: seq<Seat>, i: nat, j: nat)
    requires i < j < |Postings(seats)|
    requires SubKey(Postings(seats)[i]) == SubKey(Postings(seats)[j])
    ensures PositionInGroup(Postings(seats), SubKey, i) < PositionInGroup(Postings(seats), SubKey, j)
  {
    GroupOrder(Postings(seats), SubKey, i, j);
  }
}

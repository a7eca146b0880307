/**
  The records the bookkeeping application keeps (projects, seats, line items) and the
  rules the three report pages share: reading an amount as `parseFloat(x) || 0`, taking
  the first n characters of a code as `substring(0, n)` does, the debit/credit nature of
  an account, and the fold of an account's net balance into one column.
*/
module Books {
  import opened Grouping

  datatype Option<T> = None | Some(value: T)

  /**
    A debit or credit field as `parseFloat` reads it: a number (here in cents, so that
    equality is exact) or NaN for text that is not a number or a missing field.
  */
  datatype RawAmount = Parsed(cents: int) | NotANumber

  /** A line item ("detail") of a seat. */
  datatype Detail = Detail(account_code: string, description: string, debit: RawAmount, credit: RawAmount)

  /** A seat: one double-entry accounting transaction. */
  datatype Seat = Seat(id: string, project_id: int, date: string, description: string, details: seq<Detail>)

  /**
    A project. `companyName` and `auditorName` may be missing from a stored project
    (one imported from a file, say); the forms then show "".
  */
  datatype Project = Project(
    id: int, name: string, description: string, date: string,
    companyName: Option<string>, auditorName: Option<string>, seats: seq<Seat>)

  /** `parseFloat(x) || 0`: NaN counts as 0. */
  function Value(a: RawAmount): int {
    match a
    case Parsed(c) => c
    case NotANumber => 0
  }

  function DebitOf(d: Detail): int { Value(d.debit) }
  function CreditOf(d: Detail): int { Value(d.credit) }

  /** `s.substring(0, n)`: the first n characters, or all of s when it is shorter. */
  function Prefix(s: string, n: nat): (p: string)
    ensures |p| == if |s| < n then |s| else n
    ensures p <= s
  {
    if |s| < n then s else s[..n]
  }

  lemma PrefixOfPrefix(s: string, m: nat, n: nat)
    requires n <= m
    ensures Prefix(Prefix(s, m), n) == Prefix(s, n)
  {
  }

  datatype Nature = Debit | Credit

  /**
    `['1', '5', '6'].includes(code[0]) ? 'debit' : 'credit'`; on an empty code `code[0]`
    is undefined, which is not in the list, so the account is credit-natured.
  */
  function NatureOf(code: string): Nature {
    if |code| > 0 && code[0] in ['1', '5', '6'] then Debit else Credit
  }

  /**
    The nature depends on the first character only, so an account and each of its
    prefixes of length at least one have the same nature: a line item is debit-natured
    in the trial balance (4 characters) exactly when it is in the T-accounts (6).
  */
  lemma {:induction false} NatureOfPrefix(code: string, n: nat)
    requires n >= 1
    ensures NatureOf(Prefix(code, n)) == NatureOf(code)
    ensures NatureOf(code) == Debit <==> |code| > 0 && (code[0] == '1' || code[0] == '5' || code[0] == '6')
  {
    if |code| > 0 {
      assert Prefix(code, n)[0] == code[0];
    }
  }

  /** The two columns a report shows for an account after folding: `finalDebit`, `finalCredit`. */
  datatype Balance = Balance(finalDebit: int, finalCredit: int)

  /**
    The net balance of an account put in one column: the debit excess in the debit column
    or the credit excess in the credit column, never a negative figure.
  */
  function FoldedBalance(totalDebit: int, totalCredit: int): (b: Balance)
    ensures b.finalDebit >= 0 && b.finalCredit >= 0
    ensures b.finalDebit == 0 || b.finalCredit == 0
    ensures b.finalDebit - b.finalCredit == totalDebit - totalCredit
  {
    var net := totalDebit - totalCredit;
    if net >= 0 then Balance(net, 0) else Balance(0, -net)
  }

  /** The three facts above pin the fold down: no other pair of columns has them. */
  lemma FoldedBalanceUnique(totalDebit: int, totalCredit: int, b: Balance)
    requires b.finalDebit >= 0 && b.finalCredit >= 0
    requires b.finalDebit == 0 || b.finalCredit == 0
    requires b.finalDebit - b.finalCredit == totalDebit - totalCredit
    ensures b == FoldedBalance(totalDebit, totalCredit)
  {
  }

  function Abs(x: int): (r: int)
    ensures r >= 0 && (r == x || r == -x)
  {
    if x < 0 then -x else x
  }

  /**
    The per-account fold of the trial balance and the T-accounts, with its local
    variables reassigned as the page does: a debit-natured account starts from
    debit minus credit, a credit-natured one from credit minus debit, and a negative
    start moves to the other column. Both branches end in the same columns, so the
    nature of the account does not change the outcome.
  */
  method Settle(nature: Nature, totalDebit: int, totalCredit: int) returns (finalDebit: int, finalCredit: int)
    ensures Balance(finalDebit, finalCredit) == FoldedBalance(totalDebit, totalCredit)
  {
    finalDebit := 0;
    finalCredit := 0;
    if nature == Debit {
      finalDebit := totalDebit - totalCredit;
      if finalDebit < 0 {
        finalCredit := Abs(finalDebit);
        finalDebit := 0;
      }
    } else {
      finalCredit := totalCredit - totalDebit;
      if finalCredit < 0 {
        finalDebit := Abs(finalCredit);
        finalCredit := 0;
      }
    }
  }

  /** A line item together with the date of the seat it belongs to. */
  datatype Posting = Posting(date: string, detail: Detail)

  function PostingDebit(p: Posting): int { DebitOf(p.detail) }
  function PostingCredit(p: Posting): int { CreditOf(p.detail) }

  /** The line items of one seat, in order. */
  function SeatPostings(s: Seat): (ps: seq<Posting>)
    ensures |ps| == |s.details|
    ensures forall j :: 0 <= j < |ps| ==> ps[j] == Posting(s.date, s.details[j])
  {
    seq(|s.details|, j requires 0 <= j < |s.details| => Posting(s.date, s.details[j]))
  }

  /** The line items of all seats, seat after seat, as the nested `forEach` loops visit them. */
  function Postings(seats: seq<Seat>): seq<Posting>
    decreases |seats|
  {
    if seats == [] then [] else Postings(seats[..|seats| - 1]) + SeatPostings(seats[|seats| - 1])
  }

  /** Debit and credit sums of a seat's details. */
  datatype Totals = Totals(totalDebit: int, totalCredit: int)

  /**
    `calculateTotals` of the seat editor and the totals `reduce` of the receipt: the
    details' debits and credits read with `parseFloat(x) || 0` and added up.
  */
  function DetailTotals(details: seq<Detail>): Totals {
    Totals(SumOf(details, DebitOf), SumOf(details, CreditOf))
  }

  /** Totals add up over concatenated lists of details. */
  lemma DetailTotalsAppend(a: seq<Detail>, b: seq<Detail>)
    ensures DetailTotals(a + b).totalDebit == DetailTotals(a).totalDebit + DetailTotals(b).totalDebit
    ensures DetailTotals(a + b).totalCredit == DetailTotals(a).totalCredit + DetailTotals(b).totalCredit
  {
    SumOfAppend(a, b, DebitOf);
    SumOfAppend(a, b, CreditOf);
  }

  /** The postings of one seat carry exactly that seat's debit and credit totals. */
  lemma {:induction false} SeatPostingsTotals(s: Seat, n: nat)
    requires n <= |s.details|
    ensures SumOf(SeatPostings(s)[..n], PostingDebit) == DetailTotals(s.details[..n]).totalDebit
    ensures SumOf(SeatPostings(s)[..n], PostingCredit) == DetailTotals(s.details[..n]).totalCredit
    decreases n
  {
    if n > 0 {
      SeatPostingsTotals(s, n - 1);
      assert SeatPostings(s)[..n][..n - 1] == SeatPostings(s)[..n - 1];
      assert s.details[..n][..n - 1] == s.details[..n - 1];
    }
  }

  /** The sum over all postings of a project is the sum of its seats' totals. */
  function SeatsDebit(seats: seq<Seat>): int
    decreases |seats|
  {
    if seats == [] then 0 else SeatsDebit(seats[..|seats| - 1]) + DetailTotals(seats[|seats| - 1].details).totalDebit
  }

  function SeatsCredit(seats: seq<Seat>): int
    decreases |seats|
  {
    if seats == [] then 0 else SeatsCredit(seats[..|seats| - 1]) + DetailTotals(seats[|seats| - 1].details).totalCredit
  }

  /** Walking all seats' details visits exactly the seats' totals. */
  lemma {:induction false} PostingsTotals(seats: seq<Seat>)
    ensures SumOf(Postings(seats), PostingDebit) == SeatsDebit(seats)
    ensures SumOf(Postings(seats), PostingCredit) == SeatsCredit(seats)
    decreases |seats|
  {
    if seats != [] {
      var last := seats[|seats| - 1];
      PostingsTotals(seats[..|seats| - 1]);
      SumOfAppend(Postings(seats[..|seats| - 1]), SeatPostings(last), PostingDebit);
      SumOfAppend(Postings(seats[..|seats| - 1]), SeatPostings(last), PostingCredit);
      SeatPostingsTotals(last, |last.details|);
      assert SeatPostings(last)[..|last.details|] == SeatPostings(last);
      assert last.details[..|last.details|] == last.details;
    }
  }

  /** One posting per detail of every seat. */
  function DetailCount(seats: seq<Seat>): nat
    decreases |seats|
  {
    if seats == [] then 0 else DetailCount(seats[..|seats| - 1]) + |seats[|seats| - 1].details|
  }

  lemma {:induction false} PostingsCount(seats: seq<Seat>)
    ensures |Postings(seats)| == DetailCount(seats)
    decreases |seats|
  {
    if seats != [] {
      PostingsCount(seats[..|seats| - 1]);
    }
  }

  /**
    The step of the nested loops: after i seats and j details of seat i, the details
    visited are the postings of the first i seats followed by j of seat i.
  */
  lemma PostingsStep(seats: seq<Seat>, i: nat)
    requires i < |seats|
    ensures Postings(seats[..i + 1]) == Postings(seats[..i]) + SeatPostings(seats[i])
  {
    assert seats[..i + 1][..i] == seats[..i];
  }

  /** Detail j of seat i is visited by the nested walk, with its seat's date. */
  lemma {:induction false} DetailInPostings(seats: seq<Seat>, i: nat, j: nat)
    requires i < |seats| && j < |seats[i].details|
    ensures Posting(seats[i].date, seats[i].details[j]) in Postings(seats)
    decreases |seats|
  {
    var init := seats[..|seats| - 1];
    if i == |seats| - 1 {
      assert SeatPostings(seats[i])[j] == Posting(seats[i].date, seats[i].details[j]);
    } else {
      assert init[i] == seats[i];
      DetailInPostings(init, i, j);
    }
  }

  lemma SeatPostingsStep(s: Seat, j: nat)
    requires j < |s.details|
    ensures SeatPostings(s)[..j + 1] == SeatPostings(s)[..j] + [Posting(s.date, s.details[j])]
  {
  }

  /**
    `findIndex(p => p.id === id)` over the stored projects: the first project with that
    id, or -1 when there is none.
  */
  function FindProjectIndex(projects: seq<Project>, id: int): (r: int)
    ensures -1 <= r < |projects|
    ensures r == -1 <==> forall i :: 0 <= i < |projects| ==> projects[i].id != id
    ensures r >= 0 ==> projects[r].id == id && forall i :: 0 <= i < r ==> projects[i].id != id
    decreases |projects|
  {
    if projects == [] then -1
    else if projects[0].id == id then 0
    else
      var r := FindProjectIndex(projects[1..], id);
      if r == -1 then -1 else r + 1
  }

  /** Two project lists with the same ids at the same places find the same project. */
  lemma FindProjectIndexSameIds(a: seq<Project>, b: seq<Project>, id: int)
    requires |a| == |b|
    requires forall i :: 0 <= i < |a| ==> a[i].id == b[i].id
    ensures FindProjectIndex(a, id) == FindProjectIndex(b, id)
  {
    var ra, rb := FindProjectIndex(a, id), FindProjectIndex(b, id);
    if ra >= 0 {
      assert b[ra].id == id;
    }
    if rb >= 0 {
      assert a[rb].id == id;
    }
  }

  /**
    The balanced mark of a seat, both under a seat in the editor and on its receipt:
    shown exactly when the seat's debits and credits add up to the same amount.
  */
  function ShowsBalanced(details: seq<Detail>): bool {
    DetailTotals(details).totalDebit == DetailTotals(details).totalCredit
  }
}

/**
  The seat editor of one project: the list of seats shown, the account codes offered for
  selection, and the stored project list its edits are saved into. Every edit builds the
  new seat list and saves it into the project with the page's id.
*/
module SeatsEditor {
  import opened Grouping
  import opened Books

  /** The line item a new row starts from: no account, no description, zero amounts. */
  const InitialDetail := Detail("", "", Parsed(0), Parsed(0))

  /** The fields of a seat the editor changes. */
  datatype SeatField = DateField | DescriptionField

  /** A seat with one field set and the others as they were. */
  function WithSeatField(s: Seat, field: SeatField, value: string): (r: Seat)
    ensures r.id == s.id && r.project_id == s.project_id && r.details == s.details
    ensures r.date == (if field == DateField then value else s.date)
    ensures r.description == (if field == DescriptionField then value else s.description)
  {
    match field
    case DateField => s.(date := value)
    case DescriptionField => s.(description := value)
  }

  /** An edit of one field of a line item, with the value entered. */
  datatype DetailEdit =
    | SetAccountCode(code: string)
    | SetDescription(text: string)
    | SetDebit(debit: RawAmount)
    | SetCredit(credit: RawAmount)

  /** A line item with the edited field set and the others as they were. */
  function WithDetailField(d: Detail, e: DetailEdit): (r: Detail)
    ensures r.account_code == (if e.SetAccountCode? then e.code else d.account_code)
    ensures r.description == (if e.SetDescription? then e.text else d.description)
    ensures r.debit == (if e.SetDebit? then e.debit else d.debit)
    ensures r.credit == (if e.SetCredit? then e.credit else d.credit)
  {
    match e
    case SetAccountCode(c) => d.(account_code := c)
    case SetDescription(t) => d.(description := t)
    case SetDebit(a) => d.(debit := a)
    case SetCredit(a) => d.(credit := a)
  }

  /**
    Noting a code as used: a non-empty code not yet in the list goes at its end; an
    empty code or one already there leaves the list as it is.
  */
  function Remember(used: seq<string>, code: string): (r: seq<string>)
    ensures Distinct(used) ==> Distinct(r)
    ensures forall c :: c in r <==> c in used || (c == code && code != "")
    ensures used <= r
  {
    if code != "" && code !in used then used + [code] else used
  }

  /** The codes a walk over the line items ps collects, in order of first use. */
  function UsedAccountsOf(ps: seq<Posting>): seq<string>
    decreases |ps|
  {
    if ps == [] then [] else Remember(UsedAccountsOf(ps[..|ps| - 1]), ps[|ps| - 1].detail.account_code)
  }

  /** Each non-empty code of the line items exactly once, and no empty code. */
  lemma {:induction false} UsedAccountsSpec(ps: seq<Posting>)
    ensures Distinct(UsedAccountsOf(ps))
    ensures "" !in UsedAccountsOf(ps)
    ensures forall c :: c in UsedAccountsOf(ps) <==> c != "" && exists i :: 0 <= i < |ps| && ps[i].detail.account_code == c
    decreases |ps|
  {
    if ps != [] {
      var init := ps[..|ps| - 1];
      var last := ps[|ps| - 1].detail.account_code;
      UsedAccountsSpec(init);
      var u := UsedAccountsOf(init);
      assert UsedAccountsOf(ps) == Remember(u, last);
      forall c
        ensures c in UsedAccountsOf(ps) <==> c != "" && exists i :: 0 <= i < |ps| && ps[i].detail.account_code == c
      {
        if c in u {
          var i :| 0 <= i < |init| && init[i].detail.account_code == c;
          assert ps[i] == init[i];
        }
        if c != "" && exists i :: 0 <= i < |ps| && ps[i].detail.account_code == c {
          var i :| 0 <= i < |ps| && ps[i].detail.account_code == c;
          if i < |init| {
            assert init[i] == ps[i];
          }
        }
      }
    }
  }

  lemma UsedAccountsStep(ps: seq<Posting>, p: Posting)
    ensures UsedAccountsOf(ps + [p]) == Remember(UsedAccountsOf(ps), p.detail.account_code)
  {
    assert (ps + [p])[..|ps|] == ps;
  }

  /**
    `splice(start, 1)`: removes the line item at start; a negative start counts from the
    end, and a start past the end removes nothing.
  */
  function SpliceOne(ds: seq<Detail>, start: int): seq<Detail> {
    var k := if start >= 0 then start else if |ds| + start >= 0 then |ds| + start else 0;
    if k < |ds| then ds[..k] + ds[k + 1..] else ds
  }

  /**
    Removing row j, for a row that exists, takes out exactly that line item: one fewer
    line items, the others in order, and its amounts gone from the seat's totals.
  */
  lemma SpliceOneRow(ds: seq<Detail>, j: nat)
    requires j < |ds|
    ensures |SpliceOne(ds, j)| == |ds| - 1
    ensures SpliceOne(ds, j)[..j] == ds[..j] && SpliceOne(ds, j)[j..] == ds[j + 1..]
    ensures DetailTotals(SpliceOne(ds, j)).totalDebit == DetailTotals(ds).totalDebit - DebitOf(ds[j])
    ensures DetailTotals(SpliceOne(ds, j)).totalCredit == DetailTotals(ds).totalCredit - CreditOf(ds[j])
  {
    SumOfRemove(ds, j, DebitOf);
    SumOfRemove(ds, j, CreditOf);
  }

  /** A row index at or past the end removes nothing. */
  lemma SpliceOnePastEnd(ds: seq<Detail>, j: int)
    requires j >= |ds|
    ensures SpliceOne(ds, j) == ds
  {
  }

  /** Adding the initial row adds a line item but changes neither total, nor so the balanced mark. */
  lemma AddRowKeepsTotals(ds: seq<Detail>)
    ensures DetailTotals(ds + [InitialDetail]) == DetailTotals(ds)
    ensures ShowsBalanced(ds + [InitialDetail]) == ShowsBalanced(ds)
  {
    SumOfStep(ds, InitialDetail, DebitOf);
    SumOfStep(ds, InitialDetail, CreditOf);
  }

  /** Editing a line item changes the seat's totals by the change in that item's amounts. */
  lemma EditTotals(ds: seq<Detail>, j: nat, e: DetailEdit)
    requires j < |ds|
    ensures var ds' := ds[j := WithDetailField(ds[j], e)];
            && DetailTotals(ds').totalDebit == DetailTotals(ds).totalDebit - DebitOf(ds[j]) + DebitOf(ds'[j])
            && DetailTotals(ds').totalCredit == DetailTotals(ds).totalCredit - CreditOf(ds[j]) + CreditOf(ds'[j])
            && (e.SetAccountCode? || e.SetDescription? ==> DetailTotals(ds') == DetailTotals(ds))
  {
    SumOfUpdate(ds, j, WithDetailField(ds[j], e), DebitOf);
    SumOfUpdate(ds, j, WithDetailField(ds[j], e), CreditOf);
  }

  /** The seats with the given id removed, the others kept in order. */
  function WithoutSeat(seats: seq<Seat>, seatId: string): seq<Seat> {
    Filter(seats, (s: Seat) => s.id != seatId)
  }

  /** Deleting removes every seat with that id and keeps every other one, in order. */
  lemma WithoutSeatSpec(seats: seq<Seat>, seatId: string, a: seq<Seat>, b: seq<Seat>)
    ensures forall s :: s in WithoutSeat(seats, seatId) <==> s in seats && s.id != seatId
    ensures WithoutSeat(a + b, seatId) == WithoutSeat(a, seatId) + WithoutSeat(b, seatId)
  {
    FilterSpec(seats, (s: Seat) => s.id != seatId);
    FilterAppend(a, b, (s: Seat) => s.id != seatId);
  }

  /** The seats the page shows for project id: those of the first stored project with that id, or none. */
  function LoadSeats(projects: seq<Project>, id: int): seq<Seat> {
    var i := FindProjectIndex(projects, id);
    if i == -1 then [] else projects[i].seats
  }

  /** The stored projects after `saveSeats`: the seats of the first project with the id replaced. */
  function Saved(projects: seq<Project>, id: int, seats: seq<Seat>): seq<Project> {
    var i := FindProjectIndex(projects, id);
    if i == -1 then projects else projects[i := projects[i].(seats := seats)]
  }

  /**
    Saving changes only the seats of the project with the id, and nothing when there is
    no such project; reloading the page after a save shows the seats saved.
  */
  lemma SaveThenLoad(projects: seq<Project>, id: int, seats: seq<Seat>)
    ensures |Saved(projects, id, seats)| == |projects|
    ensures forall i :: 0 <= i < |projects| ==>
              Saved(projects, id, seats)[i] == (if i == FindProjectIndex(projects, id) then projects[i].(seats := seats) else projects[i])
    ensures FindProjectIndex(projects, id) == -1 ==> Saved(projects, id, seats) == projects && LoadSeats(Saved(projects, id, seats), id) == []
    ensures FindProjectIndex(projects, id) != -1 ==> LoadSeats(Saved(projects, id, seats), id) == seats
  {
    FindProjectIndexSameIds(projects, Saved(projects, id, seats), id);
  }

  /** The inner walk of the used-accounts effect: the line items of one seat, in order. */
  method CollectSeat(used: seq<string>, seat: Seat, ghost before: seq<Posting>) returns (accountsSet: seq<string>)
    requires used == UsedAccountsOf(before)
    ensures accountsSet == UsedAccountsOf(before + SeatPostings(seat))
  {
    accountsSet := used;
    ghost var done := before;
    var j := 0;
    while j < |seat.details|
      invariant j <= |seat.details|
      invariant done == before + SeatPostings(seat)[..j]
      invariant accountsSet == UsedAccountsOf(done)
    {
      var detail := seat.details[j];
      UsedAccountsStep(done, Posting(seat.date, detail));
      if detail.account_code != "" && detail.account_code !in accountsSet {
        accountsSet := accountsSet + [detail.account_code];
      }
      SeatPostingsStep(seat, j);
      done := done + [Posting(seat.date, detail)];
      j := j + 1;
    }
    assert SeatPostings(seat)[..j] == SeatPostings(seat);
  }

  /**
    The walk of the used-accounts effect: every line item of every seat, in order, adds
    its code to a set when the code is not empty. The set's insertion order is kept.
  */
  method CollectUsedAccounts(seats: seq<Seat>) returns (accountsSet: seq<string>)
    ensures accountsSet == UsedAccountsOf(Postings(seats))
  {
    accountsSet := [];
    var i := 0;
    assert seats[..0] == [];
    while i < |seats|
      invariant i <= |seats|
      invariant accountsSet == UsedAccountsOf(Postings(seats[..i]))
    {
      accountsSet := CollectSeat(accountsSet, seats[i], Postings(seats[..i]));
      PostingsStep(seats, i);
      i := i + 1;
    }
    assert seats[..i] == seats;
  }

  /** A non-empty code carried by some line item of some seat is among the used accounts. */
  lemma CarriedCodeUsed(seats: seq<Seat>, i: nat, j: nat)
    requires i < |seats| && j < |seats[i].details|
    requires seats[i].details[j].account_code != ""
    ensures seats[i].details[j].account_code in UsedAccountsOf(Postings(seats))
  {
    var ps := Postings(seats);
    var p := Posting(seats[i].date, seats[i].details[j]);
    DetailInPostings(seats, i, j);
    var k :| 0 <= k < |ps| && ps[k] == p;
    UsedAccountsSpec(ps);
  }

  /**
    The seat editor page of the project with id `id`. Every handler that replaces the
    seats ends with the used-accounts effect React runs after the seats change, so the
    codes offered are always those collected from the seats shown.
  */
  class SeatsPage {
    /** The project's id, read from the route. */
    const id: int
    var seats: seq<Seat>
    /** The codes offered in the account selector, in order. */
    var usedAccounts: seq<string>
    /** The project list kept in the browser's storage. */
    var storedProjects: seq<Project>

    /** Opening the page: the seats of its project are loaded and the used codes collected. */
    constructor(id: int, storedProjects: seq<Project>)
      ensures this.id == id && this.storedProjects == storedProjects
      ensures seats == LoadSeats(storedProjects, id)
      ensures usedAccounts == UsedAccountsOf(Postings(seats))
    {
      this.id := id;
      this.storedProjects := storedProjects;
      seats := LoadSeats(storedProjects, id);
      usedAccounts := [];
      new;
      RefreshUsedAccounts();
    }

    /**
      The used-accounts effect, run whenever the seats change: the codes offered become
      those collected from the seats, distinct and none empty.
    */
    method RefreshUsedAccounts()
      modifies this
      ensures seats == old(seats) && storedProjects == old(storedProjects)
      ensures usedAccounts == UsedAccountsOf(Postings(seats))
      ensures Distinct(usedAccounts) && "" !in usedAccounts
    {
      usedAccounts := CollectUsedAccounts(seats);
      UsedAccountsSpec(Postings(seats));
    }

    /** `saveSeats`: the new seats go into the first stored project with the page's id, if any. */
    method SaveSeats(updatedSeats: seq<Seat>)
      modifies this
      ensures storedProjects == Saved(old(storedProjects), id, updatedSeats)
      ensures seats == old(seats) && usedAccounts == old(usedAccounts)
    {
      var projectIndex := FindProjectIndex(storedProjects, id);
      if projectIndex == -1 {
        return;
      }
      storedProjects := storedProjects[projectIndex := storedProjects[projectIndex].(seats := updatedSeats)];
    }

    /** `addNewSeat`: an empty seat of this project, with the given fresh id, at the end. */
    method AddNewSeat(newId: string)
      modifies this
      ensures seats == old(seats) + [Seat(newId, id, "", "", [])]
      ensures storedProjects == Saved(old(storedProjects), id, seats)
      ensures usedAccounts == UsedAccountsOf(Postings(seats))
    {
      var updatedSeats := seats + [Seat(newId, id, "", "", [])];
      seats := updatedSeats;
      SaveSeats(updatedSeats);
      RefreshUsedAccounts();
    }

    /** `deleteSeat`: every seat with that id goes. */
    method DeleteSeat(seatId: string)
      modifies this
      ensures seats == WithoutSeat(old(seats), seatId)
      ensures storedProjects == Saved(old(storedProjects), id, seats)
      ensures usedAccounts == UsedAccountsOf(Postings(seats))
    {
      var updatedSeats := WithoutSeat(seats, seatId);
      seats := updatedSeats;
      SaveSeats(updatedSeats);
      RefreshUsedAccounts();
    }

    /** `handleSeatChange`: the date or the description of one seat. */
    method HandleSeatChange(seatIndex: nat, field: SeatField, value: string)
      requires seatIndex < |seats|
      modifies this
      ensures seats == old(seats)[seatIndex := WithSeatField(old(seats)[seatIndex], field, value)]
      ensures storedProjects == Saved(old(storedProjects), id, seats)
      ensures usedAccounts == UsedAccountsOf(Postings(seats))
    {
      var updatedSeats := seats[seatIndex := WithSeatField(seats[seatIndex], field, value)];
      seats := updatedSeats;
      SaveSeats(updatedSeats);
      RefreshUsedAccounts();
    }

    /** `addDetailRow`: a copy of the initial line item at the end of one seat's details. */
    method AddDetailRow(seatIndex: nat)
      requires seatIndex < |seats|
      modifies this
      ensures seats == old(seats)[seatIndex := old(seats)[seatIndex].(details := old(seats)[seatIndex].details + [InitialDetail])]
      ensures storedProjects == Saved(old(storedProjects), id, seats)
      ensures usedAccounts == UsedAccountsOf(Postings(seats))
    {
      var seat := seats[seatIndex];
      var updatedSeats := seats[seatIndex := seat.(details := seat.details + [InitialDetail])];
      seats := updatedSeats;
      SaveSeats(updatedSeats);
      RefreshUsedAccounts();
    }

    /**
      `handleDetailChange`: one field of one line item. A non-empty account code not yet
      offered is appended to the offered codes at once; the effect that follows the seat
      change then recollects them, and the new code is among them.
    */
    method HandleDetailChange(seatIndex: nat, detailIndex: nat, edit: DetailEdit)
      requires seatIndex < |seats| && detailIndex < |seats[seatIndex].details|
      modifies this
      ensures var s := old(seats)[seatIndex];
              seats == old(seats)[seatIndex := s.(details := s.details[detailIndex := WithDetailField(s.details[detailIndex], edit)])]
      ensures storedProjects == Saved(old(storedProjects), id, seats)
      ensures usedAccounts == UsedAccountsOf(Postings(seats))
      ensures edit.SetAccountCode? && edit.code != "" ==> edit.code in usedAccounts
    {
      var seat := seats[seatIndex];
      var updatedSeats := seats[seatIndex := seat.(details := seat.details[detailIndex := WithDetailField(seat.details[detailIndex], edit)])];
      if edit.SetAccountCode? {
        usedAccounts := Remember(usedAccounts, edit.code);
      }
      seats := updatedSeats;
      SaveSeats(updatedSeats);
      RefreshUsedAccounts();
      if edit.SetAccountCode? && edit.code != "" {
        CarriedCodeUsed(seats, seatIndex, detailIndex);
      }
    }

    /** `removeDetailRow`: `splice(detailIndex, 1)` on one seat's details. */
    method RemoveDetailRow(seatIndex: nat, detailIndex: int)
      requires seatIndex < |seats|
      modifies this
      ensures seats == old(seats)[seatIndex := old(seats)[seatIndex].(details := SpliceOne(old(seats)[seatIndex].details, detailIndex))]
      ensures storedProjects == Saved(old(storedProjects), id, seats)
      ensures usedAccounts == UsedAccountsOf(Postings(seats))
    {
      var seat := seats[seatIndex];
      var updatedSeats := seats[seatIndex := seat.(details := SpliceOne(seat.details, detailIndex))];
      seats := updatedSeats;
      SaveSeats(updatedSeats);
      RefreshUsedAccounts();
    }

    /** `calculateTotals`: the debit and credit totals shown under one seat. */
    method CalculateTotals(seatIndex: nat) returns (totalDebit: int, totalCredit: int)
      requires seatIndex < |seats|
      ensures totalDebit == SumOf(seats[seatIndex].details, DebitOf)
      ensures totalCredit == SumOf(seats[seatIndex].details, CreditOf)
      ensures totalDebit == totalCredit <==> ShowsBalanced(seats[seatIndex].details)
    {
      var details := seats[seatIndex].details;
      totalDebit := SumOf(details, DebitOf);
      totalCredit := SumOf(details, CreditOf);
    }
  }
}

/**
  The accounting receipt of one seat: its debit and credit totals, its date split into
  year, month and day, and its line items grouped in two levels, by main account (the
  first 4 characters of the account number) and by sub-account (the first 6). Unlike the
  trial balance, the receipt first separates the account number from the account name
  ("110505 - Caja general" has number "110505" and name "General") and groups by
  the number alone; its group columns are raw sums, not folded.
*/
module SeatReceipt {
  import opened Grouping
  import opened Text
  import opened Books

  /** The two halves of an account code: the account number and the account name. */
  datatype AccountCode = AccountCode(code: string, name: string)

  /** `splitAccountCode`: the trimmed text before the first '-' and between the first and the second. */
  function SplitAccountCode(account_code: string): AccountCode {
    if account_code == "" then AccountCode("", "")
    else
      var parts := Split(account_code, '-');
      AccountCode(Trim(parts[0]), if |parts| > 1 then Trim(parts[1]) else "")
  }

  /**
    `splitAccountCode`: an empty code has empty halves; otherwise the number is the trimmed
    text before the first '-' and the name the trimmed text between the first and the
    second '-', or "" when there is no '-'. Neither half contains '-'.
  */
  lemma SplitAccountCodeSpec(account_code: string)
    ensures var r := SplitAccountCode(account_code);
            && '-' !in r.code && '-' !in r.name
            && (account_code == "" ==> r == AccountCode("", ""))
            && (account_code != "" ==> r.code == Trim(Before(account_code, '-')))
            && (account_code != "" ==>
                  r.name == if '-' in account_code then Trim(Before(After(account_code, '-'), '-')) else "")
  {
    if account_code != "" {
      var parts := Split(account_code, '-');
      SplitSpec(account_code, '-');
      TrimChars(parts[0], '-');
      if '-' in account_code {
        SplitSpec(After(account_code, '-'), '-');
        assert parts[1] == Split(After(account_code, '-'), '-')[0];
        TrimChars(parts[1], '-');
      } else {
        SplitNoSep(account_code, '-');
      }
    }
  }

  /** A number and a name, both trimmed and free of '-', written as "number-name" split back into the two. */
  lemma SplitAccountCodeRoundTrip(code: string, name: string)
    requires '-' !in code && '-' !in name
    requires Trim(code) == code && Trim(name) == name
    ensures SplitAccountCode(code + "-" + name) == AccountCode(code, name)
  {
    SplitPrefix(code, name, '-');
    SplitNoSep(name, '-');
    assert code + "-" + name == code + ['-'] + name;
  }

  /** `parts[n] || ""`: the n-th part, or "" when there are fewer parts. */
  function Part(parts: seq<string>, n: nat): string {
    if n < |parts| then parts[n] else ""
  }

  /** `getDescriptionParts`: no parts for an empty description, otherwise its comma-separated parts, trimmed. */
  function DescriptionParts(description: string): seq<string> {
    if description == "" then []
    else
      var pieces := Split(description, ',');
      seq(|pieces|, i requires 0 <= i < |pieces| => Trim(pieces[i]))
  }

  /** One part more than there are commas, each part trimmed and free of commas. */
  lemma DescriptionPartsSpec(description: string)
    ensures description == "" <==> DescriptionParts(description) == []
    ensures description != "" ==> |DescriptionParts(description)| == Count(description, ',') + 1
    ensures forall i :: 0 <= i < |DescriptionParts(description)| ==>
              ',' !in DescriptionParts(description)[i] && Trim(DescriptionParts(description)[i]) == DescriptionParts(description)[i]
  {
    if description != "" {
      var pieces := Split(description, ',');
      SplitSpec(description, ',');
      forall i | 0 <= i < |pieces|
        ensures ',' !in Trim(pieces[i]) && Trim(Trim(pieces[i])) == Trim(pieces[i])
      {
        TrimChars(pieces[i], ',');
        TrimIdempotent(pieces[i]);
      }
    }
  }

  /** Trimmed, comma-free parts joined with commas are read back as the same parts. */
  lemma DescriptionPartsRoundTrip(parts: seq<string>)
    requires |parts| >= 1
    requires forall i :: 0 <= i < |parts| ==> ',' !in parts[i] && Trim(parts[i]) == parts[i]
    requires Join(parts, ',') != ""
    ensures DescriptionParts(Join(parts, ',')) == parts
  {
    SplitJoin(parts, ',');
  }

  /** The date of a receipt, split on '-'; a missing part is "". */
  datatype DateParts = DateParts(year: string, month: string, day: string)

  /** `seat.date ? seat.date.split("-") : ["", "", ""]`, destructured into year, month and day. */
  function SplitDate(date: string): DateParts {
    var parts := if date == "" then ["", "", ""] else Split(date, '-');
    DateParts(Part(parts, 0), Part(parts, 1), Part(parts, 2))
  }

  /** A part as the receipt prints it: "--" when it is empty or missing. */
  function OrDashes(s: string): string {
    if s == "" then "--" else s
  }

  /** The receipt's date line, day/month/year. */
  function ShownDate(date: string): string {
    var d := SplitDate(date);
    OrDashes(d.day) + "/" + OrDashes(d.month) + "/" + OrDashes(d.year)
  }

  /** A "YYYY-MM-DD" date splits back into its year, month and day. */
  lemma SplitDateRoundTrip(year: string, month: string, day: string)
    requires '-' !in year && '-' !in month && '-' !in day
    ensures SplitDate(year + "-" + month + "-" + day) == DateParts(year, month, day)
  {
    var parts := [year, month, day];
    SplitJoin(parts, '-');
    assert parts[1..] == [month, day];
    assert [month, day][1..] == [day];
    assert Join([month, day], '-') == month + "-" + day;
    assert Join(parts, '-') == year + "-" + month + "-" + day;
  }

  /** A seat without a date prints dashes in all three places. */
  lemma ShownDateEmpty()
    ensures ShownDate("") == "--/--/--"
  {
    assert SplitDate("") == DateParts("", "", "");
  }

  /** A full date prints day first. */
  lemma ShownDateExample()
    ensures ShownDate("2024-03-15") == "15" + "/" + "03" + "/" + "2024"
  {
    SplitDateRoundTrip("2024", "03", "15");
    assert "2024" + "-" + "03" + "-" + "15" == "2024-03-15";
    var d := SplitDate("2024-03-15");
    assert d == DateParts("2024", "03", "15");
    assert OrDashes(d.day) == "15" && OrDashes(d.month) == "03" && OrDashes(d.year) == "2024";

  }

  /**
    The partial amount printed on a line item: the debit when it reads as non-zero,
    otherwise the credit; nothing is printed when both read as zero.
  */
  function Partial(d: Detail): (shown: Option<int>)
    ensures shown == None <==> DebitOf(d) == 0 && CreditOf(d) == 0
    ensures shown.Some? ==> shown.value == DebitOf(d) || shown.value == CreditOf(d)
    ensures DebitOf(d) == 0 || CreditOf(d) == 0 ==>
              shown == if DebitOf(d) + CreditOf(d) == 0 then None else Some(DebitOf(d) + CreditOf(d))
    ensures DebitOf(d) != 0 ==> shown == Some(DebitOf(d))
    ensures DebitOf(d) == 0 ==> shown == if CreditOf(d) == 0 then None else Some(CreditOf(d))
  {
    var v := if Value(d.debit) != 0 then Value(d.debit) else Value(d.credit);
    if v != 0 then Some(v) else None
  }

  /** The account number of a line item, without its name. */
  function CodeOf(d: Detail): string { SplitAccountCode(d.account_code).code }

  /** The main account of a line item: the first 4 characters of its number. */
  function MainCode(d: Detail): string { Prefix(CodeOf(d), 4) }

  /** The sub-account of a line item: the first 6 characters of its number. */
  function SubCode(d: Detail): string { Prefix(CodeOf(d), 6) }

  /** A sub-account and its line items ("auxiliares"). */
  datatype SubGroup = SubGroup(subcuenta: string, auxiliares: seq<Detail>)

  /** A main account as the receipt prints it: its raw debit and credit sums and its sub-accounts. */
  datatype MainGroup = MainGroup(cuenta: string, debit: int, credit: int, subcuentas: seq<SubGroup>)

  /**
    A main account while the line items are walked: the sub-accounts object and, beside
    it, the order in which its keys were created.
  */
  datatype MainState = MainState(
    cuenta: string, debit: int, credit: int, subcuentas: map<string, SubGroup>, subOrder: seq<string>)

  /** The sub-account sk of the line items g. */
  function SubGroupOf(g: seq<Detail>, sk: string): SubGroup {
    SubGroup(sk, Select(g, SubCode, sk))
  }

  /** The sub-accounts of the line items g, in order of first appearance. */
  function SubGroupsOf(g: seq<Detail>): (subs: seq<SubGroup>)
    ensures |subs| == |KeysOf(g, SubCode)|
  {
    var ks := KeysOf(g, SubCode);
    seq(|ks|, j requires 0 <= j < |ks| => SubGroupOf(g, ks[j]))
  }

  /** The main account k of a seat's line items. */
  function MainGroupOf(details: seq<Detail>, k: string): MainGroup {
    var g := Select(details, MainCode, k);
    MainGroup(k, SumOf(g, DebitOf), SumOf(g, CreditOf), SubGroupsOf(g))
  }

  /** What the receipt's table shows: the main accounts of the seat in order of first appearance. */
  function Receipt(details: seq<Detail>): (groups: seq<MainGroup>)
    ensures |groups| == |KeysOf(details, MainCode)|
  {
    var ks := KeysOf(details, MainCode);
    seq(|ks|, r requires 0 <= r < |ks| => MainGroupOf(details, ks[r]))
  }

  /** The state of one main account k after walking the line items g of that account. */
  ghost predicate GroupWalked(st: MainState, k: string, g: seq<Detail>) {
    && st.cuenta == k
    && st.debit == SumOf(g, DebitOf)
    && st.credit == SumOf(g, CreditOf)
    && st.subOrder == KeysOf(g, SubCode)
    && (forall sk :: sk in st.subcuentas <==> sk in st.subOrder)
    && SubsMatch(st.subcuentas, g)
  }

  /** Every sub-account in the map holds the line items of its code among g. */
  ghost predicate SubsMatch(subs: map<string, SubGroup>, g: seq<Detail>) {
    forall sk :: sk in subs ==> subs[sk] == SubGroupOf(g, sk)
  }

  /** The `agrupado` object and its key order after walking the line items done. */
  ghost predicate Walked(agrupado: map<string, MainState>, order: seq<string>, done: seq<Detail>) {
    && order == KeysOf(done, MainCode)
    && (forall k :: k in agrupado <==> k in order)
    && (forall k :: k in agrupado ==> GroupWalked(agrupado[k], k, Select(done, MainCode, k)))
  }

  /** Creating the main account k when missing gives the state of its line items so far. */
  lemma OpenGroup(m0: map<string, MainState>, o0: seq<string>, done: seq<Detail>, k: string, m1: map<string, MainState>)
    requires Walked(m0, o0, done)
    requires k in m0 ==> m1 == m0
    requires k !in m0 ==> m1 == m0[k := MainState(k, 0, 0, map[], [])]
    ensures k in m1 && GroupWalked(m1[k], k, Select(done, MainCode, k))
  {
    if k !in m0 {
      SelectNonEmpty(done, MainCode, k);
    }
  }

  /** Creating sub-account sk when it is missing keeps every sub-account matching. */
  lemma OpenSub(st0: MainState, k: string, g: seq<Detail>, sk: string, st1: MainState)
    requires GroupWalked(st0, k, g)
    requires sk in st0.subcuentas ==> st1 == st0
    requires sk !in st0.subcuentas ==>
               st1 == st0.(subcuentas := st0.subcuentas[sk := SubGroup(sk, [])], subOrder := st0.subOrder + [sk])
    ensures SubsMatch(st1.subcuentas, g) && sk in st1.subcuentas
    ensures forall sk' :: sk' in st1.subcuentas <==> sk' in st1.subOrder
  {
    if sk !in st0.subcuentas {
      SelectNonEmpty(g, SubCode, sk);
    }
  }

  /** Pushing d onto the sub-account of its code makes the map match one more line item. */
  lemma PushAux(subs: map<string, SubGroup>, g: seq<Detail>, d: Detail, sk: string, sub: SubGroup)
    requires SubsMatch(subs, g)
    requires sk == SubCode(d) && sk in subs && sub == subs[sk]
    ensures SubsMatch(subs[sk := sub.(auxiliares := sub.auxiliares + [d])], g + [d])
  {
    var m := subs[sk := sub.(auxiliares := sub.auxiliares + [d])];
    SelectStep(g, d, SubCode, sk);
    forall sk' | sk' in m && sk' != sk
      ensures m[sk'] == SubGroupOf(g + [d], sk')
    {
      SubGroupOther(g, d, sk');
    }
  }

  /** One more line item leaves the other sub-accounts as they were. */
  lemma SubGroupOther(g: seq<Detail>, d: Detail, sk: string)
    requires SubCode(d) != sk
    ensures SubGroupOf(g + [d], sk) == SubGroupOf(g, sk)
  {
    SelectStep(g, d, SubCode, sk);
  }

  /** Pushing line item d into its sub-account of main account k and adding its amounts. */
  lemma GroupStep(st0: MainState, k: string, g: seq<Detail>, d: Detail, sk: string, st1: MainState, sub: SubGroup)
    requires GroupWalked(st0, k, g)
    requires sk == SubCode(d)
    requires sk in st0.subcuentas ==> st1 == st0
    requires sk !in st0.subcuentas ==>
               st1 == st0.(subcuentas := st0.subcuentas[sk := SubGroup(sk, [])], subOrder := st0.subOrder + [sk])
    requires sk in st1.subcuentas && sub == st1.subcuentas[sk]
    ensures GroupWalked(
              st1.(subcuentas := st1.subcuentas[sk := sub.(auxiliares := sub.auxiliares + [d])],
                   debit := st1.debit + Value(d.debit), credit := st1.credit + Value(d.credit)),
              k, g + [d])
  {
    KeysOfStep(g, d, SubCode);
    SumOfStep(g, d, DebitOf);
    SumOfStep(g, d, CreditOf);
    OpenSub(st0, k, g, sk, st1);
    PushAux(st1.subcuentas, g, d, sk, sub);
  }

  /** Storing the updated main account k completes the step of the walk. */
  lemma WalkStep(m0: map<string, MainState>, o0: seq<string>, done: seq<Detail>, d: Detail, k: string,
                 m1: map<string, MainState>, o1: seq<string>, st: MainState)
    requires Walked(m0, o0, done)
    requires k == MainCode(d)
    requires k in m0 ==> m1 == m0 && o1 == o0
    requires k !in m0 ==> m1 == m0[k := MainState(k, 0, 0, map[], [])] && o1 == o0 + [k]
    requires GroupWalked(st, k, Select(done, MainCode, k) + [d])
    ensures Walked(m1[k := st], o1, done + [d])
  {
    KeysOfStep(done, d, MainCode);
    forall k' | k' in m1[k := st]
      ensures GroupWalked(m1[k := st][k'], k', Select(done + [d], MainCode, k'))
    {
      SelectStep(done, d, MainCode, k');
    }
  }

  /**
    `Object.values(grupo.subcuentas)`: a main account with its sub-accounts, held in creation
    order; `MainLabel` picks the one the page lists first.
  */
  function GroupValues(st: MainState): MainGroup
    requires forall sk :: sk in st.subOrder ==> sk in st.subcuentas
  {
    MainGroup(st.cuenta, st.debit, st.credit,
              seq(|st.subOrder|, j requires 0 <= j < |st.subOrder| => st.subcuentas[st.subOrder[j]]))
  }

  /** The whole walk read out as the main accounts in creation order is the receipt. */
  lemma ValuesAreReceipt(agrupado: map<string, MainState>, order: seq<string>, details: seq<Detail>)
    requires Walked(agrupado, order, details)
    ensures forall k :: k in order ==> k in agrupado && forall sk :: sk in agrupado[k].subOrder ==> sk in agrupado[k].subcuentas
    ensures forall r :: 0 <= r < |order| ==> GroupValues(agrupado[order[r]]) == Receipt(details)[r]
  {
    forall r | 0 <= r < |order|
      ensures GroupValues(agrupado[order[r]]) == Receipt(details)[r]
    {
      var k := order[r];
      var st := agrupado[k];
      var g := Select(details, MainCode, k);
      assert GroupWalked(st, k, g);
      assert GroupValues(st).subcuentas == SubGroupsOf(g);
    }
  }

  /**
    The body of the `forEach` that builds `agrupado`, for one line item: its main account
    and its sub-account are created when missing, the item is pushed onto the
    sub-account's line items, and its debit and credit are added to the main account.
  */
  method AddDetail(agrupado: map<string, MainState>, order: seq<string>, detail: Detail, ghost done: seq<Detail>)
    returns (agrupado': map<string, MainState>, order': seq<string>)
    requires Walked(agrupado, order, done)
    ensures Walked(agrupado', order', done + [detail])
  {
    var code := SplitAccountCode(detail.account_code).code;
    var cuenta := Prefix(code, 4);
    agrupado', order' := agrupado, order;
    if cuenta !in agrupado' {
      agrupado' := agrupado'[cuenta := MainState(cuenta, 0, 0, map[], [])];
      order' := order' + [cuenta];
    }
    OpenGroup(agrupado, order, done, cuenta, agrupado');
    var subcuenta := Prefix(code, 6);
    var grupo := agrupado'[cuenta];
    ghost var g0 := grupo;
    if subcuenta !in grupo.subcuentas {
      grupo := grupo.(subcuentas := grupo.subcuentas[subcuenta := SubGroup(subcuenta, [])],
                      subOrder := grupo.subOrder + [subcuenta]);
    }
    var sub := grupo.subcuentas[subcuenta];
    GroupStep(g0, cuenta, Select(done, MainCode, cuenta), detail, subcuenta, grupo, sub);
    grupo := grupo.(subcuentas := grupo.subcuentas[subcuenta := sub.(auxiliares := sub.auxiliares + [detail])],
                    debit := grupo.debit + Value(detail.debit), credit := grupo.credit + Value(detail.credit));
    WalkStep(agrupado, order, done, detail, cuenta, agrupado', order', grupo);
    agrupado' := agrupado'[cuenta := grupo];
  }

  /**
    Building `agrupado` over the seat's line items in order, then `Object.values`: the
    result is the receipt's table, its keys held in creation order.
  */
  method GroupReceipt(details: seq<Detail>) returns (agrupadoArray: seq<MainGroup>)
    ensures agrupadoArray == Receipt(details)
  {
    var agrupado: map<string, MainState> := map[];
    var order: seq<string> := [];
    var i := 0;
    while i < |details|
      invariant i <= |details|
      invariant Walked(agrupado, order, details[..i])
    {
      agrupado, order := AddDetail(agrupado, order, details[i], details[..i]);
      TakeOneMore(details, i);
      i := i + 1;
    }
    assert details[..i] == details;
    ValuesAreReceipt(agrupado, order, details);
    agrupadoArray := seq(|order|, r requires 0 <= r < |order| => GroupValues(agrupado[order[r]]));
  }

  /**
    One main account per distinct main-account number, each the number of some line item,
    and the account of every line item's number among them.
  */
  lemma ReceiptAccounts(details: seq<Detail>)
    ensures forall r, s :: 0 <= r < s < |Receipt(details)| ==> Receipt(details)[r].cuenta != Receipt(details)[s].cuenta
    ensures forall r :: 0 <= r < |Receipt(details)| ==>
              exists i :: 0 <= i < |details| && MainCode(details[i]) == Receipt(details)[r].cuenta
    ensures forall i :: 0 <= i < |details| ==> MainGroupOf(details, MainCode(details[i])) in Receipt(details)
  {
    var ks := KeysOf(details, MainCode);
    KeysOfSpec(details, MainCode);
    assert forall r :: 0 <= r < |ks| ==> Receipt(details)[r].cuenta == ks[r];
    forall r | 0 <= r < |Receipt(details)|
      ensures exists i :: 0 <= i < |details| && MainCode(details[i]) == Receipt(details)[r].cuenta
    {
      assert ks[r] in ks;
    }
    forall i | 0 <= i < |details|
      ensures MainGroupOf(details, MainCode(details[i])) in Receipt(details)
    {
      var k := MainCode(details[i]);
      assert k in ks;
      var r :| 0 <= r < |ks| && ks[r] == k;
      assert Receipt(details)[r] == MainGroupOf(details, k);
    }
  }

  /**
    Inside a main account, every sub-account number begins with the main-account number,
    holds at least one line item, and holds only line items of that sub-account and main account.
  */
  lemma SubAccountShape(details: seq<Detail>, r: nat, j: nat)
    requires r < |Receipt(details)| && j < |Receipt(details)[r].subcuentas|
    ensures var grp := Receipt(details)[r];
            var sub := grp.subcuentas[j];
            && grp.cuenta <= sub.subcuenta
            && |sub.auxiliares| > 0
            && forall a :: a in sub.auxiliares ==> MainCode(a) == grp.cuenta && SubCode(a) == sub.subcuenta
  {
    var k := KeysOf(details, MainCode)[r];
    var g := Select(details, MainCode, k);
    var sk := KeysOf(g, SubCode)[j];
    var aux := Select(g, SubCode, sk);
    SelectSpec(details, MainCode, k);
    SelectSpec(g, SubCode, sk);
    SelectNonEmpty(g, SubCode, sk);
    var a := aux[0];
    assert a in g;
    PrefixOfPrefix(CodeOf(a), 6, 4);
    assert k == Prefix(sk, 4);
  }

  function GroupDebit(grp: MainGroup): int { grp.debit }
  function GroupCredit(grp: MainGroup): int { grp.credit }

  /** The main accounts' debits add up to the seat's total debit, and their credits to its total credit. */
  lemma ReceiptTotals(details: seq<Detail>)
    ensures SumOf(Receipt(details), GroupDebit) == DetailTotals(details).totalDebit
    ensures SumOf(Receipt(details), GroupCredit) == DetailTotals(details).totalCredit
  {
    var ks := KeysOf(details, MainCode);
    SumOfGroups(Receipt(details), GroupDebit, ks, details, MainCode, DebitOf);
    SumOfGroups(Receipt(details), GroupCredit, ks, details, MainCode, CreditOf);
    GroupSumPartition(details, MainCode, DebitOf);
    GroupSumPartition(details, MainCode, CreditOf);
  }

  /** The banner says balanced exactly when the main accounts' debit and credit columns add up to the same amount. */
  lemma BalancedIffColumnsAgree(details: seq<Detail>)
    ensures ShowsBalanced(details) <==> SumOf(Receipt(details), GroupDebit) == SumOf(Receipt(details), GroupCredit)
  {
    ReceiptTotals(details);
  }

  function AuxCount(sub: SubGroup): int { |sub.auxiliares| }

  /** The number of line items printed under a main account. */
  function DetailsIn(grp: MainGroup): int { SumOf(grp.subcuentas, AuxCount) }

  lemma SubCounts(g: seq<Detail>)
    ensures SumOf(SubGroupsOf(g), AuxCount) == |g|
  {
    var ks := KeysOf(g, SubCode);
    var subs := SubGroupsOf(g);
    forall j | 0 <= j < |subs|
      ensures AuxCount(subs[j]) == SumOf(Select(g, SubCode, ks[j]), One)
    {
      SumOfOnes(Select(g, SubCode, ks[j]));
    }
    SumOfGroups(subs, AuxCount, ks, g, SubCode, One);
    GroupSizes(g, SubCode);
  }

  /** Every line item of the seat is printed once: the receipt lists as many line items as the seat has. */
  lemma ReceiptCount(details: seq<Detail>)
    ensures SumOf(Receipt(details), DetailsIn) == |details|
  {
    var ks := KeysOf(details, MainCode);
    var groups := Receipt(details);
    forall r | 0 <= r < |groups|
      ensures DetailsIn(groups[r]) == SumOf(Select(details, MainCode, ks[r]), One)
    {
      var g := Select(details, MainCode, ks[r]);
      SubCounts(g);
      SumOfOnes(g);
    }
    SumOfGroups(groups, DetailsIn, ks, details, MainCode, One);
    GroupSizes(details, MainCode);
  }

  function AuxOf(sub: SubGroup): seq<Detail> { sub.auxiliares }

  /** The line items printed under a main account, sub-account by sub-account. */
  function PrintedIn(grp: MainGroup): seq<Detail> { ConcatOf(grp.subcuentas, AuxOf) }

  /** The sub-accounts of a main account print each of its line items exactly once. */
  lemma GroupPrinted(g: seq<Detail>)
    ensures multiset(ConcatOf(SubGroupsOf(g), AuxOf)) == multiset(g)
  {
    var ks := KeysOf(g, SubCode);
    var subs := SubGroupsOf(g);
    forall j | 0 <= j < |subs|
      ensures multiset(AuxOf(subs[j])) == multiset(Map(Select(g, SubCode, ks[j]), Id))
    {
      MapId(Select(g, SubCode, ks[j]));
    }
    ConcatOfGroups(subs, AuxOf, ks, g, SubCode, Id);
    GroupConcatPartition(g, SubCode, Id);
    MapId(g);
  }

  /**
    The receipt prints every line item of the seat exactly as many times as the seat
    holds it: the printed line items, main account by main account, are a permutation
    of the seat's.
  */
  lemma ReceiptItems(details: seq<Detail>)
    ensures multiset(ConcatOf(Receipt(details), PrintedIn)) == multiset(details)
  {
    var ks := KeysOf(details, MainCode);
    var groups := Receipt(details);
    forall r | 0 <= r < |groups|
      ensures multiset(PrintedIn(groups[r])) == multiset(Map(Select(details, MainCode, ks[r]), Id))
    {
      GroupPrinted(Select(details, MainCode, ks[r]));
      MapId(Select(details, MainCode, ks[r]));
    }
    ConcatOfGroups(groups, PrintedIn, ks, details, MainCode, Id);
    GroupConcatPartition(details, MainCode, Id);
    MapId(details);
  }

  /** Where line item i of the seat is printed: its place among the line items of its sub-account. */
  ghost function AuxPosition(details: seq<Detail>, i: nat): nat
    requires i < |details|
  {
    var g := Select(details, MainCode, MainCode(details[i]));
    GroupPlacement(details, MainCode, i);
    PositionInGroup(g, SubCode, PositionInGroup(details, MainCode, i))
  }

  /** Line item p of a main account's items is in the sub-account of its number, at its place there. */
  lemma SubPlacement(g: seq<Detail>, p: nat)
    requires p < |g|
    ensures var sub := SubGroupOf(g, SubCode(g[p]));
            && sub in SubGroupsOf(g)
            && PositionInGroup(g, SubCode, p) < |sub.auxiliares|
            && sub.auxiliares[PositionInGroup(g, SubCode, p)] == g[p]
  {
    var sks := KeysOf(g, SubCode);
    KeysOfSpec(g, SubCode);
    assert SubCode(g[p]) in sks;
    var j :| 0 <= j < |sks| && sks[j] == SubCode(g[p]);
    assert SubGroupsOf(g)[j] == SubGroupOf(g, SubCode(g[p]));
    GroupPlacement(g, SubCode, p);
  }

  /**
    Line item i is printed in the main account of its number, in the sub-account of its
    number, at its place there.
  */
  lemma DetailInReceipt(details: seq<Detail>, i: nat)
    requires i < |details|
    ensures var d := details[i];
            var grp := MainGroupOf(details, MainCode(d));
            var sub := SubGroupOf(Select(details, MainCode, MainCode(d)), SubCode(d));
            && grp in Receipt(details)
            && sub in grp.subcuentas
            && AuxPosition(details, i) < |sub.auxiliares|
            && sub.auxiliares[AuxPosition(details, i)] == d
  {
    ReceiptAccounts(details);
    GroupPlacement(details, MainCode, i);
    SubPlacement(Select(details, MainCode, MainCode(details[i])), PositionInGroup(details, MainCode, i));
  }

  /** Two line items of the same sub-account are printed in the order the seat lists them. */
  lemma AuxOrder(details: seq<Detail>, i: nat, j: nat)
    requires i < j < |details|
    requires SubCode(details[i]) == SubCode(details[j])
    ensures MainCode(details[i]) == MainCode(details[j])
    ensures AuxPosition(details, i) < AuxPosition(details, j)
  {
    PrefixOfPrefix(CodeOf(details[i]), 6, 4);
    PrefixOfPrefix(CodeOf(details[j]), 6, 4);
    var k := MainCode(details[i]);
    var g := Select(details, MainCode, k);
    GroupOrder(details, MainCode, i, j);
    GroupPlacement(details, MainCode, i);
    GroupPlacement(details, MainCode, j);
    GroupOrder(g, SubCode, PositionInGroup(details, MainCode, i), PositionInGroup(details, MainCode, j));
  }

  /** The codes of some sub-accounts, in the order they are held. */
  function SubCodes(subs: seq<SubGroup>): (ks: seq<string>)
    ensures |ks| == |subs|
  {
    seq(|subs|, j requires 0 <= j < |subs| => subs[j].subcuenta)
  }

  /**
    The text beside a main account: the first comma-separated part of the description of
    the first line item of the sub-account `Object.values` lists first.
  */
  function MainLabel(grp: MainGroup): string {
    if |grp.subcuentas| == 0 then ""
    else
      var sub := grp.subcuentas[FirstListed(SubCodes(grp.subcuentas))];
      if |sub.auxiliares| > 0 then Part(DescriptionParts(sub.auxiliares[0].description), 0) else ""
  }

  /**
    The label comes from the first line item of the seat booked to the sub-account listed
    first: the numerically least sub-account code that is an array index, or the first
    sub-account created when none is.
  */
  lemma MainLabelSpec(details: seq<Detail>, r: nat)
    requires r < |Receipt(details)|
    ensures var g := Select(details, MainCode, Receipt(details)[r].cuenta);
            var ks := KeysOf(g, SubCode);
            && |ks| > 0
            && (var a := Select(g, SubCode, ks[FirstListed(ks)]);
                |a| > 0 && MainLabel(Receipt(details)[r]) == Part(DescriptionParts(a[0].description), 0))
  {
    var k := KeysOf(details, MainCode)[r];
    var g := Select(details, MainCode, k);
    SelectNonEmpty(details, MainCode, k);
    KeysOfFirst(g, SubCode);
    var ks := KeysOf(g, SubCode);
    var subs := SubGroupsOf(g);
    assert SubCodes(subs) == ks;
    SelectNonEmpty(g, SubCode, ks[FirstListed(ks)]);
  }

  /**
    When no sub-account code of the seat is an array index (every code has a letter, a
    sign or a leading zero), the label is that of the seat's first line item booked to
    the main account.
  */
  lemma MainLabelIsFirstDetail(details: seq<Detail>, r: nat)
    requires r < |Receipt(details)|
    requires forall i :: 0 <= i < |details| ==> !IsArrayIndex(SubCode(details[i]))
    ensures var g := Select(details, MainCode, Receipt(details)[r].cuenta);
            |g| > 0 && MainLabel(Receipt(details)[r]) == Part(DescriptionParts(g[0].description), 0)
  {
    MainLabelSpec(details, r);
    var k := KeysOf(details, MainCode)[r];
    var g := Select(details, MainCode, k);
    var ks := KeysOf(g, SubCode);
    KeysOfSpec(g, SubCode);
    SelectSpec(details, MainCode, k);
    forall m | 0 <= m < |ks|
      ensures !IsArrayIndex(ks[m])
    {
      assert ks[m] in ks;
      var j :| 0 <= j < |g| && SubCode(g[j]) == ks[m];
      assert g[j] in g;
    }
    FirstListedSpec(ks);
    KeysOfFirst(g, SubCode);
  }

  /**
    Sub-accounts 110510 and then 110505 of main account 1105: `Object.values` lists 110505
    first, so the label is the second line item's.
  */
  lemma MainLabelExample()
    ensures var details := [Detail("110510", "Menor", Parsed(100), Parsed(0)),
                            Detail("110505", "General", Parsed(0), Parsed(100))];
            |Receipt(details)| == 1 && MainLabel(Receipt(details)[0]) == "General"
  {
    var d1 := Detail("110510", "Menor", Parsed(100), Parsed(0));
    var d2 := Detail("110505", "General", Parsed(0), Parsed(100));
    ExampleCodes(d1, d2);
    GroupTwo(d1, d2, MainCode);
    GroupTwo(d1, d2, SubCode);
    var ks := KeysOf([d1, d2], SubCode);
    assert ks == ["110510", "110505"];
    ExampleListed(ks);
    MainLabelSpec([d1, d2], 0);
    ExampleDescription(d2);
  }

  /** A code without '-' and without white space at its ends is its own account number. */
  lemma PlainCode(d: Detail)
    requires d.account_code != "" && '-' !in d.account_code
    requires !IsWhitespace(d.account_code[0]) && !IsWhitespace(d.account_code[|d.account_code| - 1])
    ensures CodeOf(d) == d.account_code
  {
    SplitNoSep(d.account_code, '-');
    TrimNoop(d.account_code);
  }

  lemma ExampleCodes(d1: Detail, d2: Detail)
    requires d1.account_code == "110510" && d2.account_code == "110505"
    ensures MainCode(d1) == "1105" && MainCode(d2) == "1105"
    ensures SubCode(d1) == "110510" && SubCode(d2) == "110505"
  {
    ExampleCode(d1);
    ExampleCode(d2);
  }

  lemma ExampleCode(d: Detail)
    requires d.account_code == "110510" || d.account_code == "110505"
    ensures MainCode(d) == "1105" && SubCode(d) == d.account_code
  {
    PlainCode(d);
    assert d.account_code[..4] == "1105";
  }

  lemma ExampleListed(ks: seq<string>)
    requires ks == ["110510", "110505"]
    ensures FirstListed(ks) == 1
  {
    ExampleIndex("110510");
    ExampleIndex("110505");
    assert ks[..1] == ["110510"];
  }

  lemma ExampleIndex(k: string)
    requires k == "110510" || k == "110505"
    ensures IsArrayIndex(k)
    ensures k == "110510" ==> DigitsValue(k) == 110510
    ensures k == "110505" ==> DigitsValue(k) == 110505
  {
    assert forall i :: 0 <= i < |k| ==> IsDigit(k[i]);
    SixDigits(k);
  }

  /** The value of six decimal digits, digit by digit. */
  lemma SixDigits(s: seq<char>)
    requires |s| == 6 && forall i :: 0 <= i < 6 ==> IsDigit(s[i])
    ensures DigitsValue(s) == ((((DigitOf(s[0]) * 10 + DigitOf(s[1])) * 10 + DigitOf(s[2])) * 10
                               + DigitOf(s[3])) * 10 + DigitOf(s[4])) * 10 + DigitOf(s[5])
  {
    forall n | 0 < n <= 6
      ensures DigitsValue(s[..n]) == DigitsValue(s[..n - 1]) * 10 + DigitOf(s[n - 1])
    {
      DigitsValueStep(s[..n - 1], s[n - 1]);
      assert s[..n - 1] + [s[n - 1]] == s[..n];
    }
    assert s[..6] == s;
    assert s[..0] == [];
  }

  lemma ExampleDescription(d: Detail)
    requires d.description == "General"
    ensures Part(DescriptionParts(d.description), 0) == "General"
  {
    SplitNoSep(d.description, ',');
    TrimNoop(d.description);
  }
}

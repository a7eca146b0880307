/**
  Grouping of a sequence of items under a string key, the way the report pages of the
  bookkeeping application fill a JavaScript object keyed by account code while walking
  the line items: a key is created the first time an item carries it, and every item is
  appended to the group of its own key, so items keep their relative order inside a group.

  The three report pages each do this with a different key (a 4-character prefix, a
  6-character prefix, a prefix of the stripped code); here it is defined once over an
  arbitrary key function, and the properties the reports rely on are proved once:
  every item lands in exactly one group, in order, and sums over the groups add up to
  the sum over all items.
*/
module Grouping {

  /** No key occurs twice. */
  predicate Distinct(ks: seq<string>) {
    forall i, j :: 0 <= i < j < |ks| ==> ks[i] != ks[j]
  }

  /** The keys of xs, each once, in order of first appearance (the insertion order of the object). */
  function KeysOf<T>(xs: seq<T>, key: T -> string): (ks: seq<string>)
    decreases |xs|
  {
    if xs == [] then []
    else
      var ks := KeysOf(xs[..|xs| - 1], key);
      if key(xs[|xs| - 1]) in ks then ks else ks + [key(xs[|xs| - 1])]
  }

  /** Each key once, and exactly the keys some item carries. */
  lemma {:induction false} KeysOfSpec<T>(xs: seq<T>, key: T -> string)
    ensures Distinct(KeysOf(xs, key))
    ensures forall k :: k in KeysOf(xs, key) <==> exists i :: 0 <= i < |xs| && key(xs[i]) == k
    decreases |xs|
  {
    if xs != [] {
      var init := xs[..|xs| - 1];
      KeysOfSpec(init, key);
      assert forall i :: 0 <= i < |init| ==> init[i] == xs[i];
    }
  }

  /**
    Keys are listed in order of first appearance: for an earlier key a and a later key b,
    every item carrying b comes after some item carrying a.
  */
  lemma {:induction false} KeysOfOrder<T>(xs: seq<T>, key: T -> string, a: nat, b: nat, j: nat)
    requires a < b < |KeysOf(xs, key)|
    requires j < |xs| && key(xs[j]) == KeysOf(xs, key)[b]
    ensures exists i :: 0 <= i < j && key(xs[i]) == KeysOf(xs, key)[a]
    decreases |xs|
  {
    var init := xs[..|xs| - 1];
    var ks := KeysOf(init, key);
    KeysOfSpec(init, key);
    assert forall i :: 0 <= i < |init| ==> init[i] == xs[i];
    if b < |ks| {
      if j < |init| {
        KeysOfOrder(init, key, a, b, j);
      } else {
        assert ks[b] in ks;
        var j' :| 0 <= j' < |init| && key(init[j']) == ks[b];
        KeysOfOrder(init, key, a, b, j');
      }
    } else {
      assert ks[a] in ks;
      var i :| 0 <= i < |init| && key(init[i]) == ks[a];
      assert key(xs[i]) == KeysOf(xs, key)[a];
    }
  }

  /** The group of key k: the items of xs whose key is k, in their original order. */
  function Select<T>(xs: seq<T>, key: T -> string, k: string): (ys: seq<T>)
    ensures |ys| <= |xs|
    decreases |xs|
  {
    if xs == [] then []
    else
      var ys := Select(xs[..|xs| - 1], key, k);
      if key(xs[|xs| - 1]) == k then ys + [xs[|xs| - 1]] else ys
  }

  /** A group holds only items of xs, and only items of its own key. */
  lemma {:induction false} SelectSpec<T>(xs: seq<T>, key: T -> string, k: string)
    ensures forall y :: y in Select(xs, key, k) ==> y in xs && key(y) == k
    decreases |xs|
  {
    if xs != [] {
      SelectSpec(xs[..|xs| - 1], key, k);
    }
  }

  /** A walk over xs one item further: the items done so far and the next one. */
  lemma TakeOneMore<T>(xs: seq<T>, i: nat)
    requires i < |xs|
    ensures xs[..i + 1] == xs[..i] + [xs[i]]
  {
  }

  /** Sum of val over xs, accumulated left to right as `reduce` and `+=` do. */
  function SumOf<T>(xs: seq<T>, val: T -> int): int
    decreases |xs|
  {
    if xs == [] then 0 else SumOf(xs[..|xs| - 1], val) + val(xs[|xs| - 1])
  }

  /** Sum, over the keys ks, of the val-sum of each key's group. */
  function GroupSum<T>(ks: seq<string>, xs: seq<T>, key: T -> string, val: T -> int): int
    decreases |ks|
  {
    if ks == [] then 0
    else GroupSum(ks[..|ks| - 1], xs, key, val) + SumOf(Select(xs, key, ks[|ks| - 1]), val)
  }

  /**
    Rows built one per key: when row r carries the val-sum of key r's group, the rows
    add up to the sum over the groups.
  */
  lemma {:induction false} SumOfGroups<T, R>(rows: seq<R>, f: R -> int, ks: seq<string>, xs: seq<T>,
                                             key: T -> string, val: T -> int)
    requires |rows| == |ks|
    requires forall r :: 0 <= r < |rows| ==> f(rows[r]) == SumOf(Select(xs, key, ks[r]), val)
    ensures SumOf(rows, f) == GroupSum(ks, xs, key, val)
    decreases |rows|
  {
    if rows != [] {
      var n := |rows| - 1;
      SumOfGroups(rows[..n], f, ks[..n], xs, key, val);
    }
  }

  /** Counts an item once; summing it over a group gives the group's size. */
  function One<T>(x: T): int { 1 }

  lemma {:induction false} SumOfOnes<T>(xs: seq<T>)
    ensures SumOf(xs, One) == |xs|
    decreases |xs|
  {
    if xs != [] {
      SumOfOnes(xs[..|xs| - 1]);
    }
  }

  lemma {:induction false} SumOfAppend<T>(a: seq<T>, b: seq<T>, val: T -> int)
    ensures SumOf(a + b, val) == SumOf(a, val) + SumOf(b, val)
    decreases |b|
  {
    if b == [] {
      assert a + b == a;
    } else {
      var b' := b[..|b| - 1];
      assert (a + b)[..|a + b| - 1] == a + b';
      SumOfAppend(a, b', val);
    }
  }

  /** Appending one item: its key is added unless already present. */
  lemma KeysOfStep<T>(xs: seq<T>, x: T, key: T -> string)
    ensures KeysOf(xs + [x], key)
         == if key(x) in KeysOf(xs, key) then KeysOf(xs, key) else KeysOf(xs, key) + [key(x)]
  {
    assert (xs + [x])[..|xs|] == xs;
  }

  /** Appending one item: it joins the end of its own group and no other. */
  lemma SelectStep<T>(xs: seq<T>, x: T, key: T -> string, k: string)
    ensures Select(xs + [x], key, k) == if key(x) == k then Select(xs, key, k) + [x] else Select(xs, key, k)
  {
    assert (xs + [x])[..|xs|] == xs;
  }

  lemma SumOfStep<T>(xs: seq<T>, x: T, val: T -> int)
    ensures SumOf(xs + [x], val) == SumOf(xs, val) + val(x)
  {
    assert (xs + [x])[..|xs|] == xs;
  }

  /** Grouping two items: one group if they share a key, two otherwise. */
  lemma GroupTwo<T>(a: T, b: T, key: T -> string)
    ensures KeysOf([a, b], key) == if key(a) == key(b) then [key(a)] else [key(a), key(b)]
    ensures Select([a, b], key, key(a)) == if key(a) == key(b) then [a, b] else [a]
    ensures key(a) != key(b) ==> Select([a, b], key, key(b)) == [b]
  {
    assert [a, b][..1] == [a];
    assert [a][..0] == [];
    assert KeysOf([a], key) == [key(a)];
    assert Select([a], key, key(a)) == [a];
  }

  lemma SumOfTwo<T>(x: T, y: T, val: T -> int)
    ensures SumOf([x, y], val) == val(x) + val(y)
  {
    assert [x, y][..1] == [x];
    SumOfSingle(x, val);
  }

  lemma SumOfSingle<T>(x: T, val: T -> int)
    ensures SumOf([x], val) == val(x)
  {
    assert [x][..0] == [];
  }

  /** A key is among the keys exactly when its group is non-empty. */
  lemma {:induction false} SelectNonEmpty<T>(xs: seq<T>, key: T -> string, k: string)
    ensures Select(xs, key, k) != [] <==> k in KeysOf(xs, key)
    decreases |xs|
  {
    if xs != [] {
      SelectNonEmpty(xs[..|xs| - 1], key, k);
    }
  }

  /** Grouping distributes over concatenation. */
  lemma {:induction false} SelectAppend<T>(a: seq<T>, b: seq<T>, key: T -> string, k: string)
    ensures Select(a + b, key, k) == Select(a, key, k) + Select(b, key, k)
    decreases |b|
  {
    if b == [] {
      assert a + b == a;
    } else {
      var b' := b[..|b| - 1];
      assert (a + b)[..|a + b| - 1] == a + b';
      SelectAppend(a, b', key, k);
    }
  }

  /** Appending one item x to xs adds val(x) to the group sum when x's key is one of ks. */
  lemma {:induction false} GroupSumStep<T>(ks: seq<string>, xs: seq<T>, x: T, key: T -> string, val: T -> int)
    requires Distinct(ks)
    ensures GroupSum(ks, xs + [x], key, val)
         == GroupSum(ks, xs, key, val) + (if key(x) in ks then val(x) else 0)
    decreases |ks|
  {
    if ks != [] {
      var init := ks[..|ks| - 1];
      var last := ks[|ks| - 1];
      assert Distinct(init);
      GroupSumStep(init, xs, x, key, val);
      assert (xs + [x])[..|xs + [x]| - 1] == xs;
      assert key(x) in ks <==> key(x) in init || key(x) == last;
      assert key(x) == last ==> key(x) !in init;
    }
  }

  /**
    Partition: summing val group by group over all keys gives the sum over all items.
    Every item is counted in exactly one group.
  */
  lemma {:induction false} GroupSumPartition<T>(xs: seq<T>, key: T -> string, val: T -> int)
    ensures GroupSum(KeysOf(xs, key), xs, key, val) == SumOf(xs, val)
    decreases |xs|
  {
    if xs != [] {
      var init := xs[..|xs| - 1];
      var x := xs[|xs| - 1];
      assert xs == init + [x];
      GroupSumPartition(init, key, val);
      KeysOfSpec(init, key);
      GroupSumStep(KeysOf(init, key), init, x, key, val);
      SumOfStep(init, x, val);
      KeysOfStep(init, x, key);
      if key(x) !in KeysOf(init, key) {
        GroupSumNew(init, x, key, val);
      }
    }
  }

  /** An item with a new key opens a group of its own, which holds only that item. */
  lemma GroupSumNew<T>(init: seq<T>, x: T, key: T -> string, val: T -> int)
    requires key(x) !in KeysOf(init, key)
    ensures GroupSum(KeysOf(init, key) + [key(x)], init + [x], key, val)
         == GroupSum(KeysOf(init, key), init + [x], key, val) + val(x)
  {
    var ks := KeysOf(init, key);
    var ks' := ks + [key(x)];
    assert ks'[..|ks'| - 1] == ks;
    SelectStep(init, x, key, key(x));
    SelectNonEmpty(init, key, key(x));
    SumOfSingle(x, val);
  }

  /** The groups' sizes add up to the number of items. */
  lemma GroupSizes<T>(xs: seq<T>, key: T -> string)
    ensures GroupSum(KeysOf(xs, key), xs, key, One) == |xs|
  {
    GroupSumPartition(xs, key, One);
    SumOfOnes(xs);
  }

  /** f applied to every item, in order. */
  function Map<T, U>(xs: seq<T>, f: T -> U): (ys: seq<U>)
    ensures |ys| == |xs|
    ensures forall i :: 0 <= i < |xs| ==> ys[i] == f(xs[i])
    decreases |xs|
  {
    if xs == [] then [] else Map(xs[..|xs| - 1], f) + [f(xs[|xs| - 1])]
  }

  lemma MapStep<T, U>(xs: seq<T>, x: T, f: T -> U)
    ensures Map(xs + [x], f) == Map(xs, f) + [f(x)]
  {
  }

  function Id<T>(x: T): T { x }

  lemma MapId<T>(xs: seq<T>)
    ensures Map(xs, Id) == xs
  {
  }

  /** The images under f of the groups of the keys ks, laid end to end. */
  function GroupConcat<T, U>(ks: seq<string>, xs: seq<T>, key: T -> string, f: T -> U): seq<U>
    decreases |ks|
  {
    if ks == [] then []
    else GroupConcat(ks[..|ks| - 1], xs, key, f) + Map(Select(xs, key, ks[|ks| - 1]), f)
  }

  /** One more item adds its image once to the groups of distinct keys when its key is among them. */
  lemma {:induction false} GroupConcatStep<T, U>(ks: seq<string>, xs: seq<T>, x: T, key: T -> string, f: T -> U)
    requires Distinct(ks)
    ensures multiset(GroupConcat(ks, xs + [x], key, f))
         == multiset(GroupConcat(ks, xs, key, f)) + (if key(x) in ks then multiset{f(x)} else multiset{})
    decreases |ks|
  {
    if ks != [] {
      var init := ks[..|ks| - 1];
      var last := ks[|ks| - 1];
      assert Distinct(init);
      GroupConcatStep(init, xs, x, key, f);
      MapSelectStep(xs, x, key, last, f);
      var before := multiset(GroupConcat(init, xs, key, f));
      var after := multiset(GroupConcat(init, xs + [x], key, f));
      var g := multiset(Map(Select(xs, key, last), f));
      var g' := multiset(Map(Select(xs + [x], key, last), f));
      assert multiset(GroupConcat(ks, xs, key, f)) == before + g;
      assert multiset(GroupConcat(ks, xs + [x], key, f)) == after + g';
      if key(x) == last {
        assert key(x) !in init;
        assert after == before && g' == g + multiset{f(x)};
      } else if key(x) in init {
        assert after == before + multiset{f(x)} && g' == g;
      } else {
        assert after == before && g' == g;
      }
    }
  }

  lemma MapSelectStep<T, U>(xs: seq<T>, x: T, key: T -> string, k: string, f: T -> U)
    ensures multiset(Map(Select(xs + [x], key, k), f))
         == multiset(Map(Select(xs, key, k), f)) + (if key(x) == k then multiset{f(x)} else multiset{})
  {
    SelectStep(xs, x, key, k);
    if key(x) == k {
      var g := Select(xs, key, k);
      assert (g + [x])[..|g|] == g;
    }
  }

  /**
    The groups together hold every item exactly as often as xs does: laying the groups'
    images end to end gives a permutation of the images of xs.
  */
  lemma {:induction false} GroupConcatPartition<T, U>(xs: seq<T>, key: T -> string, f: T -> U)
    ensures multiset(GroupConcat(KeysOf(xs, key), xs, key, f)) == multiset(Map(xs, f))
    decreases |xs|
  {
    if xs != [] {
      var init := xs[..|xs| - 1];
      var x := xs[|xs| - 1];
      assert xs == init + [x];
      GroupConcatPartition(init, key, f);
      var ks := KeysOf(init, key);
      KeysOfSpec(init, key);
      GroupConcatStep(ks, init, x, key, f);
      KeysOfStep(init, x, key);
      MapStep(init, x, f);
      var m := multiset(Map(init, f));
      assert multiset(Map(xs, f)) == m + multiset{f(x)};
      if key(x) in ks {
        assert KeysOf(xs, key) == ks;
        assert multiset(GroupConcat(ks, xs, key, f)) == m + multiset{f(x)};
      } else {
        assert KeysOf(xs, key) == ks + [key(x)];
        assert multiset(GroupConcat(ks, xs, key, f)) == m;
        GroupConcatNew(init, x, key, f);
      }
    }
  }

  lemma GroupConcatNew<T, U>(init: seq<T>, x: T, key: T -> string, f: T -> U)
    requires key(x) !in KeysOf(init, key)
    ensures GroupConcat(KeysOf(init, key) + [key(x)], init + [x], key, f)
         == GroupConcat(KeysOf(init, key), init + [x], key, f) + [f(x)]
  {
    var ks := KeysOf(init, key);
    var ks' := ks + [key(x)];
    assert ks'[..|ks'| - 1] == ks;
    SelectStep(init, x, key, key(x));
    SelectNonEmpty(init, key, key(x));
    assert Map([x], f) == [f(x)];
  }

  /** The sequences f gives for the rows, laid end to end. */
  function ConcatOf<R, U>(rows: seq<R>, f: R -> seq<U>): seq<U>
    decreases |rows|
  {
    if rows == [] then [] else ConcatOf(rows[..|rows| - 1], f) + f(rows[|rows| - 1])
  }

  /** Rows that each hold their key's group (in any order) together hold all the groups. */
  lemma {:induction false} ConcatOfGroups<T, R, U>(rows: seq<R>, f: R -> seq<U>, ks: seq<string>, xs: seq<T>,
                                                    key: T -> string, g: T -> U)
    requires |rows| == |ks|
    requires forall r :: 0 <= r < |rows| ==> multiset(f(rows[r])) == multiset(Map(Select(xs, key, ks[r]), g))
    ensures multiset(ConcatOf(rows, f)) == multiset(GroupConcat(ks, xs, key, g))
    decreases |rows|
  {
    if rows != [] {
      var n := |rows| - 1;
      ConcatOfGroups(rows[..n], f, ks[..n], xs, key, g);
    }
  }

  /** The place of xs[i] inside its own group: how many earlier items share its key. */
  function PositionInGroup<T>(xs: seq<T>, key: T -> string, i: nat): nat
    requires i < |xs|
  {
    |Select(xs[..i], key, key(xs[i]))|
  }

  /** Every item is found in the group of its key, at its position in that group. */
  lemma GroupPlacement<T>(xs: seq<T>, key: T -> string, i: nat)
    requires i < |xs|
    ensures PositionInGroup(xs, key, i) < |Select(xs, key, key(xs[i]))|
    ensures Select(xs, key, key(xs[i]))[PositionInGroup(xs, key, i)] == xs[i]
  {
    var k := key(xs[i]);
    assert xs == xs[..i + 1] + xs[i + 1..];
    assert xs[..i + 1][..i] == xs[..i];
    SelectAppend(xs[..i + 1], xs[i + 1..], key, k);
  }

  /** The first key is the first item's, and that item heads its group. */
  lemma {:induction false} KeysOfFirst<T>(xs: seq<T>, key: T -> string)
    requires xs != []
    ensures |KeysOf(xs, key)| > 0 && KeysOf(xs, key)[0] == key(xs[0])
    ensures |Select(xs, key, key(xs[0]))| > 0 && Select(xs, key, key(xs[0]))[0] == xs[0]
    decreases |xs|
  {
    var init := xs[..|xs| - 1];
    if init == [] {
      assert KeysOf(xs, key) == [key(xs[0])];
    } else {
      KeysOfFirst(init, key);
      assert init[0] == xs[0];
    }
    GroupPlacement(xs, key, 0);
    assert xs[..0] == [];
  }

  /** Items sharing a key keep their relative order inside the group. */
  lemma GroupOrder<T>(xs: seq<T>, key: T -> string, i: nat, j: nat)
    requires i < j < |xs|
    requires key(xs[i]) == key(xs[j])
    ensures PositionInGroup(xs, key, i) < PositionInGroup(xs, key, j)
  {
    var k := key(xs[i]);
    assert xs[..j] == xs[..i + 1] + xs[i + 1..j];
    assert xs[..i + 1][..i] == xs[..i];
    SelectAppend(xs[..i + 1], xs[i + 1..j], key, k);
  }

  /** `xs.filter(keep)`: the items kept, in their original order. */
  function Filter<T>(xs: seq<T>, keep: T -> bool): (ys: seq<T>)
    ensures |ys| <= |xs|
    decreases |xs|
  {
    if xs == [] then []
    else Filter(xs[..|xs| - 1], keep) + (if keep(xs[|xs| - 1]) then [xs[|xs| - 1]] else [])
  }

  /** Exactly the items of xs that are kept. */
  lemma {:induction false} FilterSpec<T>(xs: seq<T>, keep: T -> bool)
    ensures forall y :: y in Filter(xs, keep) <==> y in xs && keep(y)
    decreases |xs|
  {
    if xs != [] {
      var init := xs[..|xs| - 1];
      FilterSpec(init, keep);
      assert xs == init + [xs[|xs| - 1]];
    }
  }

  /** Filtering distributes over concatenation, so the kept items keep their order. */
  lemma {:induction false} FilterAppend<T>(a: seq<T>, b: seq<T>, keep: T -> bool)
    ensures Filter(a + b, keep) == Filter(a, keep) + Filter(b, keep)
    decreases |b|
  {
    if b == [] {
      assert a + b == a;
    } else {
      var b' := b[..|b| - 1];
      assert (a + b)[..|a + b| - 1] == a + b';
      FilterAppend(a, b', keep);
    }
  }

  /** Replacing one item changes the sum by the difference between the new and the old item. */
  lemma SumOfUpdate<T>(xs: seq<T>, j: nat, x: T, val: T -> int)
    requires j < |xs|
    ensures SumOf(xs[j := x], val) == SumOf(xs, val) - val(xs[j]) + val(x)
  {
    TakeOneMore(xs, j);
    assert xs[..j + 1] + xs[j + 1..] == xs;
    assert xs[j := x] == xs[..j] + [x] + xs[j + 1..];
    SumOfAppend(xs[..j] + [xs[j]], xs[j + 1..], val);
    SumOfAppend(xs[..j] + [x], xs[j + 1..], val);
    SumOfStep(xs[..j], xs[j], val);
    SumOfStep(xs[..j], x, val);
  }

  /** Removing one item takes its value out of the sum. */
  lemma SumOfRemove<T>(xs: seq<T>, j: nat, val: T -> int)
    requires j < |xs|
    ensures SumOf(xs[..j] + xs[j + 1..], val) == SumOf(xs, val) - val(xs[j])
  {
    TakeOneMore(xs, j);
    assert xs[..j + 1] + xs[j + 1..] == xs;
    SumOfAppend(xs[..j + 1], xs[j + 1..], val);
    SumOfAppend(xs[..j], xs[j + 1..], val);
    SumOfStep(xs[..j], xs[j], val);
  }
  /*
    The order in which `Object.values` lists the keys of an object (ECMAScript,
    OrdinaryOwnPropertyKeys): the keys that are array indices first, in ascending
    numeric order, then the other keys in insertion order.
  */

  predicate IsDigit(c: char) { '0' <= c <= '9' }

  function DigitOf(c: char): nat
    requires IsDigit(c)
  {
    c as int - '0' as int
  }

  /** The number a string of decimal digits denotes. */
  function DigitsValue(s: seq<char>): (v: nat)
    requires forall i :: 0 <= i < |s| ==> IsDigit(s[i])
    decreases |s|
  {
    if s == [] then 0
    else DigitsValue(s[..|s| - 1]) * 10 + DigitOf(s[|s| - 1])
  }

  /** One more digit at the end multiplies the value by ten and adds the digit. */
  lemma DigitsValueStep(s: seq<char>, c: char)
    requires forall i :: 0 <= i < |s| ==> IsDigit(s[i])
    requires IsDigit(c)
    ensures DigitsValue(s + [c]) == DigitsValue(s) * 10 + DigitOf(c)
  {
    assert (s + [c])[..|s|] == s;
  }

  /**
    An array index: a canonical decimal numeral (no sign, no leading zero except "0")
    whose value is at most 2^32 - 2.
  */
  predicate IsArrayIndex(k: string) {
    && |k| > 0
    && (forall i :: 0 <= i < |k| ==> IsDigit(k[i]))
    && (k[0] == '0' ==> |k| == 1)
    && DigitsValue(k) <= 0xFFFF_FFFE
  }

  /** Whether key a is listed before key b when both are array indices. */
  predicate ListedBefore(a: string, b: string) {
    IsArrayIndex(a) && (!IsArrayIndex(b) || DigitsValue(a) < DigitsValue(b))
  }

  /** The position, in insertion order, of the key `Object.values` lists first. */
  function FirstListed(ks: seq<string>): (i: nat)
    requires |ks| > 0
    ensures i < |ks|
    decreases |ks|
  {
    if |ks| == 1 then 0
    else
      var j := FirstListed(ks[..|ks| - 1]);
      if ListedBefore(ks[|ks| - 1], ks[j]) then |ks| - 1 else j
  }

  /**
    The key listed first is the first key of least value among the array indices, or the
    first key inserted when no key is an array index.
  */
  lemma {:induction false} FirstListedSpec(ks: seq<string>)
    requires |ks| > 0
    ensures var i := FirstListed(ks);
            && ((exists m :: 0 <= m < |ks| && IsArrayIndex(ks[m])) ==> IsArrayIndex(ks[i]))
            && (forall m :: 0 <= m < |ks| && IsArrayIndex(ks[m]) ==> DigitsValue(ks[i]) <= DigitsValue(ks[m]))
            && (forall m :: 0 <= m < i && IsArrayIndex(ks[m]) ==> DigitsValue(ks[i]) < DigitsValue(ks[m]))
            && ((forall m :: 0 <= m < |ks| ==> !IsArrayIndex(ks[m])) ==> i == 0)
    decreases |ks|
  {
    if |ks| > 1 {
      var init := ks[..|ks| - 1];
      FirstListedSpec(init);
      assert forall m :: 0 <= m < |init| ==> init[m] == ks[m];
    }
  }
}

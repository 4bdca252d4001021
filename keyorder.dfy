/** The order in which Object.keys lists the keys of a plain object
    (OrdinaryOwnPropertyKeys, section 10.1.11.1 of ECMA-262): keys that are
    array indexes first, in ascending numeric order, then every other
    string key in the order it was added. */
module KeyOrder {
  import opened Ledger

  predicate IsDigit(c: char)
  {
    '0' <= c <= '9'
  }

  /** The number a string of decimal digits spells. */
  function DecimalValue(s: string): int
    requires forall i :: 0 <= i < |s| ==> IsDigit(s[i])
  {
    if s == [] then 0 else 10 * DecimalValue(s[..|s| - 1]) + (s[|s| - 1] as int - '0' as int)
  }

  /** An array index: the canonical decimal form (no leading zero) of an
      integer from 0 to 2^32 - 2. */
  predicate IsArrayIndex(s: string)
  {
    && |s| > 0
    && (forall i :: 0 <= i < |s| ==> IsDigit(s[i]))
    && (s[0] == '0' ==> |s| == 1)
    && DecimalValue(s) < 0xFFFF_FFFF
  }

  /** The numeric value of an array index; -1 for any other key. */
  function IndexValue(s: string): int
  {
    if IsArrayIndex(s) then DecimalValue(s) else -1
  }

  /** The keys of `s` that are array indexes (`index`) or that are not
      (`!index`), in their order in `s`. */
  function KeysWhere(s: seq<string>, index: bool): seq<string>
  {
    if s == [] then []
    else KeysWhere(s[..|s| - 1], index) + (if IsArrayIndex(s[|s| - 1]) == index then [s[|s| - 1]] else [])
  }

  /** KeysWhere keeps only keys of `s` of the kind asked for. */
  lemma {:induction false} KeysWhereKind(s: seq<string>, index: bool)
    ensures forall x :: x in KeysWhere(s, index) ==> x in s && IsArrayIndex(x) == index
  {
    if s != [] {
      KeysWhereKind(s[..|s| - 1], index);
    }
  }

  lemma {:induction false} KeysWhereAppend(a: seq<string>, b: seq<string>, index: bool)
    ensures KeysWhere(a + b, index) == KeysWhere(a, index) + KeysWhere(b, index)
    decreases |b|
  {
    if b != [] {
      var last := b[|b| - 1];
      var tail := if IsArrayIndex(last) == index then [last] else [];
      assert (a + b)[..|a + b| - 1] == a + b[..|b| - 1];
      assert (a + b)[|a + b| - 1] == last;
      assert KeysWhere(a + b, index) == KeysWhere(a + b[..|b| - 1], index) + tail;
      KeysWhereAppend(a, b[..|b| - 1], index);
      assert KeysWhere(b, index) == KeysWhere(b[..|b| - 1], index) + tail;
    } else {
      assert a + b == a;
    }
  }

  /** Splitting by kind loses and adds nothing. */
  lemma {:induction false} KeysWhereSplit(s: seq<string>)
    ensures multiset(KeysWhere(s, true)) + multiset(KeysWhere(s, false)) == multiset(s)
  {
    if s != [] {
      var init, last := s[..|s| - 1], s[|s| - 1];
      KeysWhereSplit(init);
      assert s == init + [last];
      assert KeysWhere(s, true) == KeysWhere(init, true) + (if IsArrayIndex(last) then [last] else []);
      assert KeysWhere(s, false) == KeysWhere(init, false) + (if IsArrayIndex(last) then [] else [last]);
    }
  }

  /** A list of one kind keeps all of it and none of the other. */
  lemma {:induction false} KeysWhereOfKind(s: seq<string>, index: bool)
    requires forall x :: x in s ==> IsArrayIndex(x) == index
    ensures KeysWhere(s, index) == s
    ensures KeysWhere(s, !index) == []
  {
    if s != [] {
      assert s == s[..|s| - 1] + [s[|s| - 1]];
      KeysWhereOfKind(s[..|s| - 1], index);
    }
  }

  predicate ValueAscending(r: seq<string>)
  {
    forall i, j :: 0 <= i < j < |r| ==> IndexValue(r[i]) <= IndexValue(r[j])
  }

  /** Puts `k` after every key of `r` with a smaller or equal value. */
  function InsertByValue(r: seq<string>, k: string): seq<string>
  {
    if r == [] then [k]
    else if IndexValue(k) < IndexValue(r[0]) then [k] + r
    else [r[0]] + InsertByValue(r[1..], k)
  }

  lemma {:induction false} InsertByValuePermutes(r: seq<string>, k: string)
    ensures multiset(InsertByValue(r, k)) == multiset(r) + multiset{k}
  {
    if r != [] {
      assert r == [r[0]] + r[1..];
      if IndexValue(k) >= IndexValue(r[0]) {
        InsertByValuePermutes(r[1..], k);
      }
    }
  }

  lemma {:induction false} InsertByValueAscending(r: seq<string>, k: string)
    requires ValueAscending(r)
    ensures ValueAscending(InsertByValue(r, k))
  {
    var q := InsertByValue(r, k);
    if r != [] && IndexValue(k) < IndexValue(r[0]) {
      forall i, j | 0 <= i < j < |q| ensures IndexValue(q[i]) <= IndexValue(q[j]) {
        if i > 0 {
          assert q[i] == r[i - 1] && q[j] == r[j - 1];
        } else if j > 1 {
          assert q[j] == r[j - 1];
        }
      }
    } else if r != [] {
      var rest := InsertByValue(r[1..], k);
      InsertByValueAscending(r[1..], k);
      InsertByValueBounded(r, k);
      assert q == [r[0]] + rest;
      forall i, j | 0 <= i < j < |q| ensures IndexValue(q[i]) <= IndexValue(q[j]) {
        assert q[j] == rest[j - 1];
        if i > 0 {
          assert q[i] == rest[i - 1];
        }
      }
    }
  }

  /** Inserting a key no smaller than the head of an ascending list keeps
      every key of the rest no smaller than that head. */
  lemma InsertByValueBounded(r: seq<string>, k: string)
    requires ValueAscending(r) && r != [] && IndexValue(r[0]) <= IndexValue(k)
    ensures forall x :: x in InsertByValue(r[1..], k) ==> IndexValue(r[0]) <= IndexValue(x)
  {
    InsertByValuePermutes(r[1..], k);
    forall x | x in InsertByValue(r[1..], k) ensures IndexValue(r[0]) <= IndexValue(x) {
      assert x in multiset(InsertByValue(r[1..], k));
      if x != k {
        var m :| 0 <= m < |r[1..]| && r[1..][m] == x;
        assert r[m + 1] == x;
      }
    }
  }

  /** The array-index keys sorted by numeric value, one insertion at a
      time. */
  function SortByValue(r: seq<string>): seq<string>
  {
    if r == [] then []
    else InsertByValue(SortByValue(r[..|r| - 1]), r[|r| - 1])
  }

  lemma {:induction false} SortByValuePermutes(r: seq<string>)
    ensures multiset(SortByValue(r)) == multiset(r)
  {
    if r != [] {
      assert r == r[..|r| - 1] + [r[|r| - 1]];
      SortByValuePermutes(r[..|r| - 1]);
      InsertByValuePermutes(SortByValue(r[..|r| - 1]), r[|r| - 1]);
    }
  }

  lemma {:induction false} SortByValueAscending(r: seq<string>)
    ensures ValueAscending(SortByValue(r))
  {
    if r != [] {
      SortByValueAscending(r[..|r| - 1]);
      InsertByValueAscending(SortByValue(r[..|r| - 1]), r[|r| - 1]);
    }
  }

  /** Object.keys of an object whose keys were added in the order
      `inserted`. */
  function OwnKeys(inserted: seq<string>): seq<string>
  {
    SortByValue(KeysWhere(inserted, true)) + KeysWhere(inserted, false)
  }

  /** Object.keys lists every key once, whatever the order of addition. */
  lemma OwnKeysPermutes(inserted: seq<string>)
    ensures multiset(OwnKeys(inserted)) == multiset(inserted)
  {
    KeysWhereSplit(inserted);
    SortByValuePermutes(KeysWhere(inserted, true));
  }

  /** Object.keys lists every array index before any other key, and the
      array indexes in ascending numeric order. */
  lemma OwnKeysIndexesFirst(inserted: seq<string>)
    ensures var r := OwnKeys(inserted);
            forall i, j :: 0 <= i < j < |r| && IsArrayIndex(r[j]) ==>
              IsArrayIndex(r[i]) && IndexValue(r[i]) <= IndexValue(r[j])
  {
    var indexes := SortByValue(KeysWhere(inserted, true));
    SortByValueAscending(KeysWhere(inserted, true));
    SortByValuePermutes(KeysWhere(inserted, true));
    KeysWhereKind(inserted, true);
    KeysWhereKind(inserted, false);
    forall x | x in indexes ensures IsArrayIndex(x) {
      assert x in multiset(KeysWhere(inserted, true));
    }
    IndexesThenOthers(indexes, KeysWhere(inserted, false));
  }

  /** Ascending array indexes followed by other keys keep every array index
      ahead of any other key. */
  lemma IndexesThenOthers(indexes: seq<string>, others: seq<string>)
    requires ValueAscending(indexes)
    requires forall x :: x in indexes ==> IsArrayIndex(x)
    requires forall x :: x in others ==> !IsArrayIndex(x)
    ensures var r := indexes + others;
            forall i, j :: 0 <= i < j < |r| && IsArrayIndex(r[j]) ==>
              IsArrayIndex(r[i]) && IndexValue(r[i]) <= IndexValue(r[j])
  {
    var r := indexes + others;
    forall i, j | 0 <= i < j < |r| && IsArrayIndex(r[j])
      ensures IsArrayIndex(r[i]) && IndexValue(r[i]) <= IndexValue(r[j])
    {
      if j < |indexes| {
        assert r[i] == indexes[i] && r[j] == indexes[j];
      }
    }
  }

  /** Object.keys lists the keys that are not array indexes in the order
      they were added. */
  lemma OwnKeysOthersInOrder(inserted: seq<string>)
    ensures KeysWhere(OwnKeys(inserted), false) == KeysWhere(inserted, false)
  {
    var indexes := SortByValue(KeysWhere(inserted, true));
    var others := KeysWhere(inserted, false);
    assert OwnKeys(inserted) == indexes + others;
    SortByValuePermutes(KeysWhere(inserted, true));
    KeysWhereKind(inserted, true);
    KeysWhereKind(inserted, false);
    forall x | x in indexes ensures IsArrayIndex(x) {
      assert x in multiset(indexes);
    }
    KeysWhereAppend(indexes, others, false);
    KeysWhereOfKind(indexes, true);
    KeysWhereOfKind(others, false);
  }

  /** A reordering of a list without repeats has no repeats. */
  lemma {:induction false} DistinctReordered(a: seq<string>, b: seq<string>)
    requires Distinct(a) && multiset(a) == multiset(b)
    ensures Distinct(b)
  {
    forall i, j | 0 <= i < j < |b| ensures b[i] != b[j] {
      if b[i] == b[j] {
        assert b == b[..j] + [b[j]] + b[j + 1..];
        assert b[i] in b[..j];
        assert multiset(b)[b[j]] >= 2;
        DistinctOnce(a, b[j]);
        assert false;
      }
    }
  }

  lemma {:induction false} DistinctOnce(a: seq<string>, x: string)
    requires Distinct(a)
    ensures multiset(a)[x] <= 1
  {
    if a != [] {
      assert a == [a[0]] + a[1..];
      assert Distinct(a[1..]);
      DistinctOnce(a[1..], x);
      if a[0] == x {
        assert x !in a[1..];
      }
    }
  }

  /** Object.keys of the wallet's holdings lists each holding once, and
      the sum of the positions does not depend on the order of the list. */
  lemma SumPositionsReordered(a: seq<string>, b: seq<string>,
                              holdings: map<string, real>, prices: map<string, real>)
    requires Distinct(a) && Priced(a, holdings, prices) && multiset(a) == multiset(b)
    requires forall u :: u in holdings <==> u in a
    ensures Distinct(b) && Priced(b, holdings, prices)
    ensures forall u :: u in holdings <==> u in b
    ensures SumPositions(a, holdings, prices) == SumPositions(b, holdings, prices)
  {
    DistinctReordered(a, b);
    forall u ensures u in b <==> u in a {
      assert u in b <==> u in multiset(b);
    }
    SumPositionsIsSumHeld(a, holdings, prices);
    SumPositionsIsSumHeld(b, holdings, prices);
  }

}

/** Gap filling of a day-by-day series of snapshots (fillTimestreamGaps and
    fillTimestreamGapsWithLastRecord in src/utils/general.ts). */
module Timestream {
  import opened Models
  import opened Dates

  /** The copy of `current` placed `j` days after it: same value, same prices. */
  function Shifted(current: Snapshot, j: int): Snapshot
  {
    Snapshot(current.date + j * DayMs, current.value, current.prices)
  }

  /** What is inserted between two neighbours: one copy of the earlier one
      for each whole day skipped (none when they are at most a day apart). */
  function Filler(current: Snapshot, next: Snapshot): (f: seq<Snapshot>)
    ensures |f| == if DaysBetween(current.date, next.date) > 1 then DaysBetween(current.date, next.date) - 1 else 0
  {
    var daysGap := DaysBetween(current.date, next.date);
    if daysGap > 1 then seq(daysGap - 1, k => Shifted(current, k + 1)) else []
  }

  /** The series with every gap forward-filled: each element, then its filler. */
  function FillGaps(s: seq<Snapshot>): (r: seq<Snapshot>)
    ensures |r| >= |s|
  {
    if |s| <= 1 then s
    else [s[0]] + Filler(s[0], s[1]) + FillGaps(s[1..])
  }

  /** Copy `k` of a filler is one day before what follows it: the next copy,
      or the later neighbour after the last copy. */
  lemma FillerNeighbour(current: Snapshot, next: Snapshot, k: int)
    requires 0 <= k < |Filler(current, next)|
    ensures var f := Filler(current, next);
            DaysBetween(f[k].date, (if k + 1 < |f| then f[k + 1] else next).date) == 1
  {
    var f := Filler(current, next);
    FillerAt(current, next, k);
    if k + 1 < |f| {
      FillerAt(current, next, k + 1);
      DaysBetweenShift(current.date + (k + 1) * DayMs, current.date + (k + 1) * DayMs, 1);
      DaysBetweenSame(current.date + (k + 1) * DayMs);
    } else {
      DaysBetweenShift(current.date, next.date, k + 1);
    }
  }

  /** An element at most a day before the series it heads adds no filler. */
  lemma ConsFill(x: Snapshot, u: seq<Snapshot>)
    requires u != [] && DaysBetween(x.date, u[0].date) <= 1
    ensures FillGaps([x] + u) == [x] + FillGaps(u)
  {
    var w := [x] + u;
    UnfoldFillGaps(w);
    assert w[0] == x && w[1] == u[0] && w[1..] == u;
    NoFiller(x, u[0]);
  }

  /** Neighbours at most a day apart get no filler. */
  lemma NoFiller(current: Snapshot, next: Snapshot)
    requires DaysBetween(current.date, next.date) <= 1
    ensures Filler(current, next) == []
  {
  }

  /** A filler followed by the neighbour it leads to needs no filling of its own. */
  lemma {:induction false} FillerAbsorbed(current: Snapshot, next: Snapshot, t: seq<Snapshot>, k: nat)
    requires t != [] && t[0] == next
    requires k <= |Filler(current, next)|
    ensures FillGaps(Filler(current, next)[k..] + t) == Filler(current, next)[k..] + FillGaps(t)
    decreases |Filler(current, next)| - k
  {
    var f := Filler(current, next);
    if k < |f| {
      var rest := f[k + 1..] + t;
      calc {
        FillGaps(f[k..] + t);
        { assert f[k..] + t == [f[k]] + rest; }
        FillGaps([f[k]] + rest);
        { assert rest[0] == if k + 1 < |f| then f[k + 1] else next;
          FillerNeighbour(current, next, k);
          ConsFill(f[k], rest); }
        [f[k]] + FillGaps(rest);
        { FillerAbsorbed(current, next, t, k + 1); }
        [f[k]] + (f[k + 1..] + FillGaps(t));
        { assert f[k..] == [f[k]] + f[k + 1..]; }
        f[k..] + FillGaps(t);
      }
    } else {
      assert f[k..] + t == t;
    }
  }

  /** One step of the walk: splicing the filler after position `i` leaves
      what is still to be produced unchanged. */
  lemma FillStep(ts: seq<Snapshot>, i: int)
    requires 0 <= i < |ts| - 1
    ensures var sp := Spliced(ts, i); sp[..i + 1] + FillGaps(sp[i + 1..]) == ts[..i] + FillGaps(ts[i..])
  {
    var f := Filler(ts[i], ts[i + 1]);
    var spliced := Spliced(ts, i);
    var rest := ts[i + 1..];
    var head := ts[..i] + [ts[i]];
    var filledRest := FillGaps(rest);
    assert FillGaps(spliced[i + 1..]) == f + filledRest by {
      assert spliced[i + 1..] == f[0..] + rest;
      FillerAbsorbed(ts[i], ts[i + 1], rest, 0);
    }
    assert FillGaps(ts[i..]) == [ts[i]] + f + filledRest by {
      UnfoldFillGaps(ts[i..]);
      assert ts[i..][1..] == rest;
    }
    assert spliced[..i + 1] == head by {
      assert spliced[..i + 1] == ts[..i + 1];
    }
    Regroup(ts[..i], ts[i], f, filledRest);
  }

  /** Sequence regrouping used when splicing. */
  lemma Regroup(a: seq<Snapshot>, x: Snapshot, f: seq<Snapshot>, g: seq<Snapshot>)
    ensures (a + [x]) + (f + g) == a + ([x] + f + g)
  {
  }

  /** The list after the filler of position `i` is spliced in after it. */
  function Spliced(ts: seq<Snapshot>, i: int): seq<Snapshot>
    requires 0 <= i < |ts| - 1
  {
    ts[..i + 1] + Filler(ts[i], ts[i + 1]) + ts[i + 1..]
  }

  lemma UnfoldFillGaps(t: seq<Snapshot>)
    requires |t| >= 2
    ensures FillGaps(t) == [t[0]] + Filler(t[0], t[1]) + FillGaps(t[1..])
  {
  }

  /** The list while the copies after position `i` are being spliced in:
      the first `n` of them are in place. */
  function Partial(ts: seq<Snapshot>, i: int, n: int): seq<Snapshot>
    requires 0 <= i < |ts| - 1 && 0 <= n <= |Filler(ts[i], ts[i + 1])|
  {
    ts[..i + 1] + Filler(ts[i], ts[i + 1])[..n] + ts[i + 1..]
  }

  /** Splicing the next copy in at index `i + 1 + n` extends the part in place. */
  lemma PartialStep(ts: seq<Snapshot>, i: int, n: int)
    requires 0 <= i < |ts| - 1 && 0 <= n < |Filler(ts[i], ts[i + 1])|
    ensures |Partial(ts, i, n)| == |ts| + n
    ensures var p := Partial(ts, i, n);
            p[..i + 1 + n] + [Shifted(ts[i], n + 1)] + p[i + 1 + n..] == Partial(ts, i, n + 1)
  {
    var f := Filler(ts[i], ts[i + 1]);
    InsertAt(ts[..i + 1], f, ts[i + 1..], n);
  }

  /** With every copy in place, the list is the spliced one. */
  lemma PartialDone(ts: seq<Snapshot>, i: int)
    requires 0 <= i < |ts| - 1
    ensures Partial(ts, i, 0) == ts
    ensures Partial(ts, i, |Filler(ts[i], ts[i + 1])|) == Spliced(ts, i)
  {
    assert ts[..i + 1] + ts[i + 1..] == ts;
    assert Filler(ts[i], ts[i + 1])[..|Filler(ts[i], ts[i + 1])|] == Filler(ts[i], ts[i + 1]);
  }

  /** fillTimestreamGaps, which splices the copies into the list while it
      walks it; the list is passed and returned as a value here. An index
      is visited after the copies before it were spliced in, so a copy is
      compared with the next copy or with the original it leads to, and
      neither needs filling. */
  method FillTimestreamGaps(timestream: seq<Snapshot>) returns (r: seq<Snapshot>)
    ensures r == FillGaps(timestream)
  {
    var ts := timestream;
    var i := 0;
    while i < |ts| - 1
      invariant 0 <= i <= |ts|
      invariant ts != [] ==> i < |ts|
      invariant ts[..i] + FillGaps(ts[i..]) == FillGaps(timestream)
      decreases |FillGaps(timestream)| - i
    {
      ghost var before := ts;
      ts := SpliceGap(ts, i);
      FillStep(before, i);
      i := i + 1;
    }
    if ts != [] {
      assert ts[..i] + ts[i..] == ts;
    }
    r := ts;
  }

  /** The body of the walk at index `i`: when the next element is more than
      a day later, splices one copy of element `i` in for each day between,
      each a further day later. */
  method SpliceGap(timestream: seq<Snapshot>, i: int) returns (ts: seq<Snapshot>)
    requires 0 <= i < |timestream| - 1
    ensures ts == Spliced(timestream, i)
  {
    ts := timestream;
    var currentSnapshot := ts[i];
    var nextSnapshot := ts[i + 1];
    var currentDate := currentSnapshot.date;
    var nextDate := nextSnapshot.date;
    var daysGap := DaysBetween(currentDate, nextDate);
    PartialDone(timestream, i);
    if daysGap > 1 {
      var j := 1;
      while j < daysGap
        invariant 1 <= j <= daysGap
        invariant ts == Partial(timestream, i, j - 1)
      {
        var newSnapshot := Snapshot(currentDate + j * DayMs, currentSnapshot.value, currentSnapshot.prices);
        PartialStep(timestream, i, j - 1);
        assert newSnapshot == Shifted(currentSnapshot, j);
        ts := ts[..i + j] + [newSnapshot] + ts[i + j..];
        j := j + 1;
      }
    }
  }

  /** Inserting the next element of `f` where the prefix of it ends. */
  lemma InsertAt(a: seq<Snapshot>, f: seq<Snapshot>, b: seq<Snapshot>, n: nat)
    requires n < |f|
    ensures var ts := a + f[..n] + b;
            ts[..|a| + n] + [f[n]] + ts[|a| + n..] == a + f[..n + 1] + b
  {
    var ts := a + f[..n] + b;
    assert ts[..|a| + n] == a + f[..n];
    assert ts[|a| + n..] == b;
    assert f[..n + 1] == f[..n] + [f[n]];
  }

  /** Filling a series with one more element appended fills the series, then
      the gap up to that element. */
  lemma {:induction false} FillGapsAppend(s: seq<Snapshot>, x: Snapshot)
    requires s != []
    ensures FillGaps(s + [x]) == FillGaps(s) + Filler(s[|s| - 1], x) + [x]
  {
    if |s| == 1 {
      assert (s + [x])[1..] == [x];
    } else {
      var tail := s[1..];
      var last := Filler(s[|s| - 1], x);
      var between := Filler(s[0], s[1]);
      assert FillGaps(s + [x]) == [s[0]] + between + FillGaps(tail + [x]) by {
        UnfoldFillGaps(s + [x]);
        assert (s + [x])[1..] == tail + [x];
      }
      FillGapsAppend(tail, x);
      assert tail[|tail| - 1] == s[|s| - 1];
      var filledTail := FillGaps(tail);
      assert FillGaps(s) == [s[0]] + between + filledTail by {
        UnfoldFillGaps(s);
      }
      Regroup3([s[0]] + between, filledTail, last, [x]);
    }
  }

  /** Sequence regrouping used when appending. */
  lemma Regroup3(a: seq<Snapshot>, b: seq<Snapshot>, c: seq<Snapshot>, d: seq<Snapshot>)
    ensures a + (b + c + d) == (a + b) + c + d
  {
  }

  /** The series filled up to the day before `lastRecord`: the gaps between
      its elements and the gap after its last element, without `lastRecord`
      itself. */
  function FilledWithLast(result: seq<Snapshot>, lastRecord: Snapshot): seq<Snapshot>
  {
    if result == [] then [] else FillGaps(result) + Filler(result[|result| - 1], lastRecord)
  }

  /** fillTimestreamGapsWithLastRecord: appends the terminal record, fills,
      and drops the last element again, which is that record. */
  method FillTimestreamGapsWithLastRecord(result: seq<Snapshot>, lastRecord: Snapshot) returns (r: seq<Snapshot>)
    ensures r == FilledWithLast(result, lastRecord)
    ensures result == [] ==> r == []
  {
    var pushed := result + [lastRecord];
    var filled := FillTimestreamGaps(pushed);
    r := filled[..|filled| - 1];
    if result != [] {
      FillGapsAppend(result, lastRecord);
    }
  }

  /** Appending the terminal record and filling gives the series filled up
      to it, then the record: dropping the last element drops exactly it. */
  lemma FilledWithLastThenRecord(result: seq<Snapshot>, lastRecord: Snapshot)
    ensures FillGaps(result + [lastRecord]) == FilledWithLast(result, lastRecord) + [lastRecord]
  {
    if result != [] {
      FillGapsAppend(result, lastRecord);
    } else {
      assert result + [lastRecord] == [lastRecord];
    }
  }

  /** Every copy lies strictly between the two neighbours it fills. */
  lemma FillerBetween(current: Snapshot, next: Snapshot)
    ensures forall x :: x in Filler(current, next) ==> current.date < x.date < next.date
  {
    var f := Filler(current, next);
    forall x | x in f
      ensures current.date < x.date < next.date
    {
      var k :| 0 <= k < |f| && f[k] == x;
      FillerAt(current, next, k);
    }
  }

  /** Filling never goes past the last element. */
  lemma {:induction false} FillGapsBefore(s: seq<Snapshot>, bound: int)
    requires forall e :: e in s ==> e.date < bound
    ensures forall x :: x in FillGaps(s) ==> x.date < bound
  {
    if |s| > 1 {
      FillGapsBefore(s[1..], bound);
      FillerBetween(s[0], s[1]);
    }
  }

  /** When every element predates the terminal record, the filled series
      keeps every element, never reaches the record's date (so the record is
      not in it), and has no gap of more than a day. */
  lemma FilledWithLastShape(result: seq<Snapshot>, lastRecord: Snapshot)
    requires forall e :: e in result ==> e.date < lastRecord.date
    ensures forall e :: e in result ==> e in FilledWithLast(result, lastRecord)
    ensures forall x :: x in FilledWithLast(result, lastRecord) ==> x.date < lastRecord.date
    ensures var r := FilledWithLast(result, lastRecord);
            forall k :: 0 <= k < |r| - 1 ==> DaysBetween(r[k].date, r[k + 1].date) <= 1
  {
    var r := FilledWithLast(result, lastRecord);
    if result != [] {
      FillGapsBefore(result, lastRecord.date);
      FillerBetween(result[|result| - 1], lastRecord);
      forall e | e in result
        ensures e in r
      {
        var k :| 0 <= k < |result| && result[k] == e;
        FillGapsKeeps(result, k);
      }
    }
    FilledWithLastThenRecord(result, lastRecord);
    FillGapsAtMostOneDay(result + [lastRecord]);
    var g := FillGaps(result + [lastRecord]);
    forall k | 0 <= k < |r| - 1
      ensures DaysBetween(r[k].date, r[k + 1].date) <= 1
    {
      assert r[k] == g[k] && r[k + 1] == g[k + 1];
    }
  }

  /** Filling a prefix of a series gives a prefix of the filled series. */
  lemma {:induction false} FillGapsPrefix(s: seq<Snapshot>, m: nat)
    requires 1 <= m <= |s|
    ensures |FillGaps(s[..m])| <= |FillGaps(s)|
    ensures FillGaps(s[..m]) == FillGaps(s)[..|FillGaps(s[..m])|]
    decreases |s| - m
  {
    if m == |s| {
      assert s[..m] == s;
    } else {
      FillGapsPrefix(s, m + 1);
      var shorter := FillGaps(s[..m]);
      var gap := Filler(s[m - 1], s[m]) + [s[m]];
      AppendedPrefix(s, m);
      PrefixOfPrefix(shorter, gap, FillGaps(s[..m + 1]), FillGaps(s));
    }
  }

  /** The prefix one element longer fills to the shorter one filled, the gap
      and the new element. */
  lemma AppendedPrefix(s: seq<Snapshot>, m: nat)
    requires 1 <= m < |s|
    ensures FillGaps(s[..m + 1]) == FillGaps(s[..m]) + (Filler(s[m - 1], s[m]) + [s[m]])
  {
    assert s[..m + 1] == s[..m] + [s[m]];
    FillGapsAppend(s[..m], s[m]);
  }

  /** A prefix of a prefix of a sequence is a prefix of it. */
  lemma PrefixOfPrefix(p: seq<Snapshot>, q: seq<Snapshot>, longer: seq<Snapshot>, whole: seq<Snapshot>)
    requires longer == p + q
    requires |longer| <= |whole| && longer == whole[..|longer|]
    ensures |p| <= |whole| && p == whole[..|p|]
  {
    assert p == longer[..|p|];
  }

  /** Where the original element `k` lands in the filled series. */
  function Position(s: seq<Snapshot>, k: nat): int
    requires k < |s|
  {
    |FillGaps(s[..k + 1])| - 1
  }

  /** The copy `k` of a filler is the earlier neighbour shifted `k + 1` days. */
  lemma FillerAt(current: Snapshot, next: Snapshot, k: int)
    requires 0 <= k < |Filler(current, next)|
    ensures Filler(current, next)[k] == Shifted(current, k + 1)
  {
  }

  /** Filling keeps the first and the last element where they are. */
  lemma {:induction false} FillGapsEnds(s: seq<Snapshot>)
    requires s != []
    ensures FillGaps(s) != [] && FillGaps(s)[0] == s[0]
    ensures FillGaps(s)[|FillGaps(s)| - 1] == s[|s| - 1]
  {
    if |s| > 1 {
      FillGapsEnds(s[1..]);
    }
  }

  /** The filled series keeps every original element, in order, at the
      positions above: the first stays first and the last stays last. */
  lemma FillGapsKeeps(s: seq<Snapshot>, k: nat)
    requires k < |s|
    ensures 0 <= Position(s, k) < |FillGaps(s)|
    ensures FillGaps(s)[Position(s, k)] == s[k]
    ensures k == 0 ==> Position(s, k) == 0
    ensures k == |s| - 1 ==> Position(s, k) == |FillGaps(s)| - 1
  {
    var pre := FillGaps(s[..k + 1]);
    FillGapsPrefix(s, k + 1);
    FillGapsEnds(s[..k + 1]);
    assert s[..k + 1][k] == s[k];
    LastOfPrefix(pre, FillGaps(s));
    if k == |s| - 1 {
      assert s[..k + 1] == s;
    }
    if k == 0 {
      assert |s[..1]| == 1;
    }
  }

  /** The last element of a prefix sits at the same index in the whole. */
  lemma LastOfPrefix(p: seq<Snapshot>, whole: seq<Snapshot>)
    requires p != [] && |p| <= |whole| && p == whole[..|p|]
    ensures whole[|p| - 1] == p[|p| - 1]
  {
  }

  /** Between two neighbouring originals the filled series holds exactly
      the copies of the earlier one, one day after another. */
  lemma FillGapsBetween(s: seq<Snapshot>, k: nat)
    requires k < |s| - 1
    ensures Position(s, k + 1) == Position(s, k) + 1 + |Filler(s[k], s[k + 1])|
    ensures Position(s, k + 1) < |FillGaps(s)|
    ensures forall j :: 1 <= j <= |Filler(s[k], s[k + 1])| ==> FillGaps(s)[Position(s, k) + j] == Shifted(s[k], j)
  {
    NeighbourPositions(s, k);
    CopiesBetween(s, k);
  }

  /** How far apart two neighbouring originals land. */
  lemma NeighbourPositions(s: seq<Snapshot>, k: nat)
    requires k < |s| - 1
    ensures Position(s, k + 1) == Position(s, k) + 1 + |Filler(s[k], s[k + 1])|
    ensures Position(s, k + 1) < |FillGaps(s)|
  {
    FillGapsPrefix(s, k + 2);
    AppendedPrefix(s, k + 1);
  }

  /** The copies between two neighbouring originals. */
  lemma CopiesBetween(s: seq<Snapshot>, k: nat)
    requires k < |s| - 1
    ensures Position(s, k) + |Filler(s[k], s[k + 1])| < |FillGaps(s)|
    ensures forall j :: 1 <= j <= |Filler(s[k], s[k + 1])| ==> FillGaps(s)[Position(s, k) + j] == Shifted(s[k], j)
  {
    var f := Filler(s[k], s[k + 1]);
    var pre := FillGaps(s[..k + 1]);
    var upTo := FillGaps(s[..k + 2]);
    FillGapsPrefix(s, k + 2);
    AppendedPrefix(s, k + 1);
    FillerCopies(s[k], s[k + 1]);
    CopiesInWhole(FillGaps(s), upTo, pre, f, s[k + 1], s[k]);
    assert Position(s, k) == |pre| - 1;
  }

  /** Every copy of a filler is the earlier neighbour shifted by whole days. */
  lemma FillerCopies(current: Snapshot, next: Snapshot)
    ensures forall k :: 0 <= k < |Filler(current, next)| ==> Filler(current, next)[k] == Shifted(current, k + 1)
  {
  }

  /** The copies in the middle of a prefix sit at the same indices in the whole. */
  lemma CopiesInWhole(whole: seq<Snapshot>, upTo: seq<Snapshot>, pre: seq<Snapshot>, f: seq<Snapshot>, last: Snapshot, current: Snapshot)
    requires |upTo| <= |whole| && upTo == whole[..|upTo|]
    requires upTo == pre + (f + [last]) && pre != []
    requires forall k :: 0 <= k < |f| ==> f[k] == Shifted(current, k + 1)
    ensures |pre| + |f| < |whole|
    ensures forall j :: 1 <= j <= |f| ==> whole[|pre| - 1 + j] == Shifted(current, j)
  {
    forall j | 1 <= j <= |f|
      ensures whole[|pre| - 1 + j] == Shifted(current, j)
    {
      assert upTo[|pre| + (j - 1)] == f[j - 1];
    }
  }

  /** Consecutive elements of a filled series are at most one day apart,
      whatever the input. */
  lemma {:induction false} FillGapsAtMostOneDay(s: seq<Snapshot>)
    ensures forall k :: 0 <= k < |FillGaps(s)| - 1 ==> DaysBetween(FillGaps(s)[k].date, FillGaps(s)[k + 1].date) <= 1
  {
    if |s| > 1 {
      var g := FillGaps(s);
      var f := Filler(s[0], s[1]);
      var rest := FillGaps(s[1..]);
      FillGapsAtMostOneDay(s[1..]);
      assert g == [s[0]] + f + rest;
      var gap := DaysBetween(s[0].date, s[1].date);
      forall k | 0 <= k < |g| - 1
        ensures DaysBetween(g[k].date, g[k + 1].date) <= 1
      {
        if k > |f| {
          assert g[k] == rest[k - 1 - |f|] && g[k + 1] == rest[k - |f|];
        } else if k == |f| {
          assert g[k + 1] == s[1];
          if |f| > 0 {
            DaysBetweenShift(s[0].date, s[1].date, k);
          }
        } else {
          FillerAt(s[0], s[1], k);
          assert g[k + 1] == Shifted(s[0], k + 1);
          DaysBetweenShift(s[0].date + k * DayMs, s[0].date + k * DayMs, 1);
          DaysBetweenSame(s[0].date + k * DayMs);
        }
      }
    }
  }
}

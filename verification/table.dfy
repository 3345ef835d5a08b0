/**
 The clothes table as a sequence of rows. A row's position is its index
 label: every table the program holds is freshly numbered 0..n-1, because it
 is read from a file or concatenated with the index ignored.
 */
module Table {
  import opened Schema
  import opened Records

  type Table = seq<Record>

  /** Every row keeps the derived-total invariant. */
  predicate AllConsistent(t: Table) {
    forall i :: 0 <= i < |t| ==> Consistent(t[i])
  }

  /** The table used when no stored table exists: no rows (its columns are
      `Schema.Columns`). */
  function EmptyTable(): (t: Table)
    ensures |t| == 0
    ensures AllConsistent(t)
  {
    []
  }

  /** Adds a row at the end; the old rows keep their positions. */
  function Append(t: Table, e: Record): (r: Table)
    ensures |r| == |t| + 1
    ensures r[..|t|] == t
    ensures r[|t|] == e
  {
    t + [e]
  }

  /** Appending a consistent row to a consistent table keeps it consistent. */
  lemma AppendPreservesConsistency(t: Table, e: Record)
    requires AllConsistent(t) && Consistent(e)
    ensures AllConsistent(Append(t, e))
  {
  }

  /** The rows dated `d`, in table order. */
  function FilterByDate(t: Table, d: string): (r: Table)
    ensures |r| <= |t|
    ensures forall k :: 0 <= k < |r| ==> r[k].date == d
    decreases |t|
  {
    if t == [] then []
    else
      var rest := FilterByDate(t[1..], d);
      assert t == [t[0]] + t[1..];
      if t[0].date == d then [t[0]] + rest else rest
  }

  /** The index labels of the rows dated `d`: increasing, and exactly the
      positions whose date is `d`. */
  function MatchingPositions(t: Table, d: string): (p: seq<nat>)
    ensures forall k :: 0 <= k < |p| ==> p[k] < |t| && t[p[k]].date == d
    ensures forall k, l :: 0 <= k < l < |p| ==> p[k] < p[l]
    ensures forall i :: 0 <= i < |t| && t[i].date == d ==> i in p
    decreases |t|
  {
    if t == [] then []
    else
      var n := |t| - 1;
      var front := MatchingPositions(t[..n], d);
      assert forall i :: 0 <= i < n ==> t[i] == t[..n][i];
      if t[n].date == d then front + [n] else front
  }

  /** Filtering a concatenation filters each part. */
  lemma {:induction false} FilterConcat(a: Table, b: Table, d: string)
    ensures FilterByDate(a + b, d) == FilterByDate(a, d) + FilterByDate(b, d)
    decreases |a|
  {
    if a == [] {
      assert a + b == b;
    } else {
      assert (a + b)[1..] == a[1..] + b;
      FilterConcat(a[1..], b, d);
    }
  }

  /** `f` lists the rows of `t` at the positions `p`, in the order of `p`. */
  predicate SelectsAt(t: Table, p: seq<nat>, f: Table) {
    && |f| == |p|
    && forall k :: 0 <= k < |p| ==> p[k] < |t| && f[k] == t[p[k]]
  }

  /** Selecting one more position past the end of a prefix. */
  lemma SelectsAtExtend(t: Table, n: nat, p: seq<nat>, f: Table, tail: seq<nat>, ftail: Table)
    requires n <= |t|
    requires SelectsAt(t[..n], p, f)
    requires SelectsAt(t, tail, ftail)
    ensures SelectsAt(t, p + tail, f + ftail)
  {
  }

  /** The filter is the subsequence of the table at the matching index
      labels: it holds exactly the rows dated `d`, in their original order. */
  lemma {:induction false} FilterIsSubsequence(t: Table, d: string)
    ensures SelectsAt(t, MatchingPositions(t, d), FilterByDate(t, d))
    decreases |t|
  {
    if t != [] {
      var n := |t| - 1;
      var front := t[..n];
      FilterIsSubsequence(front, d);
      var p0 := MatchingPositions(front, d);
      var f0 := FilterByDate(front, d);
      var tail: seq<nat> := if t[n].date == d then [n] else [];
      var ftail := if t[n].date == d then [t[n]] else [];
      assert MatchingPositions(t, d) == p0 + tail;
      assert t == front + [t[n]];
      FilterConcat(front, [t[n]], d);
      assert FilterByDate([t[n]], d) == ftail by {
        assert [t[n]][1..] == [];
      }
      assert FilterByDate(t, d) == f0 + ftail;
      assert SelectsAt(t, tail, ftail);
      SelectsAtExtend(t, n, p0, f0, tail, ftail);
    }
  }

  /** The filter holds every row dated `d` and only rows of the table dated `d`. */
  lemma {:induction false} FilterExactlyMatches(t: Table, d: string)
    ensures forall x :: x in FilterByDate(t, d) ==> x in t && x.date == d
    ensures forall i :: 0 <= i < |t| && t[i].date == d ==> t[i] in FilterByDate(t, d)
  {
    var f := FilterByDate(t, d);
    var p := MatchingPositions(t, d);
    FilterIsSubsequence(t, d);
    forall x | x in f ensures x in t && x.date == d {
      var k :| 0 <= k < |f| && f[k] == x;
      assert x == t[p[k]];
    }
    forall i | 0 <= i < |t| && t[i].date == d ensures t[i] in f {
      var k :| 0 <= k < |p| && p[k] == i;
      assert f[k] == t[i];
    }
  }

  /** The filter is empty exactly when no row carries the date. */
  lemma {:induction false} FilterEmptyIff(t: Table, d: string)
    ensures FilterByDate(t, d) == [] <==> forall i :: 0 <= i < |t| ==> t[i].date != d
  {
    FilterExactlyMatches(t, d);
    if FilterByDate(t, d) != [] {
      assert FilterByDate(t, d)[0] in FilterByDate(t, d);
    }
  }

  /** Filtering after an append sees the new row exactly when it carries the date. */
  lemma FilterAfterAppend(t: Table, e: Record, d: string)
    ensures FilterByDate(Append(t, e), d) == FilterByDate(t, d) + (if e.date == d then [e] else [])
  {
    FilterConcat(t, [e], d);
    assert [e][1..] == [];
  }

  /** Sets the payment status of every row dated `d` to `status`. */
  function SetPaymentStatus(t: Table, d: string, status: string): (r: Table)
    ensures |r| == |t|
    ensures forall i :: 0 <= i < |t| && t[i].date == d ==> r[i].paymentStatus == status
    ensures forall i, f :: 0 <= i < |t| && f != PaymentStatus ==> Get(r[i], f) == Get(t[i], f)
    ensures forall i :: 0 <= i < |t| && t[i].date != d ==> r[i] == t[i]
    decreases |t|
  {
    if t == [] then []
    else
      var head := if t[0].date == d then WithStatus(t[0], status) else t[0];
      var rest := SetPaymentStatus(t[1..], d, status);
      var r := [head] + rest;
      assert forall i :: 1 <= i < |t| ==> r[i] == rest[i - 1] && t[i] == t[1..][i - 1];
      r
  }

  /** A row after the update is the row with only its status replaced, if it
      is dated `d`, and the row itself otherwise. */
  lemma SetPaymentStatusRow(t: Table, d: string, status: string, i: int)
    requires 0 <= i < |t|
    ensures SetPaymentStatus(t, d, status)[i] ==
              if t[i].date == d then WithStatus(t[i], status) else t[i]
  {
    var r := SetPaymentStatus(t, d, status);
    if t[i].date == d {
      var w := WithStatus(t[i], status);
      forall f: Field ensures Get(r[i], f) == Get(w, f) {
      }
      RowExtensionality(r[i], w);
    }
  }

  /** The update keeps the derived-total invariant. */
  lemma {:induction false} SetPaymentStatusPreservesConsistency(t: Table, d: string, status: string)
    requires AllConsistent(t)
    ensures AllConsistent(SetPaymentStatus(t, d, status))
  {
    var r := SetPaymentStatus(t, d, status);
    forall i | 0 <= i < |r| ensures Consistent(r[i]) {
      SetPaymentStatusRow(t, d, status, i);
    }
  }

  /** Of two updates on the same date, the later status is the one that stays. */
  lemma {:induction false} SetPaymentStatusLastWins(t: Table, d: string, s1: string, s2: string)
    ensures SetPaymentStatus(SetPaymentStatus(t, d, s1), d, s2) == SetPaymentStatus(t, d, s2)
  {
    var u := SetPaymentStatus(t, d, s1);
    var a := SetPaymentStatus(u, d, s2);
    var b := SetPaymentStatus(t, d, s2);
    forall i | 0 <= i < |t| ensures a[i] == b[i] {
      SetPaymentStatusRow(t, d, s1, i);
      SetPaymentStatusRow(u, d, s2, i);
      SetPaymentStatusRow(t, d, s2, i);
    }
  }

  /** Repeating an update changes nothing more. */
  lemma {:induction false} SetPaymentStatusIdempotent(t: Table, d: string, status: string)
    ensures SetPaymentStatus(SetPaymentStatus(t, d, status), d, status) == SetPaymentStatus(t, d, status)
  {
    SetPaymentStatusLastWins(t, d, status, status);
  }

  /** Every row dated `d` already has the status `status`. */
  predicate StatusSettled(t: Table, d: string, status: string) {
    forall i :: 0 <= i < |t| && t[i].date == d ==> t[i].paymentStatus == status
  }

  /** The update leaves the table identical exactly when every row dated `d`
      already has that status. */
  lemma {:induction false} SetPaymentStatusUnchangedIff(t: Table, d: string, status: string)
    ensures StatusSettled(t, d, status) ==> SetPaymentStatus(t, d, status) == t
    ensures SetPaymentStatus(t, d, status) == t ==> StatusSettled(t, d, status)
  {
    var r := SetPaymentStatus(t, d, status);
    if StatusSettled(t, d, status) {
      forall i | 0 <= i < |t| ensures r[i] == t[i] {
        SetPaymentStatusRow(t, d, status, i);
      }
    }
  }

  /** With no row dated `d`, the update leaves the table identical. */
  lemma {:induction false} SetPaymentStatusNoMatch(t: Table, d: string, status: string)
    requires FilterByDate(t, d) == []
    ensures SetPaymentStatus(t, d, status) == t
  {
    FilterEmptyIff(t, d);
    SetPaymentStatusUnchangedIff(t, d, status);
  }

  /** After the update, the rows dated `d` are the same rows as before, with
      the new status; the rows of any other date are untouched. */
  lemma {:induction false} FilterAfterSetPaymentStatus(t: Table, d: string, status: string, d': string)
    ensures |FilterByDate(SetPaymentStatus(t, d, status), d)| == |FilterByDate(t, d)|
    ensures forall k :: 0 <= k < |FilterByDate(t, d)| ==>
              FilterByDate(SetPaymentStatus(t, d, status), d)[k] == WithStatus(FilterByDate(t, d)[k], status)
    ensures d' != d ==> FilterByDate(SetPaymentStatus(t, d, status), d') == FilterByDate(t, d')
    decreases |t|
  {
    if t != [] {
      var r := SetPaymentStatus(t, d, status);
      FilterAfterSetPaymentStatus(t[1..], d, status, d');
      SetPaymentStatusRow(t, d, status, 0);
      assert r == [r[0]] + r[1..];
      assert t == [t[0]] + t[1..];
      assert r[1..] == SetPaymentStatus(t[1..], d, status) by {
        forall i | 0 <= i < |t| - 1 ensures r[1..][i] == SetPaymentStatus(t[1..], d, status)[i] {
          SetPaymentStatusRow(t, d, status, i + 1);
          SetPaymentStatusRow(t[1..], d, status, i);
        }
      }
      FilterConcat([r[0]], r[1..], d);
      FilterConcat([t[0]], t[1..], d);
      FilterConcat([r[0]], r[1..], d');
      FilterConcat([t[0]], t[1..], d');
      assert [r[0]][1..] == [] && [t[0]][1..] == [];
    }
  }
}

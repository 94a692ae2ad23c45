/**
 * The ordering step of the leaderboard handler of
 * src/xueyuanzuoye/stu_homework.py: sort the rows in place by the requested
 * field, highest first, keeping rows with equal values in their input
 * order (Python's sort is stable, also with `reverse=True`), then number
 * them 1, 2, 3, ... in that order.
 */
module Leaderboard {
  import opened Json
  import opened Wrappers
  import opened Badges

  /** One leaderboard row. */
  datatype Row = Row(
    name: Json, repo: Json, scores: seq<int>, avgScore: real, totalScore: int,
    commitsCount: int, avatarUrl: Json, badges: seq<Badge>, rank: int)

  /** A sortable field. */
  datatype Field = AvgScore | TotalScore | CommitsCount

  /** The field `sort_by` names, if it names a sortable one. */
  function SortField(sortBy: string): (f: Option<Field>)
    ensures f.Some? <==> sortBy in {"avg_score", "total_score", "commits_count"}
  {
    if sortBy == "avg_score" then Some(AvgScore)
    else if sortBy == "total_score" then Some(TotalScore)
    else if sortBy == "commits_count" then Some(CommitsCount)
    else None
  }

  /** The value a row is sorted on. */
  function Key(r: Row, f: Field): real {
    match f
    case AvgScore => r.avgScore
    case TotalScore => r.totalScore as real
    case CommitsCount => r.commitsCount as real
  }

  /** Highest key first. */
  predicate NonIncreasing(xs: seq<Row>, f: Field) {
    forall a, b :: 0 <= a < b < |xs| ==> Key(xs[a], f) >= Key(xs[b], f)
  }

  /** The rows whose key is `v`, in their order. */
  function WithKey(xs: seq<Row>, f: Field, v: real): seq<Row> {
    if xs == [] then []
    else WithKey(xs[..|xs| - 1], f, v) + (if Key(xs[|xs| - 1], f) == v then [xs[|xs| - 1]] else [])
  }

  lemma {:induction false} WithKeyConcat(a: seq<Row>, b: seq<Row>, f: Field, v: real)
    ensures WithKey(a + b, f, v) == WithKey(a, f, v) + WithKey(b, f, v)
    decreases |b|
  {
    if b != [] {
      assert (a + b)[..|a + b| - 1] == a + b[..|b| - 1];
      WithKeyConcat(a, b[..|b| - 1], f, v);
    } else {
      assert a + b == a;
    }
  }

  lemma {:induction false} WithKeyNone(xs: seq<Row>, f: Field, v: real)
    requires forall k :: 0 <= k < |xs| ==> Key(xs[k], f) < v
    ensures WithKey(xs, f, v) == []
  {
    if xs != [] {
      WithKeyNone(xs[..|xs| - 1], f, v);
    }
  }

  lemma WithKeySingle(x: Row, f: Field, v: real)
    ensures WithKey([x], f, v) == if Key(x, f) == v then [x] else []
  {
    assert [x][..0] == [];
  }

  /** Inserting `x` after every row with a key at least its own keeps the order ... */
  lemma InsertKeepsOrder(ys: seq<Row>, j: nat, x: Row, f: Field)
    requires NonIncreasing(ys, f) && j <= |ys|
    requires forall k :: 0 <= k < j ==> Key(ys[k], f) >= Key(x, f)
    requires forall k :: j <= k < |ys| ==> Key(ys[k], f) < Key(x, f)
    ensures NonIncreasing(ys[..j] + [x] + ys[j..], f)
  {
    var zs := ys[..j] + [x] + ys[j..];
    forall a, b | 0 <= a < b < |zs| ensures Key(zs[a], f) >= Key(zs[b], f) {
      if a < j && b > j {
        assert zs[b] == ys[b - 1];
      } else if a > j {
        assert zs[a] == ys[a - 1] && zs[b] == ys[b - 1];
      }
    }
  }

  /** Four pieces of a filtered sequence rearranged, once the middle or the last is empty. */
  lemma Regroup(wf: seq<Row>, wx: seq<Row>, wb: seq<Row>)
    requires wx == [] || wb == []
    ensures wf + wx + wb == wf + wb + wx
  {
  }

  /** ... puts `x` behind the rows with the same key ... */
  lemma InsertBehindEqual(ys: seq<Row>, j: nat, x: Row, f: Field, v: real)
    requires j <= |ys|
    requires forall k :: j <= k < |ys| ==> Key(ys[k], f) < Key(x, f)
    ensures WithKey(ys[..j] + [x] + ys[j..], f, v) == WithKey(ys, f, v) + WithKey([x], f, v)
  {
    var front, back := ys[..j], ys[j..];
    assert ys == front + back;
    assert ys[..j] + [x] + ys[j..] == (front + [x]) + back;
    WithKeyConcat(front + [x], back, f, v);
    WithKeyConcat(front, [x], f, v);
    WithKeyConcat(front, back, f, v);
    EmptyPiece(back, x, f, v);
    Regroup(WithKey(front, f, v), WithKey([x], f, v), WithKey(back, f, v));
  }

  /** Either `x` has another key than `v`, or no row of `back` has key `v`. */
  lemma EmptyPiece(back: seq<Row>, x: Row, f: Field, v: real)
    requires forall k :: 0 <= k < |back| ==> Key(back[k], f) < Key(x, f)
    ensures WithKey([x], f, v) == [] || WithKey(back, f, v) == []
  {
    if Key(x, f) == v {
      WithKeyNone(back, f, v);
    } else {
      WithKeySingle(x, f, v);
    }
  }

  /** One step of the sort: `x` goes behind every row whose key is at least its own. */
  method InsertStable(ys: seq<Row>, x: Row, f: Field) returns (zs: seq<Row>)
    requires NonIncreasing(ys, f)
    ensures NonIncreasing(zs, f)
    ensures multiset(zs) == multiset(ys) + multiset{x}
    ensures forall v :: WithKey(zs, f, v) == WithKey(ys, f, v) + WithKey([x], f, v)
  {
    var j := 0;
    while j < |ys| && Key(ys[j], f) >= Key(x, f)
      invariant 0 <= j <= |ys|
      invariant forall k :: 0 <= k < j ==> Key(ys[k], f) >= Key(x, f)
    {
      j := j + 1;
    }
    assert forall k :: j <= k < |ys| ==> Key(ys[k], f) < Key(x, f) by {
      forall k | j <= k < |ys| ensures Key(ys[k], f) < Key(x, f) {
        if j < k { assert Key(ys[j], f) >= Key(ys[k], f); }
      }
    }
    InsertKeepsOrder(ys, j, x, f);
    InsertMultiset(ys, j, x);
    forall v | true ensures WithKey(ys[..j] + [x] + ys[j..], f, v) == WithKey(ys, f, v) + WithKey([x], f, v) {
      InsertBehindEqual(ys, j, x, f, v);
    }
    zs := ys[..j] + [x] + ys[j..];
  }

  /** `leaderboard.sort(key=lambda x: x[sort_by], reverse=True)`: a stable insertion sort. */
  method SortDescending(xs: seq<Row>, f: Field) returns (ys: seq<Row>)
    ensures NonIncreasing(ys, f)
    ensures multiset(ys) == multiset(xs)
    ensures forall v :: WithKey(ys, f, v) == WithKey(xs, f, v)
  {
    ys := [];
    for i := 0 to |xs|
      invariant NonIncreasing(ys, f)
      invariant multiset(ys) == multiset(xs[..i])
      invariant forall v :: WithKey(ys, f, v) == WithKey(xs[..i], f, v)
    {
      assert xs[..i + 1] == xs[..i] + [xs[i]];
      forall v | true ensures WithKey(xs[..i + 1], f, v) == WithKey(xs[..i], f, v) + WithKey([xs[i]], f, v) {
        WithKeyConcat(xs[..i], [xs[i]], f, v);
      }
      ys := InsertStable(ys, xs[i], f);
    }
    assert xs[..|xs|] == xs;
  }

  /** A row with key `v` is among the rows of `xs`. */
  lemma {:induction false} WithKeyHasKey(xs: seq<Row>, f: Field, v: real)
    requires WithKey(xs, f, v) != []
    ensures exists k :: 0 <= k < |xs| && Key(xs[k], f) == v
  {
    if Key(xs[|xs| - 1], f) != v {
      WithKeyHasKey(xs[..|xs| - 1], f, v);
      var k :| 0 <= k < |xs| - 1 && Key(xs[..|xs| - 1][k], f) == v;
      assert xs[k] == xs[..|xs| - 1][k];
    }
  }

  /** In a highest-first sequence, a key that occurs is at least the key of the last row. */
  lemma LastKeyIsLeast(xs: seq<Row>, f: Field, v: real)
    requires xs != [] && NonIncreasing(xs, f) && WithKey(xs, f, v) != []
    ensures v >= Key(xs[|xs| - 1], f)
  {
    WithKeyHasKey(xs, f, v);
    var k :| 0 <= k < |xs| && Key(xs[k], f) == v;
    if k < |xs| - 1 {
      assert Key(xs[k], f) >= Key(xs[|xs| - 1], f);
    }
  }

  lemma SnocInjective(x: seq<Row>, l: Row, y: seq<Row>, m: Row)
    requires x + [l] == y + [m]
    ensures x == y && l == m
  {
    assert (x + [l])[|x|] == l;
    assert x == (x + [l])[..|x|];
    assert y == (y + [m])[..|y|];
  }

  /** The last row of a non-empty sequence is among the rows with its own key. */
  lemma LastRowKept(xs: seq<Row>, f: Field)
    ensures xs != [] ==> WithKey(xs, f, Key(xs[|xs| - 1], f)) != []
  {
  }

  /** The stable highest-first order is unique: two highest-first sequences holding the same rows
      per key, in the same order, are the same sequence. So the contract of `SortDescending` fixes
      its result, which is the one Python's stable `sort(..., reverse=True)` produces. */
  lemma {:induction false} StableOrderUnique(a: seq<Row>, b: seq<Row>, f: Field)
    requires NonIncreasing(a, f) && NonIncreasing(b, f)
    requires forall v :: WithKey(a, f, v) == WithKey(b, f, v)
    ensures a == b
    decreases |a|
  {
    LastRowKept(a, f);
    LastRowKept(b, f);
    if a != [] && b != [] {
      var a', b' := a[..|a| - 1], b[..|b| - 1];
      var la, lb := a[|a| - 1], b[|b| - 1];
      var ka, kb := Key(la, f), Key(lb, f);
      assert WithKey(a, f, ka) == WithKey(a', f, ka) + [la];
      assert WithKey(b, f, kb) == WithKey(b', f, kb) + [lb];
      LastKeyIsLeast(b, f, ka);
      LastKeyIsLeast(a, f, kb);
      SnocInjective(WithKey(a', f, ka), la, WithKey(b', f, ka), lb);
      forall v | true ensures WithKey(a', f, v) == WithKey(b', f, v) {
        if v != ka {
          assert WithKey(a, f, v) == WithKey(a', f, v) + [] == WithKey(a', f, v);
          assert WithKey(b, f, v) == WithKey(b', f, v) + [] == WithKey(b', f, v);
        }
      }
      StableOrderUnique(a', b', f);
      assert a == a' + [la];
      assert b == b' + [lb];
    }
  }

  /** The order and numbering of the leaderboard: sorted by a sortable field (stably, highest
      first) or left in input order for any other `sort_by`, then ranked 1..n. Apart from `rank`
      each output row is the row at that place of `order`. */
  method RankLeaderboard(rows: seq<Row>, sortBy: string) returns (ranked: seq<Row>, ghost order: seq<Row>)
    ensures |ranked| == |rows| == |order|
    ensures forall i :: 0 <= i < |ranked| ==> ranked[i] == order[i].(rank := i + 1)
    ensures SortField(sortBy).Some? ==> var f := SortField(sortBy).value;
      NonIncreasing(order, f) && multiset(order) == multiset(rows)
      && forall v :: WithKey(order, f, v) == WithKey(rows, f, v)
    ensures SortField(sortBy).None? ==> order == rows
  {
    var items := rows;
    var field := SortField(sortBy);
    if field.Some? {
      items := SortDescending(rows, field.value);
      assert |items| == |multiset(items)| == |multiset(rows)| == |rows|;
    }
    order := items;
    for idx := 0 to |items|
      invariant |items| == |order|
      invariant forall i :: 0 <= i < idx ==> items[i] == order[i].(rank := i + 1)
      invariant forall i :: idx <= i < |items| ==> items[i] == order[i]
    {
      items := items[idx := items[idx].(rank := idx + 1)];
    }
    ranked := items;
  }
}

/**
 * The `ratings` table as a sequence of rows, the two SQL statements the
 * rating route writes it with (an UPDATE of the caller's row or an INSERT),
 * and the per-store aggregate `AVG(rating)::NUMERIC(3,2), COUNT(*)` it reads
 * back. Averages are integers in hundredths.
 */
module Ratings {
  import opened JsValues

  type UserId = int
  type StoreId = int

  /** A row of `ratings`; its serial id and `updated_at` stamp are not modelled. */
  datatype RatingRow = RatingRow(userId: UserId, storeId: StoreId, value: int)

  predicate IsPair(r: RatingRow, u: UserId, s: StoreId)
  {
    r.userId == u && r.storeId == s
  }

  /** `SELECT id FROM ratings WHERE user_id=u AND store_id=s` finds a row. */
  predicate HasRating(rows: seq<RatingRow>, u: UserId, s: StoreId)
  {
    exists i | 0 <= i < |rows| :: IsPair(rows[i], u, s)
  }

  /** No two rows share a (user, store) pair. */
  ghost predicate PairsUnique(rows: seq<RatingRow>)
  {
    forall i, j | 0 <= i < j < |rows| :: !IsPair(rows[j], rows[i].userId, rows[i].storeId)
  }

  /** The value of the first row for the pair, if there is one. */
  function RatingOf(rows: seq<RatingRow>, u: UserId, s: StoreId): (r: Option<int>)
    ensures r.Some? <==> HasRating(rows, u, s)
    ensures r.Some? ==> exists i | 0 <= i < |rows| :: IsPair(rows[i], u, s) && rows[i].value == r.value
  {
    if rows == [] then None
    else if IsPair(rows[0], u, s) then Some(rows[0].value)
    else
      var r := RatingOf(rows[1..], u, s);
      assert forall i | 0 <= i < |rows[1..]| :: rows[1..][i] == rows[i + 1];
      r
  }

  /** `UPDATE ratings SET rating=v WHERE user_id=u AND store_id=s`. */
  function SetRating(rows: seq<RatingRow>, u: UserId, s: StoreId, v: int): (r: seq<RatingRow>)
    ensures |r| == |rows|
    ensures forall i | 0 <= i < |rows| ::
      r[i] == if IsPair(rows[i], u, s) then rows[i].(value := v) else rows[i]
  {
    if rows == [] then []
    else [if IsPair(rows[0], u, s) then rows[0].(value := v) else rows[0]] + SetRating(rows[1..], u, s, v)
  }

  /** Update the caller's row if it exists, otherwise insert one. */
  function Upsert(rows: seq<RatingRow>, u: UserId, s: StoreId, v: int): (r: seq<RatingRow>)
    // a row is added only when the pair had none
    ensures |r| == |rows| + (if HasRating(rows, u, s) then 0 else 1)
    // afterwards the pair is rated, and every row of the pair holds v
    ensures HasRating(r, u, s)
    ensures forall i | 0 <= i < |r| && IsPair(r[i], u, s) :: r[i].value == v
    // every other row keeps its place and its value
    ensures forall i | 0 <= i < |rows| && !IsPair(rows[i], u, s) :: r[i] == rows[i]
  {
    if HasRating(rows, u, s) then
      var r := SetRating(rows, u, s, v);
      assert HasRating(r, u, s) by {
        var w :| 0 <= w < |rows| && IsPair(rows[w], u, s);
        assert IsPair(r[w], u, s);
      }
      r
    else
      var r := rows + [RatingRow(u, s, v)];
      assert IsPair(r[|rows|], u, s);
      assert forall i | 0 <= i < |rows| :: r[i] == rows[i];
      r
  }

  /** `COUNT(*) FROM ratings WHERE store_id=s`. */
  function StoreCount(rows: seq<RatingRow>, s: StoreId): (n: nat)
    ensures n <= |rows|
  {
    if rows == [] then 0 else (if rows[0].storeId == s then 1 else 0) + StoreCount(rows[1..], s)
  }

  /** The sum of `rating` over the rows of store `s`. */
  function StoreSum(rows: seq<RatingRow>, s: StoreId): (t: int)
    // a store without rows sums to 0, whatever the other stores hold
    ensures StoreCount(rows, s) == 0 ==> t == 0
  {
    if rows == [] then 0
    else
      assert forall i | 0 <= i < |rows[1..]| :: rows[1..][i] == rows[i + 1];
      (if rows[0].storeId == s then rows[0].value else 0) + StoreSum(rows[1..], s)
  }

  /** `num / den` rounded to the nearest integer, halves away from zero: the
      rounding of a cast to `NUMERIC`. */
  function RoundHalfAwayFromZero(num: int, den: int): (r: int)
    requires den > 0
    ensures num >= 0 ==> 2 * den * r <= 2 * num + den < 2 * den * r + 2 * den
    ensures num < 0 ==> 2 * den * r - 2 * den < 2 * num - den <= 2 * den * r
  {
    if num >= 0 then (2 * num + den) / (2 * den) else -((den - 2 * num) / (2 * den))
  }

  /** `AVG(rating)::NUMERIC(3,2)` over store `s`, in hundredths; 0 for a store
      without ratings. */
  function MeanHundredths(rows: seq<RatingRow>, s: StoreId): (m: int)
    ensures StoreCount(rows, s) == 0 ==> m == 0
    // m / 100 is the mean rounded to the nearest hundredth, halves upwards
    ensures StoreCount(rows, s) > 0 && StoreSum(rows, s) >= 0 ==>
      2 * StoreCount(rows, s) * m <= 200 * StoreSum(rows, s) + StoreCount(rows, s)
                                  < 2 * StoreCount(rows, s) * m + 2 * StoreCount(rows, s)
  {
    var n := StoreCount(rows, s);
    if n == 0 then 0 else RoundHalfAwayFromZero(100 * StoreSum(rows, s), n)
  }

  // ---------------------------------------------------------------------
  // How the two writes change the aggregates
  // ---------------------------------------------------------------------

  /** An INSERT adds its row to its own store's count and sum only. */
  lemma {:induction false} AppendAggregates(rows: seq<RatingRow>, row: RatingRow, t: StoreId)
    ensures StoreCount(rows + [row], t) == StoreCount(rows, t) + (if row.storeId == t then 1 else 0)
    ensures StoreSum(rows + [row], t) == StoreSum(rows, t) + (if row.storeId == t then row.value else 0)
  {
    if rows != [] {
      assert (rows + [row])[1..] == rows[1..] + [row];
      AppendAggregates(rows[1..], row, t);
    }
  }

  /** An UPDATE of rating values never changes a count. */
  lemma {:induction false} SetRatingKeepsCount(rows: seq<RatingRow>, u: UserId, s: StoreId, v: int, t: StoreId)
    ensures StoreCount(SetRating(rows, u, s, v), t) == StoreCount(rows, t)
  {
    if rows != [] {
      assert SetRating(rows, u, s, v)[1..] == SetRating(rows[1..], u, s, v);
      SetRatingKeepsCount(rows[1..], u, s, v, t);
    }
  }

  /** An UPDATE confined to store `s` leaves every other store's sum alone. */
  lemma {:induction false} SetRatingKeepsOtherSums(rows: seq<RatingRow>, u: UserId, s: StoreId, v: int, t: StoreId)
    requires t != s
    ensures StoreSum(SetRating(rows, u, s, v), t) == StoreSum(rows, t)
  {
    if rows != [] {
      assert SetRating(rows, u, s, v)[1..] == SetRating(rows[1..], u, s, v);
      SetRatingKeepsOtherSums(rows[1..], u, s, v, t);
    }
  }

  /** With unique pairs, an UPDATE of an existing row replaces its old value in
      the store's sum by the new one. */
  lemma {:induction false} SetRatingSum(rows: seq<RatingRow>, u: UserId, s: StoreId, v: int)
    requires PairsUnique(rows) && HasRating(rows, u, s)
    ensures StoreSum(SetRating(rows, u, s, v), s) == StoreSum(rows, s) - RatingOf(rows, u, s).value + v
  {
    var tail := rows[1..];
    assert SetRating(rows, u, s, v)[1..] == SetRating(tail, u, s, v);
    assert forall i | 0 <= i < |tail| :: tail[i] == rows[i + 1];
    if IsPair(rows[0], u, s) {
      assert !HasRating(tail, u, s);
      assert SetRating(tail, u, s, v) == tail;
    } else {
      SetRatingSum(tail, u, s, v);
    }
  }

  /** The value of every other pair is untouched by an UPDATE of (u, s). */
  lemma {:induction false} SetRatingKeepsOtherPairs(rows: seq<RatingRow>, u: UserId, s: StoreId, v: int, u': UserId, s': StoreId)
    requires u' != u || s' != s
    ensures RatingOf(SetRating(rows, u, s, v), u', s') == RatingOf(rows, u', s')
  {
    if rows != [] {
      assert SetRating(rows, u, s, v)[1..] == SetRating(rows[1..], u, s, v);
      SetRatingKeepsOtherPairs(rows[1..], u, s, v, u', s');
    }
  }

  /** An INSERT of (u, s) leaves the value of every other pair as it was. */
  lemma {:induction false} AppendKeepsOtherPairs(rows: seq<RatingRow>, row: RatingRow, u': UserId, s': StoreId)
    requires !IsPair(row, u', s')
    ensures RatingOf(rows + [row], u', s') == RatingOf(rows, u', s')
  {
    if rows != [] {
      assert (rows + [row])[1..] == rows[1..] + [row];
      AppendKeepsOtherPairs(rows[1..], row, u', s');
    }
  }

  // ---------------------------------------------------------------------
  // What a submission guarantees
  // ---------------------------------------------------------------------

  /** The upsert adds no second row for any pair. */
  lemma UpsertKeepsPairsUnique(rows: seq<RatingRow>, u: UserId, s: StoreId, v: int)
    requires PairsUnique(rows)
    ensures PairsUnique(Upsert(rows, u, s, v))
  {
    var r := Upsert(rows, u, s, v);
    if HasRating(rows, u, s) {
      assert forall i | 0 <= i < |r| :: r[i].userId == rows[i].userId && r[i].storeId == rows[i].storeId;
    } else {
      assert forall i | 0 <= i < |rows| :: r[i] == rows[i];
    }
  }

  /** After the upsert exactly one row holds the pair (u, s), with value v, and
      pairs stay unique. */
  lemma UpsertSingleRow(rows: seq<RatingRow>, u: UserId, s: StoreId, v: int)
    requires PairsUnique(rows)
    ensures PairsUnique(Upsert(rows, u, s, v))
    ensures RatingOf(Upsert(rows, u, s, v), u, s) == Some(v)
    ensures forall i, j | 0 <= i < j < |Upsert(rows, u, s, v)| ::
      !(IsPair(Upsert(rows, u, s, v)[i], u, s) && IsPair(Upsert(rows, u, s, v)[j], u, s))
  {
    var r := Upsert(rows, u, s, v);
    UpsertKeepsPairsUnique(rows, u, s, v);
    var w :| 0 <= w < |r| && IsPair(r[w], u, s) && r[w].value == RatingOf(r, u, s).value;
  }

  /** The rows and aggregates of everything other than (u, s) and store s are
      unchanged by the upsert. */
  lemma UpsertFrame(rows: seq<RatingRow>, u: UserId, s: StoreId, v: int)
    ensures forall u', s' | u' != u || s' != s :: RatingOf(Upsert(rows, u, s, v), u', s') == RatingOf(rows, u', s')
    ensures forall t | t != s ::
      StoreCount(Upsert(rows, u, s, v), t) == StoreCount(rows, t)
      && StoreSum(Upsert(rows, u, s, v), t) == StoreSum(rows, t)
      && MeanHundredths(Upsert(rows, u, s, v), t) == MeanHundredths(rows, t)
  {
    forall u', s' | u' != u || s' != s
      ensures RatingOf(Upsert(rows, u, s, v), u', s') == RatingOf(rows, u', s')
    {
      if HasRating(rows, u, s) {
        SetRatingKeepsOtherPairs(rows, u, s, v, u', s');
      } else {
        AppendKeepsOtherPairs(rows, RatingRow(u, s, v), u', s');
      }
    }
    forall t | t != s
      ensures StoreCount(Upsert(rows, u, s, v), t) == StoreCount(rows, t)
      ensures StoreSum(Upsert(rows, u, s, v), t) == StoreSum(rows, t)
    {
      if HasRating(rows, u, s) {
        SetRatingKeepsCount(rows, u, s, v, t);
        SetRatingKeepsOtherSums(rows, u, s, v, t);
      } else {
        AppendAggregates(rows, RatingRow(u, s, v), t);
      }
    }
  }

  /** A first rating adds one to the store's count and v to its sum; a
      re-rating keeps the count and swaps the old value for v. */
  lemma UpsertAggregates(rows: seq<RatingRow>, u: UserId, s: StoreId, v: int)
    requires PairsUnique(rows)
    ensures StoreCount(Upsert(rows, u, s, v), s)
            == StoreCount(rows, s) + (if HasRating(rows, u, s) then 0 else 1)
    ensures StoreSum(Upsert(rows, u, s, v), s)
            == StoreSum(rows, s) + v - (if HasRating(rows, u, s) then RatingOf(rows, u, s).value else 0)
  {
    if HasRating(rows, u, s) {
      SetRatingKeepsCount(rows, u, s, v, s);
      SetRatingSum(rows, u, s, v);
    } else {
      AppendAggregates(rows, RatingRow(u, s, v), s);
    }
  }

  /** Re-submitting the value already on record changes no row at all, so the
      count and the average stay as they were. */
  lemma ResubmitIsIdempotent(rows: seq<RatingRow>, u: UserId, s: StoreId, v: int)
    requires PairsUnique(rows) && RatingOf(rows, u, s) == Some(v)
    ensures Upsert(rows, u, s, v) == rows
  {
    var w :| 0 <= w < |rows| && IsPair(rows[w], u, s) && rows[w].value == v;
    forall i | 0 <= i < |rows| && IsPair(rows[i], u, s)
      ensures rows[i].value == v
    {
      assert i == w;
    }
  }

  // ---------------------------------------------------------------------
  // What the cached aggregate means
  // ---------------------------------------------------------------------

  /** The users who have a row for store s. */
  ghost function Raters(rows: seq<RatingRow>, s: StoreId): set<UserId>
  {
    set i | 0 <= i < |rows| && rows[i].storeId == s :: rows[i].userId
  }

  /** The existence check asks whether u is among the store's raters. */
  lemma HasRatingIsRater(rows: seq<RatingRow>, u: UserId, s: StoreId)
    ensures HasRating(rows, u, s) <==> u in Raters(rows, s)
  {
    if u in Raters(rows, s) {
      var i :| 0 <= i < |rows| && rows[i].storeId == s && rows[i].userId == u;
      assert IsPair(rows[i], u, s);
    }
  }

  /** With unique pairs the count is the number of distinct users who rated s. */
  lemma {:induction false} CountIsDistinctRaters(rows: seq<RatingRow>, s: StoreId)
    requires PairsUnique(rows)
    ensures StoreCount(rows, s) == |Raters(rows, s)|
  {
    if rows != [] {
      var tail := rows[1..];
      assert forall i | 0 <= i < |tail| :: tail[i] == rows[i + 1];
      CountIsDistinctRaters(tail, s);
      if rows[0].storeId == s {
        assert Raters(rows, s) == {rows[0].userId} + Raters(tail, s) by {
          forall x | x in Raters(rows, s) ensures x in {rows[0].userId} + Raters(tail, s) {
            var i :| 0 <= i < |rows| && rows[i].storeId == s && rows[i].userId == x;
            if i > 0 { assert tail[i - 1] == rows[i]; }
          }
        }
        assert rows[0].userId !in Raters(tail, s) by {
          if rows[0].userId in Raters(tail, s) {
            var i :| 0 <= i < |tail| && tail[i].storeId == s && tail[i].userId == rows[0].userId;
            assert IsPair(rows[i + 1], rows[0].userId, rows[0].storeId);
            assert false;
          }
        }
      } else {
        assert Raters(rows, s) == Raters(tail, s) by {
          forall x | x in Raters(rows, s) ensures x in Raters(tail, s) {
            var i :| 0 <= i < |rows| && rows[i].storeId == s && rows[i].userId == x;
            assert tail[i - 1] == rows[i];
          }
        }
      }
    }
  }

  ghost predicate ValuesInRange(rows: seq<RatingRow>)
  {
    forall i | 0 <= i < |rows| :: 1 <= rows[i].value <= 5
  }

  /** With every rating in 1..5 a store's sum lies between its count and five
      times its count. */
  lemma {:induction false} SumBounds(rows: seq<RatingRow>, s: StoreId)
    requires ValuesInRange(rows)
    ensures StoreCount(rows, s) <= StoreSum(rows, s) <= 5 * StoreCount(rows, s)
  {
    if rows != [] {
      assert forall i | 0 <= i < |rows[1..]| :: rows[1..][i] == rows[i + 1];
      SumBounds(rows[1..], s);
    }
  }

  /** Multiplying by a positive factor preserves strict order, read backwards. */
  lemma CancelFactor(n: int, a: int, b: int)
    requires n > 0 && n * a < n * b
    ensures a < b
  {
  }

  /** The rounded quotient of 100 * sum by n for an average of 1..5. */
  lemma RoundedMeanBetween(sum: int, n: int)
    requires 0 < n <= sum <= 5 * n
    ensures 100 <= RoundHalfAwayFromZero(100 * sum, n) <= 500
  {
    var r := RoundHalfAwayFromZero(100 * sum, n);
    assert (2 * n) * r < (2 * n) * 501;
    CancelFactor(2 * n, r, 501);
    assert (2 * n) * 100 < (2 * n) * (r + 1);
    CancelFactor(2 * n, 100, r + 1);
  }

  /** A quotient that is a whole number of hundredths is not rounded. */
  lemma RoundedMeanExact(v: int, n: int)
    requires 0 < n && 1 <= v
    ensures RoundHalfAwayFromZero(100 * (v * n), n) == 100 * v
  {
    var r := RoundHalfAwayFromZero(100 * (v * n), n);
    assert 2 * (100 * (v * n)) == (2 * n) * (100 * v);
    assert (2 * n) * r < (2 * n) * (100 * v + 1);
    CancelFactor(2 * n, r, 100 * v + 1);
    assert (2 * n) * (100 * v) < (2 * n) * (r + 1);
    CancelFactor(2 * n, 100 * v, r + 1);
  }

  /** With every rating in 1..5, a rated store's average lies in 1.00..5.00,
      so the cast to NUMERIC(3,2) never overflows. */
  lemma MeanInRange(rows: seq<RatingRow>, s: StoreId)
    requires ValuesInRange(rows) && StoreCount(rows, s) > 0
    ensures 100 <= MeanHundredths(rows, s) <= 500
  {
    SumBounds(rows, s);
    RoundedMeanBetween(StoreSum(rows, s), StoreCount(rows, s));
  }

  lemma {:induction false} UniformSum(rows: seq<RatingRow>, s: StoreId, v: int)
    requires forall i | 0 <= i < |rows| && rows[i].storeId == s :: rows[i].value == v
    ensures StoreSum(rows, s) == v * StoreCount(rows, s)
  {
    if rows != [] {
      assert forall i | 0 <= i < |rows[1..]| :: rows[1..][i] == rows[i + 1];
      UniformSum(rows[1..], s, v);
    }
  }

  /** When every rating of a store is v, its average is exactly v.00, however
      many users rated it. */
  lemma UniformMean(rows: seq<RatingRow>, s: StoreId, v: int)
    requires forall i | 0 <= i < |rows| && rows[i].storeId == s :: rows[i].value == v
    requires 1 <= v <= 5 && StoreCount(rows, s) > 0
    ensures MeanHundredths(rows, s) == 100 * v
  {
    UniformSum(rows, s, v);
    RoundedMeanExact(v, StoreCount(rows, s));
  }
}

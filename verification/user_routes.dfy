/**
 * The routes of an authenticated USER: the store listing's ORDER BY
 * normalisation and the rating submission, which upserts the caller's rating
 * row and rewrites the store's cached average and count.
 */
module UserRoutes {
  import opened JsValues
  import opened Http
  import opened Ratings
  import opened Tables

  const StoreSortColumns: seq<string> := ["name", "avg_rating"]

  /** ORDER BY of `GET /stores`. */
  function StoreListOrder(sortBy: Option<string>, order: Option<string>): (o: OrderBy)
    ensures o.column == "name" || o.column == "avg_rating"
    ensures o.column == (if sortBy == Some("avg_rating") then "avg_rating" else "name")
    ensures o.direction == (if order.Some? && LowersToDesc(order.value) then "DESC" else "ASC")
  {
    OrderBy(SortColumn(sortBy, StoreSortColumns), SortDirection(order))
  }

  /** The guard `!value || value < 1 || value > 5` on `value = Number(rating)`;
      `None` stands for a missing or non-numeric rating, which converts to NaN. */
  function RatingRejected(value: Option<int>): (r: bool)
    ensures r <==> value.None? || !(1 <= value.value <= 5)
  {
    value.None? || value.value == 0 || value.value < 1 || value.value > 5
  }

  const RatingRangeMessage := "Rating must be between 1 and 5"
  const StoreMissingMessage := "Store not found"
  const RatingSavedMessage := "Rating saved successfully"

  /** `POST /stores/:storeId/ratings` on behalf of user `caller`. */
  method SubmitRating(db: Database, caller: UserId, storeId: StoreId, rating: Option<int>)
    returns (reply: Reply<()>)
    requires db.Valid()
    modifies db
    ensures db.Valid()
    ensures RatingRejected(rating) ==>
      reply == Reply(StatusBadRequest, Message(RatingRangeMessage)) && unchanged(db)
    ensures !RatingRejected(rating) && storeId !in old(db.stores) ==>
      reply == Reply(StatusNotFound, Message(StoreMissingMessage)) && unchanged(db)
    ensures !RatingRejected(rating) && storeId in old(db.stores) ==>
      reply == Reply(StatusOk, Message(RatingSavedMessage))
    // the caller's single row now holds the new value
    ensures reply.status == StatusOk ==>
      && db.ratings == Upsert(old(db.ratings), caller, storeId, rating.value)
      && RatingOf(db.ratings, caller, storeId) == Some(rating.value)
      && (forall i, j | 0 <= i < j < |db.ratings| ::
            !(IsPair(db.ratings[i], caller, storeId) && IsPair(db.ratings[j], caller, storeId)))
    // only this store's aggregate is rewritten, from all of its rows
    ensures reply.status == StatusOk ==>
      db.stores == old(db.stores)[storeId := old(db.stores)[storeId].(
        avgHundredths := MeanHundredths(db.ratings, storeId),
        ratingCount := StoreCount(db.ratings, storeId))]
    // a first rating adds one to the count; a re-rating does not
    ensures reply.status == StatusOk ==>
      db.stores[storeId].ratingCount
      == old(db.stores)[storeId].ratingCount + (if HasRating(old(db.ratings), caller, storeId) then 0 else 1)
    // re-submitting the same value changes nothing
    ensures reply.status == StatusOk && RatingOf(old(db.ratings), caller, storeId) == rating ==>
      db.ratings == old(db.ratings) && db.stores == old(db.stores)
    // every other (user, store) pair keeps its rating
    ensures forall u, s | u != caller || s != storeId ::
      RatingOf(db.ratings, u, s) == RatingOf(old(db.ratings), u, s)
    ensures db.users == old(db.users)
    ensures db.nextUserId == old(db.nextUserId) && db.nextStoreId == old(db.nextStoreId)
  {
    if RatingRejected(rating) {
      return Reply(StatusBadRequest, Message(RatingRangeMessage));
    }
    var value := rating.value;
    if storeId !in db.stores {
      return Reply(StatusNotFound, Message(StoreMissingMessage));
    }
    ghost var rows := db.ratings;
    UpsertSingleRow(rows, caller, storeId, value);
    UpsertFrame(rows, caller, storeId, value);
    UpsertAggregates(rows, caller, storeId, value);
    db.SaveRating(caller, storeId, value);
    if RatingOf(rows, caller, storeId) == rating {
      ResubmitIsIdempotent(rows, caller, storeId, value);
      assert db.stores == old(db.stores);
    }
    reply := Reply(StatusOk, Message(RatingSavedMessage));
  }
}

/**
 * The three tables the routes query, as one mutable object: `users` and
 * `stores` keyed by their serial ids, `ratings` as its rows. Each route
 * handler works on this object the way the source works on the database.
 */
module Tables {
  import opened JsValues
  import opened Ratings

  datatype Role = Admin | User | Owner

  /** The role as stored in `users.role`. */
  function RoleName(r: Role): string
  {
    match r
    case Admin => "ADMIN"
    case User => "USER"
    case Owner => "OWNER"
  }

  datatype UserRow = UserRow(name: string, email: string, address: string, passwordHash: string, role: Role)

  /** A row of `stores`; `avg_rating` is kept in hundredths. */
  datatype StoreRow = StoreRow(
    name: string, email: Option<string>, address: string, ownerId: Option<UserId>,
    avgHundredths: int, ratingCount: int)

  /** `SELECT id FROM users WHERE email=e` finds a row. */
  predicate EmailTaken(users: map<UserId, UserRow>, e: string)
  {
    exists id | id in users :: users[id].email == e
  }

  ghost predicate EmailsUnique(users: map<UserId, UserRow>)
  {
    forall i, j | i in users && j in users && users[i].email == users[j].email :: i == j
  }

  /** `owner_id` of every store names an existing user whose role is OWNER. */
  ghost predicate OwnersValid(stores: map<StoreId, StoreRow>, users: map<UserId, UserRow>)
  {
    forall id | id in stores && stores[id].ownerId.Some? ::
      stores[id].ownerId.value in users && users[stores[id].ownerId.value].role == Owner
  }

  /** Every rating row is of an existing store, holds a value in 1..5, and no
      (user, store) pair has two rows. */
  ghost predicate RatingsValid(ratings: seq<RatingRow>, stores: map<StoreId, StoreRow>)
  {
    && (forall i | 0 <= i < |ratings| :: ratings[i].storeId in stores)
    && ValuesInRange(ratings)
    && PairsUnique(ratings)
  }

  /** Each store's cached `rating_count` and `avg_rating` equal the count and
      the rounded mean of its rating rows. */
  ghost predicate AggregatesCurrent(stores: map<StoreId, StoreRow>, ratings: seq<RatingRow>)
  {
    forall id | id in stores ::
      stores[id].ratingCount == StoreCount(ratings, id)
      && stores[id].avgHundredths == MeanHundredths(ratings, id)
  }

  class Database {
    var users: map<UserId, UserRow>
    var stores: map<StoreId, StoreRow>
    var ratings: seq<RatingRow>
    /** The next values of the two serial id sequences. */
    var nextUserId: UserId
    var nextStoreId: StoreId

    ghost predicate Valid()
      reads this
    {
      && 0 < nextUserId && 0 < nextStoreId
      && (forall id | id in users :: 0 < id < nextUserId)
      && (forall id | id in stores :: 0 < id < nextStoreId)
      && EmailsUnique(users)
      && OwnersValid(stores, users)
      && RatingsValid(ratings, stores)
      && AggregatesCurrent(stores, ratings)
    }

    constructor ()
      ensures Valid()
      ensures users == map[] && stores == map[] && ratings == []
    {
      users, stores, ratings := map[], map[], [];
      nextUserId, nextStoreId := 1, 1;
    }

    /** `INSERT INTO users ... RETURNING id`: the row gets the next serial id. */
    method InsertUser(row: UserRow) returns (id: UserId)
      requires Valid() && !EmailTaken(users, row.email)
      modifies this
      ensures Valid()
      ensures id !in old(users) && users == old(users)[id := row]
      ensures stores == old(stores) && ratings == old(ratings)
    {
      id := nextUserId;
      FreshEmailKeepsUnique(users, id, row);
      users := users[id := row];
      nextUserId := nextUserId + 1;
    }

    /** `INSERT INTO stores ... RETURNING ...`: a new store starts with no
        ratings, an average of 0 and a count of 0. */
    method InsertStore(name: string, email: Option<string>, address: string, ownerId: Option<UserId>)
      returns (id: StoreId)
      requires Valid()
      requires ownerId.Some? ==> ownerId.value in users && users[ownerId.value].role == Owner
      modifies this
      ensures Valid()
      ensures id !in old(stores)
      ensures stores == old(stores)[id := StoreRow(name, email, address, ownerId, 0, 0)]
      ensures users == old(users) && ratings == old(ratings)
    {
      id := nextStoreId;
      NoRowsForUnknownStore(ratings, stores, id);
      stores := stores[id := StoreRow(name, email, address, ownerId, 0, 0)];
      nextStoreId := nextStoreId + 1;
    }

    /** `UPDATE users SET password=... WHERE id=...`: a missing id matches no
        row and changes nothing. */
    method SetPasswordHash(id: UserId, hash: string)
      requires Valid()
      modifies this
      ensures Valid()
      ensures users == if id in old(users) then old(users)[id := old(users)[id].(passwordHash := hash)] else old(users)
      ensures stores == old(stores) && ratings == old(ratings)
      ensures nextUserId == old(nextUserId) && nextStoreId == old(nextStoreId)
    {
      if id in users {
        RehashKeepsInvariants(users, stores, id, hash);
        users := users[id := users[id].(passwordHash := hash)];
        assert users.Keys == old(users).Keys;
      }
    }

    /** The rating upsert and the aggregate refresh: the row of (u, s) is
        updated if there is one and inserted otherwise, then store s's
        `avg_rating` and `rating_count` are recomputed from its rows. */
    method SaveRating(u: UserId, s: StoreId, v: int)
      requires Valid() && s in stores && 1 <= v <= 5
      modifies this
      ensures Valid()
      ensures ratings == Upsert(old(ratings), u, s, v)
      ensures stores == RatedStores(old(stores), ratings, s)
      ensures users == old(users)
      ensures nextUserId == old(nextUserId) && nextStoreId == old(nextStoreId)
    {
      SubmissionKeepsInvariants(users, stores, ratings, u, s, v);
      var existing := HasRating(ratings, u, s);
      if existing {
        ratings := SetRating(ratings, u, s, v);
      } else {
        ratings := ratings + [RatingRow(u, s, v)];
      }
      var count := StoreCount(ratings, s);
      var avg := MeanHundredths(ratings, s);
      stores := stores[s := stores[s].(avgHundredths := avg, ratingCount := count)];
    }
  }

  /** Rejecting a taken e-mail is what keeps e-mails unique: a row whose
      e-mail no user has can be added under a new id without a clash. */
  lemma FreshEmailKeepsUnique(users: map<UserId, UserRow>, id: UserId, row: UserRow)
    requires EmailsUnique(users) && id !in users && !EmailTaken(users, row.email)
    ensures EmailsUnique(users[id := row])
    ensures EmailTaken(users[id := row], row.email)
  {
    assert users[id := row][id] == row;
  }

  /** Replacing a user's password hash keeps e-mails unique and owners valid. */
  lemma RehashKeepsInvariants(users: map<UserId, UserRow>, stores: map<StoreId, StoreRow>, id: UserId, hash: string)
    requires id in users && EmailsUnique(users) && OwnersValid(stores, users)
    ensures EmailsUnique(users[id := users[id].(passwordHash := hash)])
    ensures OwnersValid(stores, users[id := users[id].(passwordHash := hash)])
  {
  }

  /** A store id not in the table has no rating rows, hence no aggregate. */
  lemma {:induction false} NoRowsForUnknownStore(ratings: seq<RatingRow>, stores: map<StoreId, StoreRow>, id: StoreId)
    requires forall i | 0 <= i < |ratings| :: ratings[i].storeId in stores
    requires id !in stores
    ensures StoreCount(ratings, id) == 0 && MeanHundredths(ratings, id) == 0
  {
    if ratings != [] {
      assert forall i | 0 <= i < |ratings[1..]| :: ratings[1..][i] == ratings[i + 1];
      NoRowsForUnknownStore(ratings[1..], stores, id);
    }
  }

  /** The tables after a submission of v for (u, s): the upserted rows, and
      store s with its aggregate recomputed from all of its rows. */
  ghost function RatedStores(stores: map<StoreId, StoreRow>, rows: seq<RatingRow>, s: StoreId): map<StoreId, StoreRow>
    requires s in stores
  {
    stores[s := stores[s].(avgHundredths := MeanHundredths(rows, s), ratingCount := StoreCount(rows, s))]
  }

  /** The upsert of a value in 1..5 for an existing store keeps every row of
      an existing store, every value in 1..5 and one row per pair. */
  lemma UpsertKeepsRowsValid(rows: seq<RatingRow>, stores: map<StoreId, StoreRow>, u: UserId, s: StoreId, v: int)
    requires s in stores && 1 <= v <= 5 && RatingsValid(rows, stores)
    ensures RatingsValid(Upsert(rows, u, s, v), stores)
  {
    var rows' := Upsert(rows, u, s, v);
    UpsertKeepsPairsUnique(rows, u, s, v);
    if HasRating(rows, u, s) {
      assert forall i | 0 <= i < |rows'| :: rows'[i].storeId == rows[i].storeId;
    } else {
      assert forall i | 0 <= i < |rows| :: rows'[i] == rows[i];
    }
  }

  /** Refreshing store s from the upserted rows leaves every cached aggregate
      current: s's by construction, the others because their rows are untouched. */
  lemma RefreshKeepsAggregates(stores: map<StoreId, StoreRow>, rows: seq<RatingRow>, u: UserId, s: StoreId, v: int)
    requires s in stores && AggregatesCurrent(stores, rows)
    ensures AggregatesCurrent(RatedStores(stores, Upsert(rows, u, s, v), s), Upsert(rows, u, s, v))
  {
    UpsertFrame(rows, u, s, v);
  }

  /** A submission keeps every table invariant: rows of existing stores with
      values in 1..5, one row per pair, and every cached aggregate current. */
  lemma SubmissionKeepsInvariants(
    users: map<UserId, UserRow>, stores: map<StoreId, StoreRow>, rows: seq<RatingRow>,
    u: UserId, s: StoreId, v: int)
    requires s in stores && 1 <= v <= 5
    requires OwnersValid(stores, users) && RatingsValid(rows, stores) && AggregatesCurrent(stores, rows)
    ensures OwnersValid(RatedStores(stores, Upsert(rows, u, s, v), s), users)
    ensures RatingsValid(Upsert(rows, u, s, v), RatedStores(stores, Upsert(rows, u, s, v), s))
    ensures AggregatesCurrent(RatedStores(stores, Upsert(rows, u, s, v), s), Upsert(rows, u, s, v))
  {
    var rows' := Upsert(rows, u, s, v);
    var stores' := RatedStores(stores, rows', s);
    UpsertKeepsRowsValid(rows, stores, u, s, v);
    RefreshKeepsAggregates(stores, rows, u, s, v);
    assert forall id :: id in stores' <==> id in stores;
  }
}

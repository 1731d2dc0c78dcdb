/**
 * The ADMIN routes: creating users and stores, the user detail with the
 * owner's store attached, and the query the two listings build.
 */
module AdminRoutes {
  import opened JsValues
  import opened Validation
  import opened Http
  import opened Ratings
  import opened Tables

  // ---------------------------------------------------------------------
  // POST /users
  // ---------------------------------------------------------------------

  /** The body of a user-creation (and of a signup) request. */
  datatype NewUser = NewUser(name: Field, email: Field, address: Field, password: Field, role: Field)

  /** The columns `RETURNING id, name, email, address, role` sends back. */
  datatype UserView = UserView(id: UserId, name: string, email: string, address: string, role: Role)

  function FieldsOf(req: NewUser): UserFields
  {
    UserFields(req.name, req.email, req.address, req.password)
  }

  /** `['ADMIN', 'USER', 'OWNER'].includes(role)`, read as the role it names. */
  function ParseRole(role: Field): (r: Option<Role>)
    ensures r.Some? <==> role.Text? && role.s in ["ADMIN", "USER", "OWNER"]
    ensures r.Some? ==> RoleName(r.value) == role.s
  {
    if role == Text("ADMIN") then Some(Admin)
    else if role == Text("USER") then Some(User)
    else if role == Text("OWNER") then Some(Owner)
    else None
  }

  const InvalidRoleMessage := "Invalid role"
  const EmailExistsMessage := "Email already exists"

  /** `POST /users`. `hash` is what the password hashing library returns for the
      password; the library throws on a missing password, which the catch block
      turns into a 500. */
  method CreateUser(db: Database, req: NewUser, hash: string) returns (reply: Reply<UserView>)
    requires db.Valid()
    modifies db
    ensures db.Valid()
    // the role is checked before anything else
    ensures ParseRole(req.role).None? ==> reply == Reply(StatusBadRequest, Message(InvalidRoleMessage))
    ensures ParseRole(req.role).Some? && FieldErrors(FieldsOf(req)) != [] ==>
      reply == Reply(StatusBadRequest, Errors(FieldErrors(FieldsOf(req))))
    ensures ParseRole(req.role).Some? && FieldErrors(FieldsOf(req)) == [] && EmailTaken(old(db.users), req.email.s) ==>
      reply == Reply(StatusBadRequest, Message(EmailExistsMessage))
    ensures ParseRole(req.role).Some? && FieldErrors(FieldsOf(req)) == [] && !EmailTaken(old(db.users), req.email.s)
            && req.password == Undefined ==>
      reply == ServerError()
    ensures reply.status != StatusCreated ==> unchanged(db)
    ensures reply.status == StatusCreated <==>
      ParseRole(req.role).Some? && FieldErrors(FieldsOf(req)) == [] && !EmailTaken(old(db.users), req.email.s)
      && req.password.Text?
    ensures reply.status == StatusCreated ==>
      && reply.body.Json?
      && reply.body.value.id !in old(db.users)
      && db.users == old(db.users)[reply.body.value.id :=
           UserRow(req.name.s, req.email.s, req.address.s, hash, ParseRole(req.role).value)]
      && reply.body.value == UserView(reply.body.value.id, req.name.s, req.email.s, req.address.s, ParseRole(req.role).value)
      && db.stores == old(db.stores) && db.ratings == old(db.ratings)
  {
    var role := ParseRole(req.role);
    if role.None? {
      return Reply(StatusBadRequest, Message(InvalidRoleMessage));
    }
    var errors := ValidateUserFields(FieldsOf(req));
    if errors != [] {
      return Reply(StatusBadRequest, Errors(errors));
    }
    if EmailTaken(db.users, req.email.s) {
      return Reply(StatusBadRequest, Message(EmailExistsMessage));
    }
    if !req.password.Text? {
      return ServerError();
    }
    var id := db.InsertUser(UserRow(req.name.s, req.email.s, req.address.s, hash, role.value));
    reply := Reply(StatusCreated, Json(UserView(id, req.name.s, req.email.s, req.address.s, role.value)));
  }

  // ---------------------------------------------------------------------
  // GET /users/:id
  // ---------------------------------------------------------------------

  /** The store columns the detail route selects (`owner_id` is not among them). */
  datatype StoreSummary = StoreSummary(
    id: StoreId, name: string, email: Option<string>, address: string, avgHundredths: int, ratingCount: int)

  /** The `store` property: absent for a non-owner, `null` for an owner
      without a store. */
  datatype StoreAttachment = NotAttached | NoStore | Attached(store: StoreSummary)

  datatype UserDetail = UserDetail(user: UserView, store: StoreAttachment)

  function ViewOf(id: UserId, u: UserRow): UserView
  {
    UserView(id, u.name, u.email, u.address, u.role)
  }

  function SummaryOf(id: StoreId, s: StoreRow): StoreSummary
  {
    StoreSummary(id, s.name, s.email, s.address, s.avgHundredths, s.ratingCount)
  }

  predicate OwnsStore(stores: map<StoreId, StoreRow>, id: UserId)
  {
    exists sid | sid in stores :: stores[sid].ownerId == Some(id)
  }

  const UserMissingMessage := "User not found"

  /** `GET /users/:id`. The store query has no ORDER BY, so when an owner has
      several stores any one of them may come first. */
  method GetUser(db: Database, id: UserId) returns (reply: Reply<UserDetail>)
    ensures id !in db.users ==> reply == Reply(StatusNotFound, Message(UserMissingMessage))
    ensures id in db.users ==>
      && reply.status == StatusOk && reply.body.Json?
      && reply.body.value.user == ViewOf(id, db.users[id])
      && (reply.body.value.store.NotAttached? <==> db.users[id].role != Owner)
      && (db.users[id].role == Owner ==> (reply.body.value.store.NoStore? <==> !OwnsStore(db.stores, id)))
    ensures reply.body.Json? && reply.body.value.store.Attached? ==>
      exists sid | sid in db.stores && db.stores[sid].ownerId == Some(id) ::
        reply.body.value.store.store == SummaryOf(sid, db.stores[sid])
  {
    if id !in db.users {
      return Reply(StatusNotFound, Message(UserMissingMessage));
    }
    var user := db.users[id];
    var store := NotAttached;
    if user.role == Owner {
      if OwnsStore(db.stores, id) {
        var sid :| sid in db.stores && db.stores[sid].ownerId == Some(id);
        store := Attached(SummaryOf(sid, db.stores[sid]));
      } else {
        store := NoStore;
      }
    }
    reply := Reply(StatusOk, Json(UserDetail(ViewOf(id, user), store)));
  }

  // ---------------------------------------------------------------------
  // POST /stores
  // ---------------------------------------------------------------------

  /** The body of a store-creation request. `ownerId` is `None` when it is
      missing, null or empty; 0 is present but falsy. */
  datatype NewStore = NewStore(name: Field, email: Field, address: Field, ownerId: Option<int>)

  /** The columns `RETURNING id, name, email, address, owner_id, avg_rating, rating_count` sends back. */
  datatype StoreView = StoreView(
    id: StoreId, name: string, email: Option<string>, address: string, ownerId: Option<UserId>,
    avgHundredths: int, ratingCount: int)

  predicate OwnerGiven(ownerId: Option<int>)
  {
    ownerId.Some? && ownerId.value != 0
  }

  predicate IsOwner(users: map<UserId, UserRow>, id: int)
  {
    id in users && users[id].role == Owner
  }

  const StoreFieldsMissingMessage := "Name and address are required"
  const StoreNameLengthMessage := "Store name length invalid"
  const StoreAddressLengthMessage := "Address must be at most 400 characters"
  const OwnerInvalidMessage := "Owner not found or not OWNER role"

  /** The request checks of `POST /stores`, in order; `None` when all pass. */
  function StoreRequestError(req: NewStore, users: map<UserId, UserRow>): (e: Option<string>)
    ensures e == Some(StoreFieldsMissingMessage) <==> !Truthy(req.name) || !Truthy(req.address)
    ensures e == Some(StoreNameLengthMessage) <==>
      Truthy(req.name) && Truthy(req.address) && !(3 <= Utf16Length(req.name.s) <= 100)
    ensures e == Some(StoreAddressLengthMessage) <==>
      Truthy(req.name) && Truthy(req.address) && 3 <= Utf16Length(req.name.s) <= 100
      && Utf16Length(req.address.s) > 400
    ensures e == Some(OwnerInvalidMessage) <==>
      Truthy(req.name) && Truthy(req.address) && 3 <= Utf16Length(req.name.s) <= 100
      && Utf16Length(req.address.s) <= 400
      && OwnerGiven(req.ownerId) && !IsOwner(users, req.ownerId.value)
    ensures e.None? <==>
      Truthy(req.name) && Truthy(req.address) && 3 <= Utf16Length(req.name.s) <= 100
      && Utf16Length(req.address.s) <= 400
      && (OwnerGiven(req.ownerId) ==> IsOwner(users, req.ownerId.value))
  {
    if !Truthy(req.name) || !Truthy(req.address) then Some(StoreFieldsMissingMessage)
    else if Utf16Length(req.name.s) < 3 || Utf16Length(req.name.s) > 100 then Some(StoreNameLengthMessage)
    else if Utf16Length(req.address.s) > 400 then Some(StoreAddressLengthMessage)
    else if OwnerGiven(req.ownerId) && !IsOwner(users, req.ownerId.value) then Some(OwnerInvalidMessage)
    else None
  }

  /** `POST /stores`. */
  method CreateStore(db: Database, req: NewStore) returns (reply: Reply<StoreView>)
    requires db.Valid()
    modifies db
    ensures db.Valid()
    ensures StoreRequestError(req, old(db.users)).Some? ==>
      reply == Reply(StatusBadRequest, Message(StoreRequestError(req, old(db.users)).value)) && unchanged(db)
    ensures StoreRequestError(req, old(db.users)).None? ==>
      && reply.status == StatusCreated && reply.body.Json?
      && var id := reply.body.value.id;
         var owner := if OwnerGiven(req.ownerId) then req.ownerId else None;
         var email := if Truthy(req.email) then Some(req.email.s) else None;
         && id !in old(db.stores)
         && db.stores == old(db.stores)[id := StoreRow(req.name.s, email, req.address.s, owner, 0, 0)]
         && reply.body.value == StoreView(id, req.name.s, email, req.address.s, owner, 0, 0)
         && db.users == old(db.users) && db.ratings == old(db.ratings)
  {
    if !Truthy(req.name) || !Truthy(req.address) {
      return Reply(StatusBadRequest, Message(StoreFieldsMissingMessage));
    }
    if Utf16Length(req.name.s) < 3 || Utf16Length(req.name.s) > 100 {
      return Reply(StatusBadRequest, Message(StoreNameLengthMessage));
    }
    if Utf16Length(req.address.s) > 400 {
      return Reply(StatusBadRequest, Message(StoreAddressLengthMessage));
    }
    var owner: Option<UserId> := None;
    if OwnerGiven(req.ownerId) {
      if !IsOwner(db.users, req.ownerId.value) {
        return Reply(StatusBadRequest, Message(OwnerInvalidMessage));
      }
      owner := req.ownerId;
    }
    var email := if Truthy(req.email) then Some(req.email.s) else None;
    var id := db.InsertStore(req.name.s, email, req.address.s, owner);
    reply := Reply(StatusCreated, Json(StoreView(id, req.name.s, email, req.address.s, owner, 0, 0)));
  }

  // ---------------------------------------------------------------------
  // GET /users and GET /stores
  // ---------------------------------------------------------------------

  const UserSortColumns: seq<string> := ["name", "email", "address", "role"]
  const StoreSortColumns: seq<string> := ["name", "email", "address", "avg_rating"]

  /** ORDER BY of `GET /users`. */
  function UserListOrder(sortBy: Option<string>, order: Option<string>): (o: OrderBy)
    ensures o.column in UserSortColumns
    ensures o.column == (if sortBy.Some? && sortBy.value in UserSortColumns then sortBy.value else "name")
    ensures o.direction in ["ASC", "DESC"]
    ensures o.direction == "DESC" <==> order.Some? && LowersToDesc(order.value)
  {
    OrderBy(SortColumn(sortBy, UserSortColumns), SortDirection(order))
  }

  /** ORDER BY of `GET /stores`. */
  function StoreListOrder(sortBy: Option<string>, order: Option<string>): (o: OrderBy)
    ensures o.column in StoreSortColumns
    ensures o.column == (if sortBy.Some? && sortBy.value in StoreSortColumns then sortBy.value else "name")
    ensures o.direction in ["ASC", "DESC"]
    ensures o.direction == "DESC" <==> order.Some? && LowersToDesc(order.value)
  {
    OrderBy(SortColumn(sortBy, StoreSortColumns), SortDirection(order))
  }

  /** A WHERE condition `column op $placeholder`. */
  datatype Condition = Condition(column: string, op: string, placeholder: nat)

  /** The filters of `GET /users`: the three ILIKE conditions, plus an exact
      role match when a role is given, each with its bound parameter. */
  method UserListQuery(name: string, email: string, address: string, role: string,
                       sortBy: Option<string>, order: Option<string>)
    returns (conditions: seq<Condition>, params: seq<string>, orderBy: OrderBy)
    ensures |conditions| == |params|
    ensures forall k | 0 <= k < |conditions| :: conditions[k].placeholder == k + 1
    ensures 3 <= |params| <= 4
    ensures params[..3] == ["%" + name + "%", "%" + email + "%", "%" + address + "%"]
    ensures conditions[..3] == [Condition("name", "ILIKE", 1), Condition("email", "ILIKE", 2),
                                Condition("address", "ILIKE", 3)]
    ensures |params| == 4 <==> role != ""
    ensures role != "" ==> params[3] == role && conditions[3] == Condition("role", "=", 4)
    ensures orderBy == UserListOrder(sortBy, order)
  {
    params := ["%" + name + "%", "%" + email + "%", "%" + address + "%"];
    conditions := [Condition("name", "ILIKE", 1), Condition("email", "ILIKE", 2), Condition("address", "ILIKE", 3)];
    if role != "" {
      params := params + [role];
      conditions := conditions + [Condition("role", "=", 4)];
    }
    orderBy := UserListOrder(sortBy, order);
  }
}

# Store rating platform: rating ledger and request checks

This project models the core of the store-rating backend. That backend is an
Express service over three PostgreSQL tables: `users`, `stores` and `ratings`.

The centre of the model is the **rating ledger**. A user submits a rating of
1 to 5 for a store. The handler then:

1. updates the user's existing rating row for that store, or inserts one;
2. recomputes the store's cached `rating_count` and `avg_rating` from all of
   that store's rows.

Around the ledger sit the request checks of the other routes:

- `validateUserFields`, with its e-mail and password regular expressions;
- user creation by an admin, with a role whitelist, field validation and a
  duplicate e-mail check;
- store creation, with length bounds and the OWNER check on `ownerId`;
- the user detail, which attaches an owner's store;
- signup, which always creates a USER;
- the outcome logic of login;
- change-password, which reuses the validator with fixed stand-in fields;
- the whitelisting of the ORDER BY column and direction in the three listing
  routes;
- the parameter list of the admin user listing.

Modules follow the source files:

- `JsValues`: the JavaScript value semantics the handlers rely on. This covers:
  - request fields that are absent, `null` or a string;
  - truthiness;
  - `String()`;
  - `.length` counted in UTF-16 code units;
  - `toLowerCase() === 'desc'`.
- `Validation` (`backend/src/validation.js`): the two patterns, written out as
  scans and proved equal to a literal reading of each regular expression.
  `ValidateUserFields` is a method that appends errors step by step. It is
  proved equal to the function `FieldErrors`.
- `Ratings`: the ratings table as a sequence of rows, and the pure operations
  on it:
  - the upsert;
  - per-store count and sum;
  - the mean in hundredths, rounded half away from zero as a PostgreSQL
    `NUMERIC(3,2)` cast rounds it;
  - lemmas on uniqueness, frame, aggregates, idempotence and bounds.
- `Tables`: the `Database` class. It holds `users` and `stores` maps, the
  `ratings` rows and the two serial counters. Its `Valid()` invariant says:
  - e-mails are unique;
  - every store owner is an OWNER;
  - every rating row is of an existing store, holds a value in 1..5, and no
    (user, store) pair has two rows;
  - every cached aggregate is current.

  Its methods are the writing statements: the two inserts, the password
  update, and the rating upsert with its aggregate refresh.
- `Http`: replies (status and body) and the sort/order normalisation.
- `UserRoutes`, `AdminRoutes` and `AuthRoutes` (`backend/src/routes/*.js`):
  - The writing handlers are methods that modify the shared `Database`:
    `SubmitRating`, `CreateUser`, `CreateStore`, `Signup` and `ChangePassword`.
  - The read-only handlers change nothing. `GetUser` is a method without a
    `modifies` clause, and `Login` is a function over the users table.
  - Of the three listing routes, only the ORDER BY normalisation
    (`StoreListOrder`, `UserListOrder`) and the admin user listing's
    conditions and parameters (`UserListQuery`) are modelled.

## Model

| member | source | states |
|---|---|---|
| JsValues.Utf16Length | backend/src/validation.js:7 | `.length` counts UTF-16 code units: between the number of characters and twice it, and equal to the number of characters exactly when no character lies outside the Basic Multilingual Plane |
| JsValues.Repeat | backend/src/routes/auth.js:90 | `'x'.repeat(n)` has length n and every character is the repeated one |
| Validation.EmailScanMatchesPattern | backend/src/validation.js:2 | the scan (split at the first `@`, both parts free of whitespace and `@`, a dot inside the rest that is neither first nor last) accepts exactly the strings that split as `a@b.c` with non-empty `[^\s@]` runs |
| Validation.ScanAcceptsOnlyMatches | backend/src/validation.js:2 | every string the e-mail scan accepts matches the pattern |
| Validation.MatchesAreAccepted | backend/src/validation.js:2 | every match of the e-mail pattern is accepted by the scan, whose first `@` is the pattern's `@` |
| Validation.IsEmail | backend/src/validation.js:2 | an accepted address has at least five characters and contains `@`; its equivalence with the pattern is `EmailScanMatchesPattern` |
| Validation.PasswordCheckMatchesPattern | backend/src/validation.js:1 | the password check is exactly the pattern: both look-aheads find an upper-case letter or a special character before any line terminator, and the whole string is 8 to 16 code units of non-terminators |
| Validation.IsPassword | backend/src/validation.js:1 | an accepted password has 4 to 16 characters, since 8 to 16 code units are counted; its equivalence with the pattern is `PasswordCheckMatchesPattern` |
| Validation.NameValid | backend/src/validation.js:7 | a valid name is a string of 10 to 60 characters; for text without astral characters it is valid iff it has 20 to 60 characters |
| Validation.AddressValid | backend/src/validation.js:10 | a valid address is a string of 1 to 400 characters; for text without astral characters it is valid iff it has 1 to 400 characters |
| Validation.EmailValid | backend/src/validation.js:13 | an e-mail field is valid iff it is a string matching the e-mail pattern |
| Validation.PasswordValid | backend/src/validation.js:16-17 | a password field is valid iff it is absent or a string matching the password pattern, so an explicit null is rejected |
| Validation.NullIsNoPassword | backend/src/validation.js:16-17 | `null`, tested as the string "null", fails the password check |
| Validation.ErrorsFor | backend/src/validation.js:5-22 | at most four errors, in strictly increasing check order, each present exactly when its check failed |
| Validation.FieldErrors | backend/src/validation.js:4-23 | the validator's list has at most one error per field, in the order name, address, email, password; each error is present iff its check fails; the list is empty iff all checks pass; an absent password never yields a password error |
| Validation.ValidateUserFields | backend/src/validation.js:4-23 | the four sequential checks, each appending its error, produce exactly `FieldErrors` |
| Validation.DummyFieldsPass | backend/src/routes/auth.js:89-94 | the stand-in name of 20 `x`, e-mail `a@a.com` and address `addr` pass their checks |
| Validation.DummyNamePasses | backend/src/routes/auth.js:90 | the stand-in name is 20 code units long, inside 20..60 |
| Validation.DummyAddressPasses | backend/src/routes/auth.js:92 | the stand-in address is within 400 code units |
| Validation.DummyEmailPasses | backend/src/routes/auth.js:91 | the stand-in e-mail passes the e-mail check |
| Validation.PasswordOnlyErrors | backend/src/routes/auth.js:89-97 | with the stand-ins, the validator returns no error or only the password error, according to the password rule |
| Validation.ValidateNewPassword | backend/src/routes/auth.js:89-94 | validating a non-empty new password yields `[]` iff it satisfies the password rule, else exactly the password error |
| Ratings.RatingOf | backend/src/routes/user.js:57-60 | the lookup of a (user, store) rating is found iff such a row exists, and then it is the value of such a row |
| Ratings.SetRating | backend/src/routes/user.js:63-66 | the UPDATE keeps the row count, gives every row of the pair the new value and leaves every other row as it was |
| Ratings.Upsert | backend/src/routes/user.js:57-72 | the upsert adds a row only when the pair had none; afterwards the pair is rated and every row of the pair holds the new value; every other row keeps its place and value |
| Ratings.HasRatingIsRater | backend/src/routes/user.js:57-62 | the existence check finds a row iff the user is among the store's raters |
| Ratings.StoreCount | backend/src/routes/user.js:76 | a store's `COUNT(*)` is at most the number of rows |
| Ratings.StoreSum | backend/src/routes/user.js:76 | a store without rows sums to 0 |
| Ratings.MeanHundredths | backend/src/routes/user.js:76-82 | a store without rows has average 0; otherwise the average in hundredths is the mean rounded to the nearest hundredth, halves upwards |
| Ratings.RoundHalfAwayFromZero | backend/src/routes/user.js:76 | the result is the nearest integer to `num/den`, with halves rounded away from zero, for both signs |
| Ratings.AppendAggregates | backend/src/routes/user.js:68-71 | an INSERT adds one to the count and the value to the sum of its own store only |
| Ratings.SetRatingKeepsCount | backend/src/routes/user.js:63-66 | the UPDATE changes no store's count |
| Ratings.SetRatingKeepsOtherSums | backend/src/routes/user.js:63-66 | the UPDATE changes no other store's sum |
| Ratings.SetRatingSum | backend/src/routes/user.js:63-66 | with unique pairs, the UPDATE changes the store's sum by the new value minus the old one |
| Ratings.SetRatingKeepsOtherPairs | backend/src/routes/user.js:63-66 | the UPDATE changes the rating of no other (user, store) pair |
| Ratings.AppendKeepsOtherPairs | backend/src/routes/user.js:68-71 | the INSERT changes the rating of no other pair |
| Ratings.UpsertSingleRow | backend/src/routes/user.js:57-72 | the upsert keeps pairs unique, leaves exactly one row for the pair, and that row holds the new value |
| Ratings.UpsertKeepsPairsUnique | backend/src/routes/user.js:57-72 | the upsert adds no second row for any (user, store) pair |
| Ratings.UpsertFrame | backend/src/routes/user.js:63-71 | the upsert leaves the rating of every other pair, and the count and sum of every other store, unchanged |
| Ratings.UpsertAggregates | backend/src/routes/user.js:57-78 | the store's count rises by one on a first rating and is unchanged on a re-rating; its sum changes by the new value, less the old value on a re-rating |
| Ratings.ResubmitIsIdempotent | backend/src/routes/user.js:57-72 | re-submitting the value already held leaves the rows identical |
| Ratings.CountIsDistinctRaters | backend/src/routes/user.js:76 | with unique pairs, a store's row count is the number of distinct users who rated it |
| Ratings.SumBounds | backend/src/routes/user.js:75-78 | with values in 1..5, a store's sum lies between its count and five times its count |
| Ratings.RoundedMeanBetween | backend/src/routes/user.js:76 | a mean of values in 1..5, rounded to hundredths, lies in 1.00..5.00 |
| Ratings.RoundedMeanExact | backend/src/routes/user.js:76 | the mean of n copies of v rounds to exactly v.00 |
| Ratings.MeanInRange | backend/src/routes/user.js:75-83 | a rated store's average lies in 1.00..5.00 |
| Ratings.UniformSum | backend/src/routes/user.js:76 | if all of a store's rows hold v, its sum is v times its count |
| Ratings.UniformMean | backend/src/routes/user.js:76 | if all of a store's rows hold v, its average is exactly v.00 |
| Tables.Database.InsertUser | backend/src/routes/admin.js:43-48 | an INSERT of a user whose e-mail is free gets a fresh serial id, adds exactly that row and keeps the table invariant |
| Tables.FreshEmailKeepsUnique | backend/src/routes/admin.js:37-48 | once `EmailTaken` finds no row for the e-mail, adding the user under a new id keeps e-mails unique, and the e-mail is then taken |
| Tables.Database.InsertStore | backend/src/routes/admin.js:163-168 | an INSERT of a store whose owner is an OWNER gets a fresh id, adds that row with average 0 and count 0, and keeps the table invariant |
| Tables.Database.SetPasswordHash | backend/src/routes/auth.js:100-103 | the UPDATE replaces only that user's hash, changes nothing for a missing id and keeps the invariant |
| Tables.Database.SaveRating | backend/src/routes/user.js:57-83 | the rating rows become the upsert of the old rows; only this store's aggregate is rewritten, from all its rows; the table invariant is kept |
| Tables.RehashKeepsInvariants | backend/src/routes/auth.js:100-103 | changing a hash keeps e-mails unique and owners valid |
| Tables.NoRowsForUnknownStore | backend/src/routes/admin.js:163-168 | a store id not yet in the table has no rating rows, so count 0 and average 0 are current for a new store |
| Tables.SubmissionKeepsInvariants | backend/src/routes/user.js:57-83 | after an upsert and the refresh of that store's aggregate, the owner check, rating validity, pair uniqueness and every cached aggregate still hold |
| Tables.UpsertKeepsRowsValid | backend/src/routes/user.js:57-72 | the upsert of a value in 1..5 for an existing store keeps rows of existing stores, values in 1..5 and one row per pair |
| Tables.RefreshKeepsAggregates | backend/src/routes/user.js:75-83 | after refreshing the rated store, every store's cached count and average equal those of its rows |
| Http.SortColumn | backend/src/routes/user.js:13-15 | the ORDER BY column is always from the whitelist: the requested one if whitelisted, else `name` |
| Http.SortDirection | backend/src/routes/user.js:13-16 | the direction is `ASC` or `DESC`, and `DESC` iff `order` lower-cases to `desc` |
| UserRoutes.StoreListOrder | backend/src/routes/user.js:13-16 | the store listing sorts by `name` or `avg_rating`, by `avg_rating` only when asked, descending iff `order` lower-cases to `desc` |
| UserRoutes.RatingRejected | backend/src/routes/user.js:47-48 | a rating is rejected iff it is missing or non-numeric, or not in 1..5 |
| UserRoutes.SubmitRating | backend/src/routes/user.js:41-90 | a bad rating gives 400 and an unknown store gives 404, both with no change. Otherwise the reply is 200 and: the caller has exactly one row for the store, holding the new value; the store's count and average are recomputed from all its rows; a first rating adds one to the count and a re-rating does not; re-submitting the same value changes nothing; other pairs and users are untouched; the table invariant is kept |
| AdminRoutes.ParseRole | backend/src/routes/admin.js:29 | a role is accepted iff it is one of the strings `ADMIN`, `USER`, `OWNER`, and it is stored under that same name |
| AdminRoutes.CreateUser | backend/src/routes/admin.js:26-55 | checks run in order: an invalid role gives 400, then validation errors give 400 with the list, then a taken e-mail gives 400, then a missing password gives 500; any non-201 reply leaves the tables unchanged; a 201 adds exactly the new row with the requested role and a fresh id, and keeps e-mails unique |
| AdminRoutes.GetUser | backend/src/routes/admin.js:116-138 | an unknown id gives 404; otherwise the user's columns, with a `store` attached iff the user is an OWNER, which is null iff the owner has no store and otherwise one of that owner's stores |
| AdminRoutes.StoreRequestError | backend/src/routes/admin.js:144-161 | the store checks fail in order, each message given exactly when the earlier checks pass and its own fails: missing name or address, then name length outside 3..100, then address over 400, then a given `ownerId` that is not an OWNER; no error iff all pass |
| AdminRoutes.CreateStore | backend/src/routes/admin.js:141-175 | a failing check gives its 400 message with no change; otherwise 201 with the inserted row, whose e-mail is null when falsy, whose owner is null when `ownerId` is falsy, and which starts with average 0 and count 0 |
| AdminRoutes.UserListOrder | backend/src/routes/admin.js:60-63 | the user listing sorts by a column from {name, email, address, role}, defaulting to `name`, descending iff `order` lower-cases to `desc` |
| AdminRoutes.StoreListOrder | backend/src/routes/admin.js:91-94 | the store listing sorts by a column from {name, email, address, avg_rating}, defaulting to `name`, descending iff `order` lower-cases to `desc` |
| AdminRoutes.UserListQuery | backend/src/routes/admin.js:60-78 | the conditions start with `name ILIKE $1`, `email ILIKE $2` and `address ILIKE $3`, bound to `%name%`, `%email%` and `%address%`; a fourth parameter and a `role = $4` condition are added iff a role is given; every condition's placeholder matches its parameter's position |
| AuthRoutes.Signup | backend/src/routes/auth.js:13-45 | validation errors give 400 with the list, then a registered e-mail gives 400, then a missing password gives 500, all with no change; a 201 inserts the user with role USER whatever the request says, and replies with id, name, e-mail and role only |
| AuthRoutes.Login | backend/src/routes/auth.js:48-80 | an unknown e-mail and a wrong password both give 400 "Invalid credentials"; a non-string password for a known e-mail gives 500; a matching password gives 200 with that user's id, name, e-mail and role, never the hash |
| AuthRoutes.ChangePassword | backend/src/routes/auth.js:83-109 | a missing or empty new password gives 400 with no change; one failing the password rule gives 400 with only the password error and no change; otherwise 200, and only the caller's hash is replaced, every other user row and table staying as it was |

## Left out

- Express plumbing is not modelled: routing, CORS, JSON parsing and server
  start-up (`backend/src/index.js`). It is bootstrap code without logic.
- The SQL driver (`backend/src/db.js`) is not part of this model. Tables are
  Dafny maps and a sequence of rows. Two things follow:
  - ILIKE substring filtering, and the rows and order of the listing results,
    are not modelled. Only the ORDER BY column and direction and the user
    listing's parameters are.
  - The admin dashboard counts (`backend/src/routes/admin.js:12-23`) and
    `backend/src/routes/owner.js` are read-only queries and are left out.
- Password hashing and comparison are foreign libraries, so they become
  parameters:
  - the hash is an opaque `hash` string given to the handler;
  - the comparison is a function parameter `matches` of `Login`.

  The JWT that signup and login return is left out of the modelled replies.
- Authentication and role authorisation (`backend/src/middleware/auth.js`) are
  not part of this model. The caller's id is a parameter.
- Concurrency is not modelled. Each handler runs to completion, as if alone.
  The check-then-write sequences are not transactional in the source.
- Ratings are integers. `Number(rating)` on strings, and fractional values
  whose fate depends on the column type, are not modelled; `RatingRejected`
  takes `None` for a missing or non-numeric rating.
- `UserRoutes.SubmitRating`: it does not model a path id that is not numeric.
  The SQL cast fails there and the catch block replies 500.
- Request fields are absent, `null` or strings. Numbers, arrays and objects in
  a JSON body are not modelled, and neither is an array-valued query parameter
  (which makes `toLowerCase` throw and the handler reply 500).
- `ownerId` is an optional integer in the model. The store creation route
  receives whatever JSON value the client sends.
- Strings are sequences of code points, so lone surrogates cannot occur.
- The 500 replies of the catch blocks are modelled only where a failure
  follows from the inputs:
  - a missing password makes the hashing library throw in signup and user
    creation;
  - a non-string password makes the comparison throw in login.

  Database failures are not modelled.
- `updated_at` and the ids of rating rows are not modelled.
- `Tables.Database.InsertStore`: a new store starts with average 0 and count 0
  on the assumption that these are the column defaults. The schema is not
  part of this model.
- `AdminRoutes.GetUser`: the store query has no ORDER BY. When an owner has
  several stores, the contract says only that one of that owner's stores is
  attached, not which one.
- `Validation.ValidateUserFields`: errors are reported as `FieldError` values.
  `Validation.ErrorText` gives the exact text of each.

# TeacherTools backend handlers, modelled in Dafny

This project models the two pieces of decision logic in the Go package
`backend/handlers` of TeacherTools:

* **The teacher lookup for a student** (`student_handlers.go`). The code runs a
  Firestore query for the first student whose `firstName` and `lastName` both
  equal the request's values. It then reads that student's `teacherIDs` field
  and turns each document reference in it into a `Teacher`. The outcomes are
  checked in a fixed order: store error, student not found, field missing,
  field not a list. After that the reference list is filter-mapped, and any
  element that is not a reference, cannot be fetched or cannot be decoded is
  skipped. The HTTP handler rejects missing names with 400 and maps the
  resolver's errors to 404 or 500.
* **The credential handlers** (`user_handlers.go`). Account creation is an
  insert-if-absent write to the `users` collection, keyed by email. Login is
  a point read, a bcrypt check and the minting of a session token. Logout does
  nothing. The token is a 32-byte random nonce followed by the HMAC-SHA256
  (RFC 2104 over FIPS 180-4) of the email and the nonce, encoded with the
  standard padded Base64 alphabet of section 4 of RFC 4648. It is not a JWT,
  despite the name `signJWT`.

The store, bcrypt, HMAC and the random source are not implemented. They are
collaborators given as parameters:

* Student documents are a `seq<StudentDoc>` in store order, plus an optional
  query fault.
* Teacher references are read through `fetch: DocRef -> Option<D>` (the
  reference's `Get`) and `decode: D -> Option<Teacher>` (`DataTo`).
* The `users` collection is a `map<string, UserDoc>`. It sits in the field
  `docs` of the class `UserCollection` when it is updated in place, and is a
  plain value in the specification functions. Store faults are optional
  `RpcError` parameters.
* bcrypt is a `Bcrypt(hash, verify)` pair of functions.
* HMAC-SHA256 is a function returning a `Block32`, a sequence of exactly 32
  bytes.
* The outcome of `rand.Read` is a `RandRead` parameter: 32 bytes, or an error.
* `JWT_SECRET` is a string parameter, empty when the variable is unset.

Base64 encoding is written out in `Base64.dfy`, together with a decoder. That
lets the layout and length of the token be proved instead of assumed.

Files:

* `Wrappers.dfy`: `Option` and `Result`.
* `Bytes.dfy`: `byte`, `Block32` and Go's `[]byte(s)` as UTF-8.
* `Base64.dfy`: RFC 4648 Base64.
* `Models.dfy`: the `models` package.
* `Errors.dfy`: the sentinel errors, store errors and `err.Error()`.
* `Http.dfy`: status codes and responses.
* `StudentHandlers.dfy` and `UserHandlers.dfy`: the two handler files.

Three points about what the code does, as opposed to what its names suggest:

* Despite its message, `ErrInvalidTeacherIDs` is returned only when
  `teacherIDs` is not a list at all. Non-reference elements of a list are
  skipped one by one.
* "Missing field" and "not a list" both answer 500. They differ only in the
  error text, not in the status.
* A store error whose gRPC code is AlreadyExists (for a create) or NotFound
  (for a read) becomes the sentinel error, whatever caused it. The code
  compares only the status code.

## Model

| member | source | states |
|---|---|---|
| `StudentHandlers.Query` | backend/handlers/student_handlers.go:22-35 | the query fails exactly when the store fails, with the store's error; it is done exactly when no stored student has both names; a document it yields is a stored student with both names |
| `StudentHandlers.FirstMatch` | backend/handlers/student_handlers.go:22-26 | the query with `Limit(1)` yields a student whose first and last names both equal the query's, and none earlier in store order matches; it yields nothing exactly when no stored student matches |
| `StudentHandlers.Resolved` | backend/handlers/student_handlers.go:47-67 | the list built by the skip loop is never longer than the reference array |
| `StudentHandlers.FetchTeachersForStudent` | backend/handlers/student_handlers.go:21-68 | the imperative resolver (query, missing-field check, type check, then a loop that `continue`s past each unusable element) returns exactly the specified outcome; the loop invariant is that the teachers collected so far are the resolution of the prefix processed |
| `StudentHandlers.ResolveTeachers` | backend/handlers/student_handlers.go:21-68 | a query failure is returned unchanged; with a working query every error is one of the three sentinels `ErrStudentNotFound`, `ErrMissingTeacherIDs`, `ErrInvalidTeacherIDs` |
| `StudentHandlers.ResolvedConcat` | backend/handlers/student_handlers.go:49-65 | resolving two arrays joined end to end gives the two results joined in the same order |
| `StudentHandlers.ElementIsIndependent` | backend/handlers/student_handlers.go:50-64 | a non-reference element, a failed fetch and a failed decode are each skipped without changing what the elements before and after contribute; any other element adds exactly its teacher at its place |
| `StudentHandlers.ResolvedAreKeptImages` | backend/handlers/student_handlers.go:49-65 | the result is exactly the in-order list of teachers of the elements that are references, fetch and decode: the kept positions ascend, each yields its teacher, and a position is kept if and only if it yields one |
| `StudentHandlers.ResolvedMembership` | backend/handlers/student_handlers.go:49-65 | a teacher is in the result if and only if some element of the array yields it |
| `StudentHandlers.EmptyIffAllSkipped` | backend/handlers/student_handlers.go:47-67 | the resolved list is empty exactly when no element yields a teacher (that this empty list is a success is stated by `FieldDecidesOutcome`) |
| `StudentHandlers.FullIffNoneSkipped` | backend/handlers/student_handlers.go:49-65 | the result is as long as the array exactly when no element is skipped |
| `StudentHandlers.OneDanglingOfThree` | backend/handlers/student_handlers.go:55-58 | of three references whose middle one fails to fetch, the other two teachers come back in their original order |
| `StudentHandlers.NotFoundIffNoMatch` | backend/handlers/student_handlers.go:29-33 | with a working query, the result is `ErrStudentNotFound` if and only if no stored student has both names |
| `StudentHandlers.ErrorPrecedence` | backend/handlers/student_handlers.go:29-67 | necessary conditions for each outcome: a query error is returned unchanged; not-found implies no student matches; a missing field, then a non-list field, are reported only for a matching student; success implies a matching student whose field is a list, with the teachers resolved from it |
| `StudentHandlers.FieldDecidesOutcome` | backend/handlers/student_handlers.go:37-67 | with a working query and a student of that name, the only possible errors are the two field errors; if the matching students' field is a list the call succeeds, if it is absent the error is `ErrMissingTeacherIDs`, if it is not a list `ErrInvalidTeacherIDs`; a list none of whose elements resolves gives an empty success |
| `StudentHandlers.OutcomeIgnoresTeacherStore` | backend/handlers/student_handlers.go:47-67 | whether the call succeeds, and which error it reports, does not depend on the teacher documents at all |
| `StudentHandlers.GetTeachersForStudentHandler` | backend/handlers/student_handlers.go:70-99 | the handler answers 400 exactly when a name is missing, 200 exactly with a teacher-list body, and otherwise only 404 or 500 |
| `StudentHandlers.MissingParamsRejected` | backend/handlers/student_handlers.go:77-80 | an empty `firstName` or `lastName` gives 400, and the response is the same for every resolver, so the resolver is never consulted |
| `StudentHandlers.StatusMapping` | backend/handlers/student_handlers.go:82-97 | with both names: 200 with exactly the resolved teachers on success, 404 exactly for `ErrStudentNotFound`, 500 for every other error, and each error body is that error's message |
| `StudentHandlers.HandlerListsTeachers` | backend/handlers/student_handlers.go:82-97 | over a working store, a student of that name whose field is a list gets 200 with its resolved teachers, and an empty list when no element resolves |
| `StudentHandlers.HandlerNotFoundIffNoStudent` | backend/handlers/student_handlers.go:70-99 | over a working store, the handler answers 404 exactly when no stored student has both names |
| `Base64.Encode` | backend/handlers/user_handlers.go:68 | the encoding is a whole number of 4-character groups, empty exactly for empty input, with padding only in the last group |
| `Base64.EncodeLength` | backend/handlers/user_handlers.go:68 | standard padded Base64 turns n bytes into 4 * ceil(n / 3) characters |
| `Base64.DecodeEncode` | backend/handlers/user_handlers.go:68 | decoding a Base64 encoding gives back the original bytes |
| `Base64.EncodeInjective` | backend/handlers/user_handlers.go:68 | distinct byte strings have distinct encodings |
| `UserHandlers.UserCollection.Create` | backend/handlers/user_handlers.go:29 | the store's `Create` adds the document under the email exactly when that key is free and the store works, never overwrites, and keeps every account under its own email |
| `UserHandlers.CreateUser` | backend/handlers/user_handlers.go:28-37 | `createUserInDB` adds the account exactly when the email is free and the store works, and changes nothing already stored; AlreadyExists becomes `ErrUserExists`; every other store error is returned unchanged |
| `UserHandlers.CreateUserKeepsKeyedByEmail` | backend/handlers/user_handlers.go:28-37 | writing an account keeps every decodable account stored under its own email |
| `UserHandlers.CreateUserInDB` | backend/handlers/user_handlers.go:28-37 | the imperative write through the collection object has the specified error and new collection, and keeps the collection's invariant |
| `UserHandlers.FetchUserByEmail` | backend/handlers/user_handlers.go:39-52 | a point read keyed by email yields the stored account exactly when the read works and the document decodes; a missing document or a NotFound store error becomes `ErrUserNotFound`; other read errors and decode errors come back unchanged |
| `UserHandlers.FetchedAccountHasEmail` | backend/handlers/user_handlers.go:39-52 | in a collection that keeps accounts under their own email, a successful read by email yields that email's account |
| `UserHandlers.SignedToken` | backend/handlers/user_handlers.go:54-69 | a token is produced exactly when the random source fills the nonce, and is 88 characters; otherwise the random source's error is returned |
| `UserHandlers.SignJWT` | backend/handlers/user_handlers.go:54-69 | the imperative minting (fill a 32-byte buffer, write the email then the buffer into the MAC, append the sum, encode) returns the specified token, or the random source's error |
| `UserHandlers.TokenLayout` | backend/handlers/user_handlers.go:54-69 | a minted token is 88 characters and decodes to 64 bytes; bytes 0..31 are the nonce; bytes 32..63 are the HMAC of the email's bytes followed by the nonce, keyed by `JWT_SECRET`, or by "dev_secret" when that is empty; a failing random source yields its error and no token |
| `UserHandlers.FreshNonceFreshToken` | backend/handlers/user_handlers.go:59-68 | tokens minted from different nonces are different strings, whatever the emails and secrets |
| `UserHandlers.CreateAccount` | backend/handlers/user_handlers.go:71-100 | account creation answers only 201, 400, 409 or 500; 400 exactly for an invalid request; a body exactly when not 201; only a 201 changes the collection, adding just the requested email, which was free |
| `UserHandlers.CreateAccountHandler` | backend/handlers/user_handlers.go:71-100 | the imperative handler gives the specified response and collection; a request rejected by validation leaves the collection untouched |
| `UserHandlers.CreateAccountValidatesFirst` | backend/handlers/user_handlers.go:77-84 | an unparsable body or an empty email or password gives 400; the response does not depend on bcrypt or the store, and the collection is unchanged |
| `UserHandlers.CreateAccountOutcomes` | backend/handlers/user_handlers.go:85-98 | for a valid request: 201 exactly when hashing and the store work and the email is free; 409 exactly when the write reports the email taken; 500 for a hashing failure or any other store error; only a 201 changes the collection, by adding this account |
| `UserHandlers.CreateAccountKeepsKeyedByEmail` | backend/handlers/user_handlers.go:71-100 | account creation keeps every decodable account stored under its own email |
| `UserHandlers.ProvisionTwice` | backend/handlers/user_handlers.go:85-98 | provisioning one email twice gives 201 and then 409, and the second attempt leaves the first account in place |
| `UserHandlers.LoginHandler` | backend/handlers/user_handlers.go:102-136 | login answers only 200, 400, 401 or 500; 400 exactly for an invalid request; 200 only for a stored, decodable account whose hash verifies the password |
| `UserHandlers.LoginValidatesFirst` | backend/handlers/user_handlers.go:108-114 | an unparsable body or an empty email or password gives 400, whatever the store, bcrypt and the token minting would do |
| `UserHandlers.InvalidCredentialsIndistinguishable` | backend/handlers/user_handlers.go:116-128 | for a valid request, 401 comes exactly from an unknown account or a password that fails verification, and always with the body "invalid credentials" |
| `UserHandlers.UnknownEmailLooksLikeWrongPassword` | backend/handlers/user_handlers.go:116-128 | an unregistered email and a registered one with a wrong password get identical responses |
| `UserHandlers.TokenOnlyAfterVerify` | backend/handlers/user_handlers.go:116-134 | a token body appears exactly with 200; 200 is given exactly when the account reads, the password verifies and minting succeeds, with the token minted for that email; 500 comes exactly from a read error other than not-found, or from a minting failure after a good password |
| `UserHandlers.SignupLoginScenario` | backend/handlers/user_handlers.go:71-136 | provisioning "a@x.com"/"pw1" gives 201, again 409; logging in with "pw1" then gives 200, with "wrong" 401, for any bcrypt that accepts its own hash of "pw1" and rejects "wrong" |
| `UserHandlers.LogoutHandler` | backend/handlers/user_handlers.go:138-143 | logout always answers 200 with no body and reads or changes no state |

## Left out

- Firestore itself: query execution, `DocumentRef.Get`, `DataAt` and `DataTo`. They are abstract inputs: a student sequence in store order, `fetch`/`decode` functions, a `users` map and optional store faults. The store's real document order for the first match is unspecified; the sequence order stands for it.
- gin request binding and JSON encoding. A request body is either parsed credentials or `Unparseable`; query parameters are strings, empty when absent. A nil Go slice is encoded as `null`, not `[]`, for an empty teacher list; the model does not distinguish the two.
- bcrypt hashing, its cost and salt: `Bcrypt.hash` and `Bcrypt.verify` are uninterpreted. The salt makes real hashing nondeterministic; each call's outcome is fixed by the parameter.
- HMAC-SHA256 internals: `Minter.hmac` is uninterpreted apart from its 32-byte output.
- `crypto/rand` entropy: the nonce is an input, so uniqueness across calls, which is only probabilistic, is not modelled. `FreshNonceFreshToken` proves that distinct nonces give distinct tokens.
- The texts of the store's own gRPC errors ("document already exists", "document not found") are placeholders; the code looks only at their status codes.
- `context.Background()`, timeouts, concurrency: each request is handled sequentially.
- `backend/main.go` (server start-up, environment lookup, client construction, route wiring) and `backend/noop_test.go` are not part of this model.
- `Models.Student` and the `studentIDs` field of `Models.Teacher` are declared for completeness. The resolver reads the raw `teacherIDs` field instead of decoding a `Student`.
- `fetch` is one fixed function from references to documents. When a reference is listed twice, Go fetches it twice, and a transient failure can hit only one of the two fetches; the model gives both the same outcome.
- Strings are sequences of Unicode characters, so a `JWT_SECRET` or email holding bytes that are not valid UTF-8 (`os.Getenv` and request bodies carry raw bytes) cannot be expressed; `[]byte(s)` is modelled as the UTF-8 encoding.

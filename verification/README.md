# BidRight backend: contractor registry and request layer

A Dafny model of the core of a small job-marketplace backend. Contractors
sign up and log in. They browse a fixed list of jobs and place bids on them.

- **The contractor registry** (`src/users.js`) is an ordered sequence of
  contractor records. Its operations are add, find-by-email, get-by-id, list
  and remove-by-id. Its invariant is that no two records share an email.
- **The request layer** (`src/index.js`) holds the route handlers for
  signup, login, `GET /jobs`, `GET /jobs/:id`, `POST /jobs/:id/bids` and
  `GET /contractors/:id/bids`. Each handler is a pure transition from a state
  (registry, jobs, bids) to a response and a new state.

Layout:

- `wrappers.dfy`: `Option` (an absent property or `null`) and `Result` (a
  thrown error or a normal return).
- `truthiness.dfy`: JavaScript truthiness of optional string and number
  fields, and `x || fallback`.
- `seqs.dfy`: `findIndex`, `find`, `filter` and a one-element `splice` over
  sequences, with lemmas about appending to a sequence.
- `users.dfy`: the registry and its lemmas.
- `api.dfy`: the handlers, the dispatcher `Step` and a request sequence `Run`.
- `api_properties.dfy`: properties that relate several requests.

Nondeterministic inputs are parameters. `randomUUID()`, `Date.now()` and
`new Date().toISOString()` arrive as `uuid`, `nowMillis` and `nowIso`. The
registry functions take them directly. The handlers take them through an
`Env` value. The job id in the path arrives already parsed, as an
`Option<int>`: `None` stands for a non-numeric id (NaN), which matches no
job.

A few behaviours of the code are easy to misread:

- `add` rejects an empty email as well as an absent one. It tests
  `!contractor.email`, which is falsy for both.
- `add` does not always produce a fresh id. The object spread at
  `src/users.js:21` lets a caller-supplied `id`, `createdAt` or
  `businessName` win over the generated values. So `Users.Add` takes an
  optional override for each field. Id uniqueness is proved only when the
  caller supplies no `id` and the generated id is fresh
  (`Users.AddPreservesIdsUnique`). The signup route never supplies an `id`.
- A record added without a password has no password at all.
  `Contractor.password` is therefore an `Option`, and login against such a
  record always fails.
- The fresh-id requirement is not a precondition of `Users.Add`, because the
  source does not ask it of callers. It is a precondition only of the lemmas
  that need it.

## Model

| member | source | states |
|---|---|---|
| Seqs.FindIndex | src/users.js:45-46 | The index of the first element satisfying the predicate; no index iff no element satisfies it |
| Seqs.FindIndexSnoc | src/users.js:30 | Appending an element keeps an earlier match; otherwise the new last position is found iff it matches |
| Seqs.Filter | src/index.js:141 | The result holds only elements of the input that satisfy the predicate, and every satisfying element appears in it |
| Seqs.FilterSnoc | src/index.js:141 | Filtering after appending one element gives the old result plus that element iff it qualifies |
| Seqs.FilterConcat | src/index.js:141 | Filtering distributes over concatenation, so kept elements stay in input order |
| Seqs.RemoveAt | src/users.js:47 | A one-element splice shrinks the sequence by one, keeps the other elements in their original order, and removes exactly that element from the multiset |
| Users.List | src/users.js:38-41 | The listing has exactly the store's records, one per position, in the store's order |
| Users.FindByEmail | src/users.js:29-31 | Returns nothing iff no record has the email; otherwise the first record whose email equals the query |
| Users.IndexOfId | src/users.js:45 | The position of the first record with the id; nothing iff no record has it |
| Users.GetById | src/users.js:34-36 | Returns nothing iff no record has the id; otherwise the first record with that id |
| Users.Add | src/users.js:8-26 | Missing or empty email gives MissingEmail, checked before duplicates; an existing email gives DuplicateEmail; failures keep the store; success appends exactly one record at the end, leaves earlier records untouched, and builds it with the supplied email and password, supplied-or-generated id and timestamp, and businessName defaulting to "" |
| Users.RemoveById | src/users.js:44-48 | Returns what GetById returns; an absent id keeps the store; a present id removes the first such record, shrinks the store by one and keeps the other records in their original order |
| Users.AddPreservesEmailsUnique | src/users.js:12-14 | Add keeps the invariant that no two records share an email |
| Users.RemovePreservesEmailsUnique | src/users.js:44-48 | RemoveById keeps the invariant that no two records share an email |
| Users.AddPreservesIdsUnique | src/users.js:16-22 | With a fresh generated id and no caller-supplied id, Add keeps ids unique |
| Users.FindAfterAdd | src/users.js:24-31 | After a successful add, its email finds the new record, and every other email finds what it found before |
| Users.GetByIdAfterAdd | src/users.js:34-36 | After a successful add with a fresh id, that id finds the new record |
| Users.RemoveAfterAdd | src/users.js:44-48 | Removing the freshly generated id undoes a successful add, returning the added record |
| Users.FindByEmailUnique | src/users.js:29-31 | When emails are unique, a stored record's email finds that very record |
| Users.ListAfterAdd | src/users.js:38-41 | The listing after a successful add is the old listing plus the new record |
| Api.FindJob | src/index.js:107 | Finds nothing iff no job has the id (a non-numeric id never matches); otherwise a stored job with that id |
| Api.BidsOf | src/index.js:141 | Holds only stored bids with exactly this contractor id, and every such bid |
| Api.Signup | src/index.js:20-43 | MissingFields iff any of email, password, businessName is falsy, before the Conflict check; Conflict iff the email is registered; otherwise Ok; failures keep the state; success appends one record holding exactly the inputs, the generated id and the timestamp |
| Api.Login | src/index.js:46-70 | Never changes state; MissingFields iff email or password is falsy; otherwise only Ok or the same Unauthorized; Ok iff the first record with the email has that password; the token is "token-" plus the id and the view omits the password |
| Api.ListJobs | src/index.js:97-99 | Never changes state; always Ok, with the whole job list, unfiltered and in stored order |
| Api.GetJob | src/index.js:148-157 | Never changes state; NotFound iff no job has the id; otherwise the stored job with that id, unchanged |
| Api.PlaceBid | src/index.js:105-135 | NotFound iff the job is unknown, checked before fields; MissingFields iff contractorId is falsy or amount is absent or 0; failures keep the state; success appends one bid with the job id, status "pending", message defaulting to "", and the clock's id and timestamp |
| Api.ListBidsForContractor | src/index.js:138-144 | Never changes state; the list holds only stored bids of this contractor, and all of them |
| Api.Step | src/index.js:20-157 | Every request leaves the job list untouched, only appends to the registry and the bids, changes nothing on failure, and keeps emails unique |
| Api.SignupKeepsValid | src/index.js:27-37 | Signup keeps emails unique in the registry |
| Api.Run | src/index.js:73-94 | Any sequence of requests keeps the job list, only appends to registry and bids, and keeps emails unique |
| ApiProperties.SignupThenLogin | src/index.js:53-68 | After a successful signup, the same credentials log in with token "token-" plus the generated id and the view of id, email and businessName |
| ApiProperties.SignupThenWrongPassword | src/index.js:53-57 | After a successful signup, a different password is refused with Unauthorized and the state is kept |
| ApiProperties.SignupTwiceConflicts | src/index.js:27-29 | A second signup with the same email is a Conflict and leaves the registry unchanged |
| ApiProperties.LoginSucceedsIff | src/index.js:53-59 | With unique emails, login succeeds iff some contractor has both this email and this password |
| ApiProperties.LoginDoesNotRevealEmail | src/index.js:55-57 | An unknown email and a wrong password both give Unauthorized |
| ApiProperties.BidsOfConcat | src/index.js:141 | A contractor's bids over two stretches of history are those of the first, then those of the second |
| ApiProperties.PlaceBidThenList | src/index.js:129 | After a successful bid, the bidder's list gains exactly that bid at the end and other contractors' lists are unchanged |
| ApiProperties.JobsNeverChange | src/index.js:97-99 | After any requests from process start, GET /jobs returns the seed list and each seed job is found by its id |
| ApiProperties.StepKeepsIdsUnique | src/users.js:17 | With a fresh generated id, any request keeps contractor ids unique |
| ApiProperties.BidOnJobOne | src/index.js:73-94 | From start, job 1 is the 5000-8000 exterior repaint; a 6000 bid by "c1" with no message is accepted as pending with an empty message, and is then c1's only bid |

## Left out

- `src/db.js` is not part of this model: the PostgreSQL pool, environment parsing, SSL selection, health query and signal-driven shutdown are foreign-library I/O, and nothing in the core calls them.
- Express wiring is not modelled: `app.use`, `app.listen`, JSON body parsing, response serialization and HTTP status codes. Responses are constructors of `Api.Response`.
- `GET /health` is left out: it returns a constant and touches no state.
- `Number(req.params.id)` parsing is not modelled. The job id arrives as `Option<int>`, with `None` for NaN.
- `randomUUID()`, `Date.now()` and ISO timestamps are parameters, because they are nondeterministic.
- Arbitrary fields injected through the object spread at `src/users.js:21` are not modelled. The input is limited to the record's five fields, each optional.
- Request-body values of other JSON types are not modelled. Examples are a numeric `contractorId`, a string `amount`, or a fractional amount. Text fields are strings and `amount` is an integer. A `null` input object to `add` is `None`.
- Concurrency is not modelled: the handlers run to completion one at a time.
- Aliasing of stored records is not modelled. Records are values here, but `listContractors` makes only a shallow copy (`src/users.js:38-41`). `addContractor`, `findContractorByEmail`, `getContractorById` and `removeContractorById` return the stored objects themselves (`src/users.js:25`, `:30`, `:35`, `:47`). A caller that writes to a returned record changes the registry and can break email uniqueness. The email-uniqueness lemmas assume that no caller writes to a returned record. That holds for `src/index.js`, which only reads them.

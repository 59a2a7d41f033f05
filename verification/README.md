# IMF gadget API: a Dafny model of the gadget and auth handlers

This project models the two request-handler modules of the IMF gadget backend
as pure state machines over in-memory stores, and proves what they promise.

- **Gadget handlers** (`src/controllers/gadget.controller.ts`). The `gadgets`
  table becomes a `map<Id, Gadget>`. Each handler is a function from the store,
  the request, the clock (`now`, which stands for `NOW()`) and the random
  draws to a `Reply(code, body, store')`. The handlers are listing, creation
  with its codename uniqueness loop, partial update with its dynamic
  `UPDATE ... SET ... WHERE id = $n` statement, decommission (the soft delete)
  and the self-destruct handshake. `GetGadgets` is a method, because turning a
  map into a newest-first list needs a choice. Everything else is a function.
- **Auth handlers** (`src/controllers/auth.controller.ts`). The `users` table
  becomes a `map<Email, User>`. bcrypt's `hash` and `compare` and
  `jwt.sign` are function-valued fields of a `Crypto` value, about which
  nothing is assumed. The one exception is the round-trip lemma, which
  assumes `compare(p, hash(p, salt))` (`HashSound`).

Modules, one per concept:

| file | module | what it holds |
|---|---|---|
| `wrappers.dfy` | `Wrappers` | `Option` |
| `common.dfy` | `Common` | the user id both tables use, the clock, the catch-all 500 message |
| `js.dfy` | `Js` | request-body fields (`undefined`, `null`, string), truthiness, `!== undefined` |
| `codename.dfy` | `Codename` | the prefix/noun grammar, the generator, its parser, the bounded retry loop |
| `gadget_model.dfy` | `GadgetModel` | `Status`, `Gadget`, the store, its invariant, the probability draw |
| `listing.dfy` | `Listing` | the status filter and the `createdAt DESC` ordering |
| `update_query.dfy` | `UpdateQuery` | the dynamic UPDATE statement, its execution, and the field-by-field `Patch` it must agree with |
| `confirmation.dfy` | `Confirmation` | the `^[A-Z0-9]{8}$` check |
| `gadget_controller.dfy` | `GadgetController` | the five gadget handlers |
| `gadget_properties.dfy` | `GadgetProperties` | properties that relate several requests; invariant preservation |
| `auth_controller.dfy` | `AuthController` | `Signup`, `Login` and their properties |

Modelling choices:

- Request fields are `Js.Field = Undefined | Null | Text(s)`. Only a non-empty
  string is truthy.
- `name` and `status` must be truthy to be applied, but `description` only has
  to be defined. So `""` and `null` both overwrite it, and `null` stores NULL.
- The database schema is not part of the source. The model assumes the status
  column accepts only the four names listed in the API documentation.
  A status the column refuses makes the statement fail, and the handler falls
  into its catch-all 500 reply with the store unchanged. Such a status is any
  other string, or JSON `null` on creation.
- The fresh gadget UUID and the next user serial id are parameters. If one
  collides with an existing key, the insert fails, which gives the 500 reply.
- Random draws are parameters. `picks(k)` is the draw of the k-th codename
  generation. A `Roll` in 0..30 is one `Math.floor(Math.random() * 31)`. The
  challenge code is an opaque string.
- Status codes of three refusals:
  - an already-destroyed gadget gets **400** (src/controllers/gadget.controller.ts:268);
  - a duplicate signup gets **400** (src/controllers/auth.controller.ts:27);
  - a missing user on creation gets **401** (src/controllers/gadget.controller.ts:98-100).

## Model

| member | source | states |
|---|---|---|
| `Codename.Generate` | src/controllers/gadget.controller.ts:6-35 | every generated codename is one of the four prefixes, a space, and one of the twenty nouns |
| `Codename.ParseGenerate` | src/controllers/gadget.controller.ts:31-34 | a generated codename reads back as exactly the two random draws that produced it |
| `Codename.ParseDecidesGrammar` | src/controllers/gadget.controller.ts:7-34 | a string follows the codename grammar if and only if the parser accepts it |
| `Codename.GenerateInjective` | src/controllers/gadget.controller.ts:31-34 | two draws give the same codename only when they are the same draw |
| `Codename.Choose` | src/controllers/gadget.controller.ts:103-115 | the uniqueness loop regenerates at most 10 times; every codename it skipped was taken; it ends on a taken codename only after all 10 regenerations |
| `Codename.ChooseGivesUp` | src/controllers/gadget.controller.ts:107-115 | when all ten checked codenames collide, the loop keeps the eleventh generation without checking it |
| `Codename.ChooseFromPicks` | src/controllers/gadget.controller.ts:103-115 | the codename creation settles on follows the grammar, and it is already taken only if the first ten generations were all taken |
| `GadgetModel.Probability` | src/controllers/gadget.controller.ts:71 | the ephemeral mission success probability lies in [70, 100] |
| `GadgetModel.ProbabilityOnto` | src/controllers/gadget.controller.ts:71 | every percentage from 70 to 100 can be drawn |
| `Listing.SelectedIds` | src/controllers/gadget.controller.ts:58-61 | only stored gadgets are selected, and without a status filter (no WHERE clause) every stored gadget is |
| `Listing.StatusFiltersPartition` | src/controllers/gadget.controller.ts:58-61 | the four `WHERE g.status = $1` selections are pairwise disjoint and together select every stored gadget |
| `Listing.NewestExists` | src/controllers/gadget.controller.ts:63 | any nonempty set of gadgets has a newest member, so `ORDER BY createdAt DESC` can always take one |
| `Listing.OrderNewestFirst` | src/controllers/gadget.controller.ts:63 | the ordering lists each selected gadget exactly once, newest first |
| `GadgetController.Rows` | src/controllers/gadget.controller.ts:51-72 | each listed row is the stored gadget, its creator's email from the users join (NULL when there is none), and its own probability in [70, 100] |
| `GadgetController.GetGadgets` | src/controllers/gadget.controller.ts:47-78 | the listing returns exactly the matching gadgets (all of them without a truthy status): row i is the gadget stored under the i-th id of an ordering that names every selected id exactly once, with its creator's email; rows are newest first, the message is "Gadgets retrieved successfully", with `count` equal to the list length and each probability in [70, 100]; an unknown status gives the catch-all 500; the store is unchanged |
| `GadgetController.ListsExactlyMeans` | src/controllers/gadget.controller.ts:58-73 | every listed row is a stored gadget that matches the filter, carrying its creator's email, and every stored gadget that matches has a row |
| `GadgetController.InitialStatus` | src/controllers/gadget.controller.ts:90 | the stored status is `st` exactly when the field is absent and `st` is Available, or the field is the string naming `st`; null and any other string give no status |
| `GadgetController.CreateGadget` | src/controllers/gadget.controller.ts:89-132 | a falsy name gives 400 before the missing-user 401; success inserts one gadget under the new id with the caller as creator, both timestamps `now`, no decommission time, the requested or default status and the codename the uniqueness loop picks from the draws (the first of the first ten generations not already taken, else the eleventh), which is grammatical; the reply echoes it with a probability; a refused status or a taken id gives the catch-all 500; failures leave the store unchanged |
| `UpdateQuery.Qualifying` | src/controllers/gadget.controller.ts:162-178 | the columns written are exactly those whose presence test passes (truthy name, defined description, truthy status), each at most once |
| `UpdateQuery.PushIfShaped` | src/controllers/gadget.controller.ts:162-178 | each push appends `column = $k` with k one past the parameters so far, binding that column's own field |
| `UpdateQuery.AssembleShaped` | src/controllers/gadget.controller.ts:158-178 | after the three presence tests, the k-th SET entry is `$k` and binds `params[k-1]`, the value of its own field |
| `UpdateQuery.Build` | src/controllers/gadget.controller.ts:157-188 | no statement is built exactly when no field qualifies; otherwise SET assigns exactly the qualifying columns, each bound to its own request field, each `$k` in SET binds `params[k-1]`, the list ends with the `updatedAt` stamp, and the WHERE placeholder is `$n` with n the number of params, binding the id |
| `UpdateQuery.FinishBindsFields` | src/controllers/gadget.controller.ts:185-188 | appending the stamp and the id keeps every SET binding and makes the last placeholder the id's |
| `UpdateQuery.Patch` | src/controllers/gadget.controller.ts:162-178 | a partial update never changes the id, codename, creator, creation time or decommission time, and it stamps `updatedAt`; it fails exactly on a status the column refuses |
| `UpdateQuery.ApplyBuilt` | src/controllers/gadget.controller.ts:185-190 | running the built SET list on a row writes exactly what the field-by-field partial update says |
| `UpdateQuery.BuildExecutesPatch` | src/controllers/gadget.controller.ts:157-190 | the built statement, executed, changes only the row its WHERE id names, and changes it as the partial update says |
| `GadgetController.UpdateGadget` | src/controllers/gadget.controller.ts:143-199 | an unknown id gives 404 and no change; no qualifying field gives 400 and no change; otherwise the row becomes its partial update with `updatedAt = now`, and the reply carries it |
| `GadgetController.DeleteGadget` | src/controllers/gadget.controller.ts:211-239 | an unknown id gives 404; otherwise, whatever the prior status, the gadget becomes Decommissioned with decommission and update time `now`, and its other fields and all other gadgets are unchanged |
| `Confirmation.MatchRepeatExactly` | src/controllers/gadget.controller.ts:285 | the pattern `[A-Z0-9]{n}`, anchored at both ends, accepts exactly the strings of n upper-case letters or digits |
| `Confirmation.MatchesWellFormed` | src/controllers/gadget.controller.ts:285 | the confirmation check accepts exactly eight-character upper-case alphanumeric codes |
| `GadgetController.SelfDestruct` | src/controllers/gadget.controller.ts:251-310 | the guards run in order: unknown id gives 404; Destroyed gives 400 for any code; a falsy code gives the 400 challenge; a malformed code gives 400. None of these changes the store. A well-formed code destroys the gadget, stamps `updatedAt` and echoes the code |
| `GadgetProperties.CreatePreservesValid` | src/controllers/gadget.controller.ts:117-122 | creation keeps every gadget stored under its own id with a grammatical codename |
| `GadgetProperties.UpdatePreservesValid` | src/controllers/gadget.controller.ts:185-190 | an update keeps every gadget under its own id with a grammatical codename |
| `GadgetProperties.DeletePreservesValid` | src/controllers/gadget.controller.ts:224-232 | decommissioning keeps the store invariant |
| `GadgetProperties.SelfDestructPreservesValid` | src/controllers/gadget.controller.ts:294-301 | self-destruction keeps the store invariant |
| `GadgetProperties.DecommissionTwice` | src/controllers/gadget.controller.ts:214-232 | a second decommission succeeds as well, restamps the decommission time, and leaves what one decommission at the later time would |
| `GadgetProperties.DecommissionIdempotent` | src/controllers/gadget.controller.ts:224-232 | decommissioning twice at the same instant equals decommissioning once |
| `GadgetProperties.DestroyOnlyOnce` | src/controllers/gadget.controller.ts:267-270 | after a successful self-destruct, every further self-destruct request gets the 400 "already destroyed", whatever code it carries |
| `GadgetProperties.AnyWellFormedCodeAccepted` | src/controllers/gadget.controller.ts:284-301 | "AB12CD34" destroys a gadget that is not yet destroyed, although no challenge was issued |
| `GadgetProperties.ChallengeIsDecorative` | src/controllers/gadget.controller.ts:273-282 | the generated challenge code has no influence on the status code or the store |
| `GadgetProperties.MalformedCodesRefused` | src/controllers/gadget.controller.ts:285-291 | lower-case codes, seven-character codes and codes with a trailing newline get the format error |
| `GadgetProperties.UpdateWritesEmptyDescription` | src/controllers/gadget.controller.ts:162-183 | an empty or null description is written, an empty name and a null status are ignored, and a body with only those gives 400 |
| `GadgetProperties.CreateDroneX` | src/controllers/gadget.controller.ts:90-122 | creating "Drone X" as user 42 gives an Available gadget owned by 42 with a grammatical codename |
| `GadgetProperties.NameCheckedBeforeUser` | src/controllers/gadget.controller.ts:93-101 | with neither name nor user, the reply is the name's 400, not the user's 401 |
| `AuthController.WelcomeIgnoresPassword` | src/controllers/auth.controller.ts:47-55 | the success reply, user and token alike, is the same whatever the stored password hash is, so the hash never reaches the response |
| `AuthController.Signup` | src/controllers/auth.controller.ts:13-56 | missing fields give 400 and a taken email gives 400 "User already exists", both with no change; a serial id already in use gives the catch-all 500; success adds exactly one user, whose stored password is the hash of the submitted one |
| `AuthController.Login` | src/controllers/auth.controller.ts:63-103 | login never changes the store; missing fields give 400; an unknown email or a failed hash comparison gives the 401 "Invalid credentials"; otherwise 200 with the stored user's public fields and token |
| `AuthController.SignupPreservesWellKeyed` | src/controllers/auth.controller.ts:36-39 | signup keeps every user stored under its own email |
| `AuthController.SignupThenLogin` | src/controllers/auth.controller.ts:33-91 | if a password matches its own hash, logging in right after a signup with the same credentials returns 200 for the new user's id, email and creation time |
| `AuthController.SignupTwice` | src/controllers/auth.controller.ts:22-29 | a second signup with an already registered email returns 400 and creates no record |
| `AuthController.LoginFailuresIndistinguishable` | src/controllers/auth.controller.ts:76-88 | an unknown email and a wrong password give identical replies |
| `AuthController.MissingFieldsIgnoreStore` | src/controllers/auth.controller.ts:15-18 | a missing email or password gives the 400 of signup and login whatever the store holds (login repeats the check at lines 66-69) |

## Left out

- Route wiring, Swagger metadata, server bootstrap and the pg pool
  (`src/routes/gadget.routes.ts`, `src/config/swagger.ts`, `src/index.ts`,
  `src/config/db.ts`). These are transport and configuration, with no handler
  logic.
- The bearer-token middleware (`src/middleware/auth.middleware.ts`) is not part
  of this model. Its result is the `userId` parameter of `CreateGadget`.
- SQL execution, `NOW()` and `gen_random_uuid()`. They are replaced by the
  map stores, the `now` parameter and the `newId` parameter. Self-destruct's
  `destructionTime`, which comes from the JavaScript clock, uses the same `now`.
- `Math.random()` and `generateConfirmationCode`. Random draws are parameters,
  and the challenge code is an opaque string. The model does not say what that
  generator can produce, for example a code shorter than eight characters.
- bcrypt and jsonwebtoken internals, the salt-round count, and the
  `JWT_SECRET` check at module load (auth.controller.ts:7-11). They are folded
  into the `Crypto` functions.
- The concurrent check-then-insert race on codenames. The model is sequential.
- Logging, and the 500 replies caused by database or network failures. The
  only 500 replies modelled are the constraint violations described above.
- Request values that are not strings (numbers, booleans, objects, repeated
  query parameters). PostgreSQL's coercion of them is not modelled.
- Malformed UUIDs in the path. PostgreSQL rejects them with an error, which
  would give a 500. The model treats every id as a plain key.
- `Listing.OrderNewestFirst`: the order of gadgets with equal `createdAt` is
  left unspecified, because the SQL query leaves it unspecified.
- `GadgetController.GetGadgets`: a truthy status that is not one of the four
  names gives 500 because the model takes the status column to be a PostgreSQL
  enum type, whose input function rejects the literal. Were it a text column
  with a CHECK constraint, the query would succeed with an empty list; the
  schema is not part of the source.
- `AuthController.Signup`: the stored `createdAt` is `now` on the assumption
  that `users.created_at` defaults to the insert time; the INSERT
  (auth.controller.ts:36-39) does not set it and the schema is not part of the
  source.
- `AuthController.Signup` and `AuthController.Login`: one `now` serves both as
  the database's insert time and as the token's `iat`/`exp`, which jsonwebtoken
  takes from the JavaScript clock; the two clocks are not told apart.
- `GadgetController.GetGadgets`: the `creator_email` column is the lookup `CreatorEmail` in a given map of user emails (the contract states it), not a join
  against the auth model's user store.

# go-df-discord: the binding core in Dafny

go-df-discord links a Minecraft (Bedrock) account, identified by its XUID, to
a Discord account. A player asks the game server for a one-time code. The
code store issues a six-character code for the player's XUID. The player then
runs the `bind` slash command in Discord with that code. The bot checks the
code, records the binding (Discord ID, XUID) in the user repository and
revokes the code. `unbind` deletes the caller's binding. Errors meant for end
users are `ApplicationError`s. The first three digits of their five-digit
code are an HTTP status (40400 means 404).

This project models that core in Dafny and proves its contracts:

- `errors.dfy` (module `Errors`): `ApplicationError` and Go's `error` values.
  A non-nil `error` is `App(ApplicationError)` or `Internal(detail)`. A nil
  error is the `Ok`/`Pass` side of `Result`/`Outcome`.
- `utils.dfy` (module `Utils`): `ErrorPanic` and `GetNumberFirstDigits`,
  with `strconv.Itoa`/`Atoi` written out on decimal strings. A panic from the
  slice or from `ErrorPanic` after `Atoi` is the precondition
  `TakesFirstDigits`. `FirstDigitsDefinedIff` says exactly which inputs
  satisfy it.
- `codes.dfy` (module `Codes`): the in-memory code store. It is the class
  `DefaultCodeStore`, whose `codes` map field `Issue` and `Revoke` update in
  place. `findFreeCode` is a retry loop. `generateCode` fills and rewrites a
  byte array. The store's invariant `ValidCodes` states two things. Each key
  is a generated code equal to its entry's `Code`, and no two entries share
  an XUID.
- `repository.dfy` (module `Repository`): the binding table. The class
  `DefaultRepository` holds the table's rows in primary-key order. gorm's
  `First` picks the lowest matching row. The invariant `Unique` says Discord
  IDs are unique and XUIDs are unique.
- `service.dfy` (module `Service`): `Service` over a repository and a code
  store. `handlers` is the append-only handler slice. `notified` records, in
  order, every handler call `CreateUser` makes.
- `bot.dfy` (module `Bot`): the decision logic of the `bind` and `unbind`
  command handlers. It also holds a scenario of the whole flow: issue,
  bind, check, re-issue, unbind and look up.

Inputs the core takes from outside are parameters:

- the bytes `crypto/rand` returns, or its failure (`RandomRead`);
- the two `time.Now()` readings (`Time`, in nanoseconds);
- for every database call, whether the engine succeeds (`Storage`).
  With this, the error branches of the repository are modelled too.

Two behaviours of the code are kept as written:

- `Issue` returns `codes[xuid]`, a lookup by the XUID, not the new entry.
  For every XUID that is not itself a code, this is nil
  (`Codes.IssueReturnsNil`). So the `/codes/issue` route answers with a nil
  `info` (server/server.go:95-97), and the game plugin prints the `Code` of an
  empty record (examples/dragonfly.go:26-31).
- `CreateUser` inserts whenever its lookup is not a success, including when
  the lookup fails with an engine error. `Repository.LookupErrorBreaksUnique`
  shows that this can bind an identity twice. Uniqueness is therefore proved
  only for a lookup that succeeds.

## Model

| member | source | states |
|---|---|---|
| Errors.NewApplicationError | server/errors.go:10-15 | the error carries exactly the given code and message |
| Errors.ApplicationError.Error | server/errors.go:17-19 | `Error()` is the message, unchanged |
| Utils.ErrorPanic | utils/errors.go:7-11 | panics if and only if the error is non-nil, and then with that error |
| Utils.GetNumberFirstDigits | utils/errors.go:13-17 | where it does not panic, the result is the number with its trailing `len(Itoa(n)) - k` digits cut off (sign kept for negatives) |
| Utils.AtoiItoa | utils/errors.go:14 | `Atoi(Itoa(n))` gives `n` back with a nil error, for every integer |
| Utils.DecimalPrefix | utils/errors.go:14 | the first k characters of a natural number's decimal form are the decimal form of the number divided by 10^(len-k) |
| Utils.FirstDigitsDefinedIff | utils/errors.go:13-17 | GetNumberFirstDigits does not panic exactly when k is at most the length of `Itoa(n)` and takes at least one digit (two characters for a negative n) |
| Utils.FirstDigitsOfPositive | utils/errors.go:13-17 | for n >= 1 with at least k digits the call does not panic, the result has exactly k digits, and it is n itself when n has k digits |
| Utils.FiveDigitStatus | server/errors.go:4-6 | for every five-digit error code the status is the code divided by 100 |
| Utils.DocumentedStatuses | server/errors.go:4-5 | 40401 gives 404 and 50001 gives 500 |
| Utils.CoreStatuses | server/errors.go:4-6 | the two codes the core constructs, 40000 and 40400, give 400 and 404 |
| Codes.AlphabetShape | server/codes.go:88 | the alphabet has 33 characters and lacks J, U and W |
| Codes.AlphabetIsAscii | server/codes.go:88 | every alphabet character fits in one byte, so the byte rewrite is lossless |
| Codes.Render | server/codes.go:95-98 | the code has one character per random byte, each from the alphabet |
| Codes.GenerateCode | server/codes.go:87-101 | a failed read returns its error; otherwise the code is `Render` of the bytes read: length n, each character the alphabet at byte mod 33 |
| Codes.DefaultCodeStore.constructor | server/codes.go:27-31 | the new store is empty and valid |
| Codes.DefaultCodeStore.GetInformation | server/codes.go:33-39 | the stored entry if and only if the code is a key, else 40400 "Code doesn't exist" |
| Codes.DefaultCodeStore.GetForXuid | server/codes.go:41-48 | an entry with that XUID if and only if one exists, else 40400 "There is no code for this XUID" |
| Codes.DefaultCodeStore.FindFreeCode | server/codes.go:74-85 | returns the code of the first draw that is free, a generated code that is not a key |
| Codes.DefaultCodeStore.Issue | server/codes.go:50-63 | keeps the invariant; with an entry for the XUID it fails with 40000 naming that code and changes nothing, otherwise it stores one entry under the first free code and returns `codes[xuid]` |
| Codes.DefaultCodeStore.Revoke | server/codes.go:65-72 | keeps the invariant; deletes exactly that key, or fails with 40400 and changes nothing |
| Codes.IssueKeepsValid | server/codes.go:50-63 | Issue preserves ValidCodes |
| Codes.IssueAddsOne | server/codes.go:55-61 | a successful Issue adds exactly one fresh generated key, whose entry names it and the XUID, and leaves every other entry unchanged |
| Codes.IssueExpiry | server/codes.go:59-60 | with the two clock readings in order, the new entry expires at least 15 minutes after its issue time |
| Codes.IssueReturnsNil | server/codes.go:62 | in a valid store, Issue for an XUID that is not a code returns nil on success |
| Codes.IssueTwiceConflicts | server/codes.go:50-54 | a second Issue for the same XUID fails with 40000 naming the first code, which stays in the store |
| Codes.RevokeKeepsValid | server/codes.go:65-72 | Revoke preserves ValidCodes |
| Codes.RevokeTwiceFails | server/codes.go:65-72 | after a revoke the code is gone, and a second revoke fails with 40400 and changes nothing |
| Repository.ToUser | server/repository.go:28-33 | copies the Discord ID and the XUID unchanged |
| Repository.FirstIndex | server/repository.go:56 | the lowest row the WHERE clause selects, or none when no row matches |
| Repository.GetUserBy | server/repository.go:54-76 | a user of a row holding the value if and only if one exists (lookup succeeding), 40400 "User not found" otherwise, the engine's error when the lookup fails |
| Repository.Drop | server/repository.go:101 | the remaining rows are exactly those whose column does not hold the value, and form a sub-multiset of the table, so no row is duplicated even in a table with duplicates |
| Repository.GetUserFindsTheRow | server/repository.go:54-76 | in a table with unique columns, looking up a row's identity returns that row |
| Repository.CreateRefusesIff | server/repository.go:80-83 | CreateUser refuses exactly when some row binds the Discord ID or the XUID and the lookup succeeds |
| Repository.CreateKeepsUnique | server/repository.go:78-91 | CreateUser keeps both columns unique when its lookup succeeds |
| Repository.LookupErrorBreaksUnique | server/repository.go:80-81 | when the lookup fails, CreateUser inserts a second row for an identity already bound |
| Repository.CreateTwiceConflicts | server/repository.go:78-91 | after a successful CreateUser, a second one with the same Discord ID or XUID fails with 40000 and changes nothing |
| Repository.DropKeepsUnique | server/repository.go:101 | deleting rows keeps both columns unique |
| Repository.DropTheRow | server/repository.go:101 | in a unique table, deleting a row's identity removes exactly that row and keeps the others in order |
| Repository.DeleteKeepsUnique | server/repository.go:93-115 | both deletes preserve uniqueness |
| Repository.UnbindFreesXuid | server/repository.go:93-103 | after deleting a Discord ID, the XUID it was bound to is not found |
| Repository.DefaultRepository.constructor | server/repository.go:39-52 | the repository holds the stored rows |
| Repository.DefaultRepository.GetUserByDiscord | server/repository.go:54-64 | a row with that Discord ID if and only if one exists; else 40400 or the engine's error |
| Repository.DefaultRepository.GetUserByXUID | server/repository.go:66-76 | a row with that XUID if and only if one exists; else 40400 or the engine's error |
| Repository.DefaultRepository.CreateUser | server/repository.go:78-91 | refuses with 40000 when the lookup finds a row, returns the insert's error, or appends exactly the row (d, x) and returns that user; keeps uniqueness when the lookup succeeds |
| Repository.DefaultRepository.DeleteUserByDiscord | server/repository.go:93-103 | the lookup's error (40400 when absent), otherwise the rows with that Discord ID removed (unless the delete fails) and nil; keeps uniqueness |
| Repository.DefaultRepository.DeleteUserByXUID | server/repository.go:105-115 | the same on the XUID column |
| Service.Notifications | server/service.go:52-54 | one call per registered handler, in order, each with the new user |
| Service.Service.constructor | server/service.go:11-13 | the service over the given repository and store, with no handlers |
| Service.Service.AddHandler | server/service.go:15-17 | appends the handler and keeps the earlier ones in order |
| Service.Service.IssueCode | server/service.go:19-25 | a bound XUID fails with 40000 "Minecraft account is already bound to ID d" and leaves the store unchanged; otherwise it is exactly the store's Issue |
| Service.Service.CheckCode | server/service.go:27-33 | the code's entry if and only if it is a key, else 40400; reads only |
| Service.Service.RevokeCode | server/service.go:35-37 | exactly the store's Revoke |
| Service.Service.GetUserByXUID | server/service.go:39-41 | exactly the repository's lookup |
| Service.Service.GetUserByDiscord | server/service.go:43-45 | exactly the repository's lookup |
| Service.Service.CreateUser | server/service.go:47-56 | exactly the repository's CreateUser; on success every handler is called once, in order, with the new user, on failure none is |
| Service.Service.DeleteUserByDiscord | server/service.go:58-60 | exactly the repository's delete |
| Service.Service.DeleteUserByXUID | server/service.go:62-64 | exactly the repository's delete |
| Bot.ReplyFor | server/bot.go:51-56 | an ApplicationError replies with its message, any other error with "Something went wrong" |
| Bot.Bot.constructor | server/bot.go:16-26 | the bot holds the given service |
| Bot.Bot.Bind | server/bot.go:49-69 | an unknown code replies 40400's message and changes nothing; a refused binding replies "Either discord or XUID are already bound", a failed insert replies "Something went wrong", and both keep the code and the table; otherwise the member is bound to the code's XUID, handlers are notified, the code is gone and the reply is the success text |
| Bot.Bot.Unbind | server/bot.go:70-81 | a failed lookup replies "Something went wrong", an unbound member gets "User not found", otherwise the reply is the success text, and the member's rows are deleted unless the delete itself fails, in which case the table is unchanged |
| Bot.IssueThenBind | server/bot.go:49-69 | on an empty store and table, for an XUID whose length is not the code length (so it cannot be a code key and Issue returns nil), issuing a code and binding with it leaves exactly the one binding and an empty store |
| Bot.AfterBinding | server/bot.go:49-81 | after a bind the code is unknown, re-issuing for the XUID fails naming the member, and after unbind the XUID is not found |
| Bot.BindUnbindScenario | server/bot.go:49-81 | the whole issue, bind, check, re-issue, unbind and look-up flow gives the expected result at each step |

## Left out

- server/server.go (gin routes, the shared-secret middleware, the recover middleware), client/api.go, examples/ and server/opts.go are not part of this model. They are transport, configuration and I/O. The status they compute from an error code is `GetNumberFirstDigits`, which is modelled.
- Discord session plumbing in server/bot.go is left out: opening the session, registering commands, building the option map and sending the reply. The invoking member's ID and the `code` option are parameters. A missing `code` option, which would dereference nil, is not modelled.
- NewBot's opening of the Discord session and NewDefaultRepository's opening and migrating of the sqlite file are not modelled. The repository is built over the rows already stored.
- gorm's `Model` columns (ID, timestamps, soft delete) are not modelled. A row's ID is its position, and a deleted row is gone.
- Concurrency is not modelled. The code has no locks, and every operation here runs sequentially.
- Expiry is recorded but never checked by the code, so no expiry behaviour is modelled. Randomness quality and the modulo bias of `byte % 33` are not analysed.
- Codes.DefaultCodeStore.FindFreeCode: the unbounded retry loop and the panic on a failed random read are left out. The precondition `FindsFree` asks that some draw gives a free code before any read fails.
- Codes.DefaultCodeStore.Issue: time is a plain integer of nanoseconds with no monotonic clock, and `Issued` and `Expires` are not time.Time values.
- Utils.Atoi: the error detail quotes the input as written. Go's `strconv.Quote` escaping of non-printable characters is not modelled.
- Utils.GetNumberFirstDigits: Go's 64-bit `int` and `Atoi`'s out-of-range error are not modelled. Integers are unbounded, and a prefix of a valid `Itoa` result is never out of range, because its magnitude is at most that of the input.
- Repository.DefaultRepository.DeleteUserByDiscord and Repository.DefaultRepository.DeleteUserByXUID: the `errors.Is(err, gorm.ErrRecordNotFound)` branch at server/repository.go:96-98 and 108-110 is not modelled separately. `GetUserBy*` never returns that error, because it has already turned "not found" into a 40400 ApplicationError, so the branch is dead. The model returns the lookup's error, which is what the code does.
- Registered `NewUserHandler` bodies are opaque. `Service.notified` records the calls in order, and what a handler does is not modelled.

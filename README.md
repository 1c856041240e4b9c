# timetick-telegram-bot, modelled in Dafny

This project models the core of a small time-tracking service written in Go.
Authorised Telegram users start and stop a timer:
- `/start <note>` starts one directly.
- A bare `/start` asks for a note in the next message; the answer `x` means no note.

Each timer is a row of an SQLite `entries` table. An HTTP API lets a client holding a bearer token do two things:
- fetch the entries that have not been imported yet;
- mark a batch of entries as imported.

The model has five modules, one file each:

- `Wrappers` (`wrappers.dfy`): the `Option` type.
- `Helpers` (`helpers.dfy`): `convertStringToIntArray`, which turns the comma-separated allow-list into 64-bit integers. It comes with the parts of Go's `strings` and `strconv` it relies on. `strconv.FormatInt` is included as the partner of the parser, because the bot uses it to render user ids.
- `Store` (`store.dfy`): the `entries` table.
  - Every operation of `db.go` is first a pure transition function from the old table to an outcome: `StartTransition`, `StopTransition`, `ImportTransition`, `CheckEntryResult` and `Unimported`.
  - The class `Database` then performs the operations in place on its fields. Each method is proved to agree with its transition function.
  - The table's invariants (`WellFormed`) are proved preserved. They are increasing ids below the AUTOINCREMENT counter, active exactly while not ended, and at most one active entry per user.
  - So is the lifecycle of a row (`Evolves`): rows are only appended, a row's identity never changes, an ended row stays ended, and an import, once stamped, stays.
- `Api` (`api.dfy`):
  - the authentication middleware, as a decision (`AuthDecide`) plus a method that also updates the token's `last_used_at`;
  - the list handler;
  - the mark handler, whose loop over the ids is specified by the fold `MarkBatch`;
  - `Serve`, which puts a handler behind the middleware.
- `TelegramBot` (`bot.dfy`):
  - the bot as a state machine over the pending-note markers and the table;
  - `Step` handles one update and `Run` folds `Step` over a stream of updates;
  - the class `Bot` keeps the markers in a `map` field, drives the `Database`, and is proved to agree with `Step` and `Run`.

The clock, the SQL connection and the hash function are not part of the model:
- every operation that stamps a time takes it as a parameter `now`;
- every storage call takes a `Fault` saying whether its query (`Query`/`QueryRow`) or its write (`Exec`) fails;
- SHA-256 is a function parameter `hash`.

Where the code and the obvious reading of the system differ, the model follows the code:
- A bare `/start` followed by `/stop` does not stop anything. While the marker is pending, the next message is taken as the note, so the text "/stop" becomes the note of a new, running entry (`TelegramBot.StartThenStop`). One could expect a stopped entry with an empty note instead.
- The second result of `CheckEntry` is declared `isImported`, but its value is `unimported == 1`, and its caller reads it as "is unimported". The model calls it `isUnimported`.
- For an id with no row, `checkEntrySQL` is an aggregate over zero rows. The bare `imported_at` column then reads as `NULL`, so the `CASE` column is 1 and the probe answers (not present, unimported). Only the first half is read, because the caller skips absent ids first.
- `remaining_count` is the number of unimported rows before the batch, not after it (`Api.MarkResponseCounts`).

## Model

| member | source | states |
|---|---|---|
| Helpers.TrimLeft | helpers.go:26 | never lengthens its input |
| Helpers.TrimRight | helpers.go:26 | never lengthens its input |
| Helpers.TrimSpace | helpers.go:26 | never lengthens its input |
| Helpers.TrimLeftSpec | helpers.go:26 | the result is a suffix of the input, everything dropped is white space, and the result does not start with white space |
| Helpers.TrimRightSpec | helpers.go:26 | the result is a prefix of the input, everything dropped is white space, and the result does not end with white space |
| Helpers.TrimSpaceSpec | helpers.go:26 | the result is a contiguous part of the input, exactly the surrounding white space is dropped, and the part kept neither starts nor ends with white space |
| Helpers.TrimSpaceKeepsTrimmed | helpers.go:26 | a string without surrounding white space is unchanged |
| Helpers.SurroundingSpaceIgnored | helpers.go:26 | a piece padded on either side with white space trims to, and parses as, the piece itself |
| Helpers.Split | helpers.go:23 | strings.Split on ",": one piece more than there are commas (the empty string gives one empty piece), and no piece holds a comma |
| Helpers.JoinSplit | helpers.go:23 | joining the pieces with commas gives back the input |
| Helpers.SplitCommaFreePrefix | helpers.go:23 | a comma-free prefix extends the first piece of what follows it |
| Helpers.SplitJoin | helpers.go:23 | splitting what was joined gives back the pieces, for one or more comma-free pieces |
| Helpers.ParseInt64 | helpers.go:28 | a parsed value is within the signed 64-bit range, and the empty string is rejected |
| Helpers.ParseInt64Shape | helpers.go:28 | an accepted text is an optional sign followed by one or more decimal digits, and a negative value has a minus sign |
| Helpers.ParseInt64Digits | helpers.go:28 | an optional sign followed by one or more digits is accepted exactly when its value is within the signed 64-bit range, and then has that value |
| Helpers.FormatNat | bot.go:93 | the decimal rendering is non-empty and digits only |
| Helpers.FormatInt | bot.go:93 | the rendering is non-empty, holds no comma and has no white space at either end |
| Helpers.DigitsValueFormatNat | bot.go:93 | the digits of a rendering have the rendered value |
| Helpers.ParseFormatInt | helpers.go:28 | ParseInt(FormatInt(x)) == x for every 64-bit x |
| Helpers.FormatIntInjective | bot.go:149 | distinct user ids render as distinct strings, so the decimal ids the store keys rows by identify users |
| Helpers.ParsedPiece | helpers.go:26-34 | one piece contributes at most one value |
| Helpers.ParsedPieces | helpers.go:20-38 | at most one value per piece, each within the 64-bit range |
| Helpers.AllowListOf | helpers.go:20-38 | no ensures; the values of the comma-separated pieces that parse after trimming; AllowListBounds, EmptyAllowList and FormatParseRoundTrip state its properties, and ConvertStringToIntArray is proved equal to it |
| Helpers.ConvertStringToIntArray | helpers.go:20-38 | the loop returns the values of the pieces that parse after trimming, in input order, skipping the others (AllowListOf) |
| Helpers.AllowListBounds | helpers.go:20-38 | at most one value per comma-separated piece, each a 64-bit integer |
| Helpers.ParsedPiecesNoneValid | helpers.go:29-32 | when no piece parses the result is empty |
| Helpers.InvalidPieceSkipped | helpers.go:29-32 | a piece that does not parse (the empty piece included) contributes nothing, and the scan goes on |
| Helpers.EmptyAllowList | helpers.go:23-37 | the empty setting gives the empty list |
| Helpers.PieceRoundTrip | helpers.go:26-28 | a rendered 64-bit integer survives trimming and parses back to itself |
| Helpers.ParsedPiecesPointwise | helpers.go:25-35 | pieces that each parse to one value yield those values, in order |
| Helpers.ParsedFormatted | helpers.go:25-35 | parsing the renderings of a list of 64-bit integers gives the list back |
| Helpers.FormatParseRoundTrip | helpers.go:20-38 | rendering 64-bit integers, joining them with commas and parsing the result gives the same list, also for the empty list |
| Helpers.DocExample | helpers.go:14-19 | "123,456,789" parses to [123, 456, 789] |
| Store.EmptyTableWellFormed | db.go:26-36 | a fresh table satisfies the table invariants |
| Store.HasActive | db.go:44 | no ensures; hasActiveEntrySQL's COUNT is positive exactly when the user has an active row; FindActive, StartErrors and StopErrors state it |
| Store.FindActive | db.go:42 | getActiveEntrySQL with LIMIT 1: none exactly when the user has no active row; otherwise the first active row of the user |
| Store.ActiveRowUnique | db.go:42 | under the invariants, a user's active row is the one the lookup finds |
| Store.Unimported | db.go:39 | no more rows than the table |
| Store.UnimportedMembers | db.go:39 | the result holds exactly the rows whose imported_at is unset |
| Store.UnimportedEmpty | db.go:39 | nothing is unimported exactly when every row has been stamped |
| Store.UnimportedIdsIncreasing | db.go:39 | the unimported rows keep the table's increasing ids, so no id occurs twice among them |
| Store.CheckEntryResult | db.go:112-120 | no ensures; CheckEntryMeaning states it, and Store.Database.CheckEntry is proved equal to it |
| Store.CheckEntryMeaning | db.go:112-120 | a successful probe of an existing id reports it present, and unimported exactly when that row's imported_at is unset |
| Store.StartTransition | db.go:123-141 | no ensures; StartErrors, StartAppendsFreshRow, StartPreservesWellFormed and StartEvolves state it |
| Store.StartErrors | db.go:123-141 | the "already started" error comes exactly for a user with an active row; every refused start leaves the table alone; a start succeeds exactly when the user is idle, the store works and the counter is in range |
| Store.StartAppendsFreshRow | db.go:123-141 | a successful start appends one active, unended, unimported row with the user, note and time, and an id above every earlier id, and keeps every earlier row |
| Store.StartPreservesWellFormed | db.go:123-141 | a start keeps the table invariants, among them at most one active row per user |
| Store.StopTransition | db.go:144-166 | no ensures; StopErrors, StopEndsActiveRow, StopPreservesWellFormed and StopEvolves state it |
| Store.StopErrors | db.go:144-166 | "no active entry" comes exactly for an idle user; every refused stop leaves the table alone and returns the zero Entry; a stop succeeds exactly when the user has an active row and the store works |
| Store.StopEndsActiveRow | db.go:144-166 | a successful stop changes only the user's active row, which gets the end time and is no longer active; the snapshot carries id, user and start time, but an empty note and no import time |
| Store.StopPreservesWellFormed | db.go:144-166 | a stop keeps the table invariants |
| Store.StampRows | db.go:40 | every row with the id gets the import time, and every other row is unchanged |
| Store.ImportTransition | db.go:103-109 | no ensures; ImportTouchesOnlyItsRow, ImportThenCheck, ImportPreservesWellFormed and ImportEvolves state it, and StampRowsCount its effect on the unimported count |
| Store.ImportTouchesOnlyItsRow | db.go:103-109 | the update fails exactly on a write fault; it changes only the rows with the id, re-stamping them even when already imported, and an unknown id changes nothing and is no error |
| Store.ImportThenCheck | db.go:40-41 | after an id is marked, probing it reports it present and imported |
| Store.ImportPreservesWellFormed | db.go:103-109 | marking keeps the table invariants |
| Store.StampRowsCount | db.go:39-40 | marking an existing unimported id lowers the number of unimported rows by one; any other mark leaves it alone |
| Store.EvolvesTransitive | db.go:26-44 | the lifecycle relation between tables composes |
| Store.StartEvolves | db.go:123-141 | a start only appends |
| Store.StopEvolves | db.go:144-166 | a stop keeps ids, users, start times, notes and import stamps, and never reopens an ended row |
| Store.ImportEvolves | db.go:103-109 | marking keeps everything but import stamps, and never clears one |
| Store.TokenLookup | api.go:52-53 | in a table keyed by hash, a token is found exactly when the query works and some stored token has the hash; the token found has that hash and is a stored token |
| Store.TouchTokens | api.go:58 | the tokens with the id get last_used_at now; every other field, every other token and the set of hashes stay as they were |
| Store.Database.constructor | db.go:47-68 | opening the store gives the persisted table and tokens as they were left, which must satisfy the invariants; a new file is the empty table (EmptyTableWellFormed) |
| Store.Database.HasActiveEntry | db.go:170-177 | on a failed query: false and the "Failed to check active entry" error; otherwise whether the user has an active row |
| Store.Database.GetActiveEntry | db.go:181-197 | on a failed query: the error; no row: not found and no error; otherwise the selected columns of the first active row of the user |
| Store.Database.StartTracking | db.go:123-141 | the error and the new table are those of StartTransition, and the invariants are kept |
| Store.Database.StopTracking | db.go:144-166 | the error, the snapshot and the new table are those of StopTransition, and the invariants are kept |
| Store.Database.GetUnimportedEntries | db.go:71-100 | on a failed query: nothing and the "Error querying entries" error; otherwise exactly the unimported rows, in table order |
| Store.Database.UpdateEntryImportStatus | db.go:103-109 | the error and the new table are those of ImportTransition, and the invariants are kept |
| Store.Database.CheckEntry | db.go:112-120 | the probe's three results are those of CheckEntryResult |
| Store.Database.GetApiTokenByHash | api.go:52 | the token found is TokenLookup's: found exactly when the query works and some stored token has the hash, and the token found has that hash |
| Store.Database.UpdateApiTokenLastUsed | api.go:58-60 | the entries table is unchanged; on a write fault an error and no change, otherwise the tokens become TouchTokens': the token with the id gets last_used_at now and nothing else changes |
| Api.FirstSpace | api.go:42 | none exactly when there is no space; otherwise the position of the first space |
| Api.SplitFirstSpace | api.go:42 | strings.SplitN(s, " ", 2): the whole text when it has no space; otherwise the text before and after the first space, which rejoin to the input |
| Api.ToLowerAscii | api.go:43 | lowering keeps the length |
| Api.ParseAuthHeader | api.go:35-46 | no ensures; ParseAuthHeaderAccepts and ParseAuthHeaderSound state when a header is accepted and with which secret, HeaderRejectedWithoutLookup its rejections |
| Api.ParseAuthHeaderAccepts | api.go:42-48 | a scheme that lowers to "bearer", one space and any secret is accepted, and the secret is everything after that first space |
| Api.ParseAuthHeaderSound | api.go:42-48 | an accepted header starts with six letters that lower to "bearer" and a space, and the secret is the rest |
| Api.AuthDecide | api.go:32-56 | no ensures; HeaderRejectedWithoutLookup, AuthAcceptsExactly, UnknownAndInactiveIndistinguishable and TouchKeepsAdmission state it, and AuthMiddleware is proved to decide as it does |
| Api.HeaderRejectedWithoutLookup | api.go:35-46 | a missing header gets MISSING_TOKEN and a malformed one INVALID_TOKEN with its message, both decided without the token table, the hash or the store |
| Api.AuthAcceptsExactly | api.go:32-64 | a request passes exactly when the header is well formed, the lookup works and the secret's hash names an active token, which is the token handed on; every rejection is 401 |
| Api.UnknownAndInactiveIndistinguishable | api.go:52-55 | an unknown token and an inactive one get the very same response |
| Api.TouchKeepsAdmission | api.go:58-64 | stamping last_used_at never changes whether a later request with the same header is admitted, and leaves every rejection as it was |
| Api.AuthMiddleware | api.go:32-66 | the decision is AuthDecide's; the entries table is unchanged; the token's last_used_at is updated exactly for an accepted request whose update does not fail, and a failed update does not change the decision |
| Api.ListResponse | api.go:140-160 | no ensures; ListResponseMeaning states it, and GetUnimportedEntries is proved equal to it |
| Api.ListResponseMeaning | api.go:140-160 | with the query working, the answer is the "nothing to import" error exactly when every row is imported; a success lists exactly the unimported rows, with their number as total |
| Api.GetUnimportedEntries | api.go:140-160 | the answer is ListResponse of the table: 500 FAILED_FETCH on a failed query, 404 NO_ENTRIES_TO_IMPORT when empty, else 200 with total and entries |
| Api.MarkOne | api.go:195-219 | no ensures; MarkOneCount, MarkOneMarks, MarkOneSettles, MarkOneKeepsOthers and MarkOneMonotone state it |
| Api.MarkOneCount | api.go:195-219 | one pass keeps the invariants and the lifecycle, and what it counts it takes off the unimported rows |
| Api.MarkOneMarks | api.go:195-219 | one pass either counts nothing and changes nothing, or counts its id, which was unimported and now is imported |
| Api.MarkOneSettles | api.go:195-219 | without a fault, a pass leaves its id not unimported |
| Api.MarkOneKeepsOthers | api.go:195-219 | a pass keeps which ids exist and changes no other id's import status |
| Api.MarkOneMonotone | api.go:195-219 | a pass never makes an id unimported and never undoes an import |
| Api.MarkBatch | api.go:194-219 | no ensures; BatchNeverUnimports, MarkBatchCount, MarkedWereUnimported, MarkedImported, MarkedDistinct, ImportedAreMarked, MarkBatchLeavesNoneUnimported, MarkBatchWithoutFaults, MarkBatchSettled and MarkBatchReplay state it |
| Api.BatchNeverUnimports | api.go:194-219 | the batch never makes an id unimported |
| Store.EvolvesKeepsImported | api.go:194-219 | along the lifecycle, ids keep existing and imports stay |
| Api.MarkBatchCount | api.go:194-219 | the batch keeps the invariants and lifecycle; counted ids plus rows still unimported equal the rows unimported before; counting nothing changes nothing |
| Api.MarkedWereUnimported | api.go:194-219 | every counted id was asked for and was unimported before the batch |
| Api.MarkedImported | api.go:194-219 | every counted id is imported afterwards |
| Api.MarkedDistinct | api.go:194-219 | no id is counted twice, however often it is listed |
| Api.ImportedAreMarked | api.go:194-219 | every row the batch imports is counted |
| Api.MarkBatchLeavesNoneUnimported | api.go:194-219 | without faults, no listed id is left unimported |
| Api.MarkBatchWithoutFaults | api.go:194-219 | without faults, the counted ids are exactly the listed ids that were unimported, and none of the listed ids stays unimported |
| Api.MarkBatchSettled | api.go:194-219 | a batch none of whose ids is unimported counts nothing and changes nothing |
| Api.MarkBatchReplay | api.go:194-219 | replaying a batch that met no faults counts nothing and changes nothing, whatever faults the replay meets |
| Api.MarkResponse | api.go:162-228 | no ensures; MarkResponseCounts, MarkResponseEarlyExits and MarkExample state it, and MarkEntriesAsImported is proved equal to it |
| Api.MarkResponseCounts | api.go:179-227 | remaining_count is the unimported count before the call; imported_count is between 0 and it; afterwards exactly their difference is unimported |
| Api.MarkResponseEarlyExits | api.go:172-191 | an empty batch is 400 MISSING_PARAMS before the store is read; a failed fetch writes no response; nothing unimported is 404 NO_ENTRIES_TO_IMPORT; none changes the table |
| Api.MarkBatchOfThree | api.go:195-219 | a batch of three ids is three passes, in order |
| Api.MarkOnlyUnimported | api.go:195-219 | of a batch [x, y, z], where x is unimported, y imported and z absent, only x is counted |
| Api.MarkExample | api.go:162-228 | marking [1, 2, 3], where 2 is imported and 3 is absent, answers imported_count 1 and the pre-call unimported count |
| Api.MarkEntriesAsImported | api.go:162-228 | the loop's answer and new table are MarkResponse's, and the invariants are kept |
| Api.RouteOutcome | api.go:68-76 | no ensures; RouteErrorsChangeNothing states it, and Serve is proved to answer an accepted request with it |
| Api.RouteErrorsChangeNothing | api.go:162-191 | only a 200 answer changes the table; an undecodable body is the one plain-text 400 answer |
| Api.Serve | api.go:68-76 | a rejected request gets the middleware's response and changes no entry; an accepted one gets the route's answer and table, whatever the last_used update did; the tokens are stamped only for an accepted request whose update does not fail |
| TelegramBot.AllowList | bot.go:29-32 | no ensures; AllowListAuthorization states it, and Bot.constructor is proved to build it |
| TelegramBot.IsAuthorized | bot.go:115-124 | no ensures; AllowListAuthorization states it |
| TelegramBot.AllowListAuthorization | bot.go:115-124 | an empty list lets everyone in; otherwise exactly the listed ids |
| TelegramBot.StartedReplies | bot.go:100-104 | with no note the reply equals the reply to /start with arguments; with one, it quotes the note before the /stop hint |
| TelegramBot.UnauthorizedChangesNothing | bot.go:60-64 | an unauthorised message changes nothing and the reply tells the sender their id |
| TelegramBot.HasPendingNote | bot.go:81-84 | no ensures; PendingNoteWins, PendingNoteEffects and BareStartPrompts state how the marker it tests is set, read and dropped |
| TelegramBot.PendingNoteWins | bot.go:66-76 | while a marker is pending the message is the note whether or not it is a command, and it never reaches handleCommand |
| TelegramBot.PendingNoteStep | bot.go:87-108 | no ensures; PendingNoteEffects and PendingNotePreservesInvariant state it, and Bot.ProcessPendingNote is proved equal to it |
| TelegramBot.PendingNoteEffects | bot.go:87-108 | a note always drops its sender's marker and only that one; it starts tracking for the sender's decimal id; a store error is relayed verbatim |
| TelegramBot.NoteOf | bot.go:88-91 | no ensures; NoteRule states it |
| TelegramBot.NoteRule | bot.go:88-91 | "x" and only "x" (besides the empty text) means no note; other text is the note verbatim |
| TelegramBot.CommandStep | bot.go:145-183 | no ensures; StartCommandEffects, StopCommandEffects, StopNeverClearsAMarker and CommandPreservesInvariant state it, and Bot.HandleCommand is proved equal to it |
| TelegramBot.StartCommandEffects | bot.go:154-165 | /start without arguments only sets the marker; with arguments it starts tracking with them as the note, relays an error, and leaves the markers |
| TelegramBot.StopCommandEffects | bot.go:166-173 | /stop stops the active entry and drops the marker only on success; an error is relayed and keeps the markers |
| TelegramBot.StopNeverClearsAMarker | bot.go:166-173 | /stop reaches handleCommand only without a marker, so its delete never changes the markers |
| TelegramBot.QuietUpdates | bot.go:50-77 | updates without a message, non-commands, /help and unknown commands change neither the markers nor the store |
| TelegramBot.PendingNotePreservesInvariant | bot.go:87-108 | a note keeps the bot invariant and the table's lifecycle |
| TelegramBot.CommandPreservesInvariant | bot.go:145-183 | a command keeps the bot invariant and the table's lifecycle |
| TelegramBot.Step | bot.go:50-77 | no ensures; UnauthorizedChangesNothing, PendingNoteWins, QuietUpdates and StepPreservesInvariant state it, and Bot.HandleUpdate is proved equal to it |
| TelegramBot.StepPreservesInvariant | bot.go:50-77 | every update keeps the bot invariant and the lifecycle |
| TelegramBot.Run | bot.go:42-78 | no ensures; RunPreservesInvariant states it, and Bot.Start is proved equal to it |
| TelegramBot.RunPreservesInvariant | bot.go:42-78 | any stream of updates keeps the bot invariant, so no user ever has two active entries, and the table only evolves |
| TelegramBot.BareStartPrompts | bot.go:154-159 | a bare /start only sets the marker and prompts |
| TelegramBot.StartThenStop | bot.go:66-76 | bare /start then /stop gives a new running entry whose note is "/stop" |
| TelegramBot.StartWithoutNote | bot.go:87-104 | bare /start then "x" starts an entry without a note, with the reply of a start with arguments |
| TelegramBot.Bot.constructor | bot.go:29-39 | the allow-list holds the configured ids with true, and there are no markers |
| TelegramBot.Bot.ProcessPendingNote | bot.go:87-108 | the new state and the text sent are PendingNoteStep's, the invariant is kept, and the token table is unchanged |
| TelegramBot.Bot.HandleCommand | bot.go:145-183 | the new state and the text sent are CommandStep's, the invariant is kept, and the token table is unchanged |
| TelegramBot.Bot.HandleUpdate | bot.go:50-76 | the new state and the text sent, if any, are Step's, the invariant is kept, and the token table is unchanged |
| TelegramBot.Bot.Start | bot.go:42-78 | after a stream of updates, the state and the texts sent are Run's, the invariant is kept, and the token table is unchanged |

## Left out

- main.go is not part of this model: configuration, environment variables and process start-up are outside the core.
- Concurrency: the HTTP server and the bot loop run at the same time over one database, and `pendingNotes` is an unsynchronised map. The model handles one request or update at a time.
- Telegram transport: connecting, long polling, chat and message ids, replying to a message, and send failures. A reply is its text.
- Telegram's command parsing: an update arrives with its command already split into name and arguments.
- HTTP and JSON plumbing: routing by method and path, headers, and encoding of the response body. A response is its status, error code and message, or its data. `NoResponse` stands for a handler that returns without writing, which net/http then answers with an empty 200.
- JSON decoding of the mark request: a body arrives either as its `entry_ids` or as undecodable (`Api.Route`). Go decodes `entry_ids` as `[]int64`, so a body with an id outside the signed 64-bit range is undecodable and arrives as `None`; the model does not forbid such ids inside `Some`, which stands for no body Go would decode.
- The SQL engine: SQLite is replaced by an in-memory table that behaves as the statements in db.go do. Results come out in table order.
- Driver error texts: a storage failure's text is the context db.go puts in front of the driver's error (`Store.ErrorText`). The driver's own text is not modelled.
- Storage failures: each statement fails or not as the `Fault` parameter says. One fault per store call, or per id in a batch; a query fault hits the probe and a write fault hits the update.
- The clock: `time.Now()` and `CURRENT_TIMESTAMP` are the parameter `now`. One reading serves a whole call, or a whole batch.
- SHA-256 and `GenerateToken` (helpers.go:41-61): the hash is a function parameter, and token generation draws on crypto/rand.
- Store.Database.GetApiTokenByHash and Store.Database.UpdateApiTokenLastUsed: db.go and api.go call them but do not define them. They are modelled by what api.go relies on: a lookup in a hash-keyed token table, and a best-effort `last_used_at` update.
- Logging: every `log.Printf` is left out, since none of them changes state or a reply.
- Helpers.TrimSpace: only ASCII white space is trimmed. Go's strings.TrimSpace also trims Unicode spaces.
- Api.ToLowerAscii: only ASCII letters are lowered. Go's strings.ToLower also lowers other letters, and two of them lower to ASCII letters (the Kelvin sign U+212A to 'k', U+0130 to 'i'); neither 'k' nor 'i' occurs in "bearer", so the comparison with "bearer" is unaffected.
- Helpers.ParseInt64: Go's error values (syntax versus range) are merged into one failure, because the caller only skips the piece.
- Error codes that no handler uses (`INVALID_REQUEST`, `INTERNAL_ERROR`, `NO_ENTRIES`, `ENTRY_NOT_FOUND`, `IMPORT_FAILED`) are left out of `Api.ErrorCode`.
- The context value carrying the accepted token to the handler is modelled as the `Accepted` decision. The handlers do not read it.

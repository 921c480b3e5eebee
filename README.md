# User store lecture exercises, modelled in Dafny

The repository is a series of small TypeScript backend exercises. This project models the two parts that have logic worth stating.

**Day 3 user store** (`ts-backend-day3/src/app.ts`). A module-level cache `users` holds an ordered list of `{id, name}` records. At startup it is loaded from a JSON data file. If the file is missing, it is first written with the seed records Alice (1) and Bob (2). `GET /users/:id` answers with the first record that has the id, or 404. `POST /users` refuses a `name` that is not a string or that trims to nothing (422). Otherwise it appends `{id: max id + 1 (or 1), name: trimmed name}` to a new copy of the list, stores that copy as the cache, writes it to the file and answers 201.

**Day 2 user service** (`ts-backend-day2/src/service/userService.ts`). A class holds a private array of `{id, name, email}`. `addUser` pushes without any check. `getUserById` returns the first match or `undefined`. `list` returns the array.

Files:

- `text.dfy`, module `Text`: the whitespace predicate and `trim`, written as `TrimStart` and `TrimEnd`, with lemmas that characterise trim completely.
- `array_find.dfy`, module `ArrayFind`: `Option` and `Array.prototype.find` as a first-match linear search, with what appending does to a search.
- `app.dfy`, module `App`: the day-3 records and responses, and the request logic as pure functions: `MaxId`, `NextId`, `ValidateName`, `Lookup`, `CreateStep`. Also the class `UserStore` with the `users` cache and a ghost `persisted` snapshot of the data file, whose handlers are proved against those functions. Further lemmas and methods replay the seed scenario: a start without a data file, the lookups of Alice and of a missing id, the creation of Carol and a refused blank name.
- `user_service.dfy`, module `Service`: the class `UserService` with a `seq<User>` field, plus the driver script's run.

The id invariant is that ids are unique and positive. It is not an object invariant of `UserStore`, because a data file that already exists may hold any records. Instead `CreateKeepsIdsValid` proves that a create preserves the invariant, and `SeedIdsValid` proves that the seed state satisfies it. The ghost `persisted` field stands for the data file. `Synced()` (cache equals file) holds after `Load` and after every `Create`. `ReloadAfterCreates` shows what this buys: after any two creates, the file holds exactly the cache, and starting again from it gives that cache back.

## Model

| member | source | states |
|---|---|---|
| Text.IsSpace | ts-backend-day3/src/app.ts:45 | the ASCII blanks space, tab, newline and carriage return are whitespace; no digit or Latin letter is |
| Text.TrimStart | ts-backend-day3/src/app.ts:45 | the result is a suffix of the input; everything removed is whitespace; the result is empty or starts with a non-whitespace character |
| Text.TrimEnd | ts-backend-day3/src/app.ts:45 | the result is a prefix of the input; everything removed is whitespace; the result is empty or ends with a non-whitespace character |
| Text.Trim | ts-backend-day3/src/app.ts:50 | the trimmed name is a slice of the input with only whitespace before and after it, and has no whitespace at either end |
| Text.TrimStartOfPadded | ts-backend-day3/src/app.ts:45 | removing leading whitespace from blank text followed by text that does not start with whitespace gives exactly that text |
| Text.TrimEndOfPadded | ts-backend-day3/src/app.ts:45 | removing trailing whitespace from text that does not end in whitespace followed by blank text gives exactly that text |
| Text.TrimOfPadded | ts-backend-day3/src/app.ts:50 | trim of (blank + unpadded core + blank) is the core, so trim is uniquely determined |
| Text.TrimIdempotent | ts-backend-day3/src/app.ts:50 | trimming a trimmed name changes nothing |
| Text.TrimEmptyIffBlank | ts-backend-day3/src/app.ts:45 | `!name.trim()` holds exactly when every character of the name is whitespace (both directions) |
| ArrayFind.Find | ts-backend-day3/src/app.ts:34 | `find` returns nothing exactly when no element matches; otherwise it returns the element at the first matching position |
| ArrayFind.FindAppend | ts-backend-day2/src/service/userService.ts:7-14 | after an append, a search that succeeded before returns the same element; one that failed finds the new element exactly when it matches |
| App.Response.Status | ts-backend-day3/src/app.ts:36-55 | the success answers (the found user, the created user) have a 2xx code and the two errors (404, 422) a 4xx code |
| App.Response.Detail | ts-backend-day3/src/app.ts:36-46 | an error answer carries a non-empty `detail` text and a success answer none |
| App.MaxId | ts-backend-day3/src/app.ts:49 | `Math.max` of the ids is at least every id and equals one of them |
| App.NextId | ts-backend-day3/src/app.ts:49 | the new id is greater than every existing id; it is 1 for an empty collection and otherwise one more than an existing id, i.e. max + 1 |
| App.ValidateName | ts-backend-day3/src/app.ts:45-50 | the name is refused exactly when it is not a string or is all whitespace; an accepted name becomes its trim, which is non-empty and unpadded |
| App.Lookup | ts-backend-day3/src/app.ts:33-38 | GET answers 404 exactly when no record has the id; otherwise it answers the first record with that id |
| App.CreateStep | ts-backend-day3/src/app.ts:43-55 | POST is refused (422, collection unchanged) exactly when the name is not a string or is blank; otherwise it answers the record (next id, trimmed name), whose id exceeds every prior id, and the collection becomes old + [record] |
| App.AppendKeepsIdsValid | ts-backend-day3/src/app.ts:49-52 | appending a record whose positive id exceeds every existing id keeps ids unique and positive |
| App.CreateKeepsIdsValid | ts-backend-day3/src/app.ts:49-52 | a create keeps ids unique and positive |
| App.SeedIdsValid | ts-backend-day3/src/app.ts:11-14 | the seed records have unique, positive ids |
| App.SeedLookups | ts-backend-day3/src/app.ts:11-14 | on the seed state, id 1 answers Alice and id 99 answers 404 |
| App.SeedNextId | ts-backend-day3/src/app.ts:49 | the seed state's next id is 3 |
| App.CarolNameAccepted | ts-backend-day3/src/app.ts:45-50 | "  Carol  " is accepted as "Carol" |
| App.SeedCreateCarol | ts-backend-day3/src/app.ts:49-52 | creating "  Carol  " on the seed state answers {3, "Carol"} and appends it |
| App.LookupCarol | ts-backend-day3/src/app.ts:34-37 | after that create, id 3 answers {3, "Carol"} |
| App.BlankNameRefused | ts-backend-day3/src/app.ts:45-47 | a name of three spaces is refused on every collection, which stays unchanged |
| App.UserStore.Load | ts-backend-day3/src/app.ts:8-17 | startup yields the file's parsed records, or the seed records when there is no file, and the cache equals the file |
| App.UserStore.Get | ts-backend-day3/src/app.ts:32-39 | the GET handler answers `Lookup` on the cache and changes nothing |
| App.UserStore.Create | ts-backend-day3/src/app.ts:42-56 | the POST handler answers `CreateStep` on the old cache, the cache becomes its new collection, and the file snapshot equals the cache afterwards |
| App.FreshStoreLookups | ts-backend-day3/src/app.ts:29-38 | a store started without a data file answers Alice (200) for id 1, and 404 with detail "User not found" for id 99 |
| App.FreshStoreCreates | ts-backend-day3/src/app.ts:42-56 | a store started without a data file creates {3, "Carol"} (201), then finds her, refuses "   " (422, detail "name is required") and ends with the seed plus Carol |
| App.CreateCarolOnSeed | ts-backend-day3/src/app.ts:42-56 | on a store holding the seed records, the POST handler creates {3, "Carol"} from "  Carol  " and appends it, keeping the file in step |
| App.FindCarolRefuseBlank | ts-backend-day3/src/app.ts:32-56 | on a store holding the seed records and Carol, GET of id 3 answers Carol and POST of "   " is refused with the store unchanged |
| App.ReloadAfterCreates | ts-backend-day3/src/app.ts:8-56 | after startup from any file (or none) and any two creates, the cache is what the two request-level steps produce, the file snapshot equals the cache, and loading the file again gives back exactly that snapshot |
| Service.UserService.constructor | ts-backend-day2/src/service/userService.ts:4 | a new service holds no users |
| Service.UserService.AddUser | ts-backend-day2/src/service/userService.ts:7-9 | the list becomes old + [user] for any user, and no lookup that already succeeded changes |
| Service.UserService.GetUserById | ts-backend-day2/src/service/userService.ts:12-14 | no result exactly when no user has the id; otherwise the earliest-added user with that id |
| Service.UserService.List | ts-backend-day2/src/service/userService.ts:17-19 | the listing is the stored list itself, i.e. every added user in insertion order |
| Service.DriverRun | ts-backend-day2/src/index.ts:4-15 | after adding users 1 and 2, the list holds both in order, id 1 finds the first and id 3 finds nothing |
| Service.DuplicateIdAccepted | ts-backend-day2/src/service/userService.ts:7-14 | two users with the same id are both stored, and the lookup returns the one added first |

## Left out

- Express setup, routing, JSON body parsing, `res.status(...).json(...)` and `app.listen`. Each handler's outcome is the `Response` datatype; `Status()` and `Detail()` give its status code and error text.
- File I/O and JSON (`existsSync`, `readFileSync`, `writeFileSync`, `JSON.parse`, `JSON.stringify`). `Load` takes the existence check and the parsed file as parameters. The file is the ghost `persisted` field. A malformed file (`JSON.parse` throws) and failed writes are not modelled.
- `Number(req.params.id)`. `Get` takes the id as an `int`, so `NaN` and fractional ids are not covered.
- Ids are unbounded integers. The loss of precision of JS numbers above 2^53, and the argument-count limit of `Math.max(...ids)` on very large lists, are not modelled.
- The request body is reduced to its `name` field (`NameField`: a string or anything else). A request without a body is not modelled.
- `Text.IsSpace` lists the ECMAScript WhiteSpace and LineTerminator code points by hand. It claims no fidelity to any particular Unicode version's space-separator category.
- Names are Dafny strings, i.e. sequences of Unicode scalar values, while a JS string is a sequence of UTF-16 code units; a name holding a lone surrogate (JSON `"\ud800"`) has no counterpart here. Trim is unaffected: every whitespace code point it removes is a single code unit outside the surrogate range.
- `process.env.PORT` and all console logging are environment access and output, so they are left out.
- `Service.UserService.List` returns the list as a value. The aliasing of the returned `readonly` array with the service's private array is not modelled.
- There is no concurrency: the source handles one request at a time.
- `ts-backend-day1/src/greet.ts` is a string template with no logic to verify, so it is not part of this model. `ts-backend-day2/src/index.ts` is used only as the scenario behind `Service.DriverRun`.
- `ts-backend-day3/src/models/user.ts` and `ts-backend-day2/src/models/user.ts` are not part of this model. The record fields come from the seed records and from the driver script.

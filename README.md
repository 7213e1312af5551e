# Authenticator user registry, modelled in Dafny

The service keeps one `users` table keyed by email. Each row holds a password,
the registrant that owns it (`registered_by`), a self-destruct flag, a UTM
link, a single device slot (`device_id`, `device_name`) and a device-registration
counter (`total_devices`). A static map from registrant identifier to token
authenticates the administrative endpoints with HTTP Basic credentials. Each
request handler is one read-check-write against that table. A handler that
fails raises before its write is committed, so the table is left as it was.

The model has four modules:

- `Registry` (registry.dfy) holds the row and result types and the registrant
  credentials (`PersonTokens`, and `Tokens` as a parameter everywhere else).
  Every handler is a function here. The read-only handlers (`Login`,
  `CheckSelfDestruct`, `GetUtmLink`, `RegisteredAccounts`) return a `Result`.
  The state-changing handlers return an `Outcome`: the result together with
  the table afterwards. Their contracts state when each error occurs, that an
  error leaves the table unchanged, exactly which row and which fields a success
  changes, and that the table invariant `WellFormed` is preserved.
- `Server` (server.dfy) holds the class `UserStore`. It owns the table
  (`users`, reassigned in place) and the credentials (`tokens`, fixed at
  construction). Its methods run the handler checks in the source's order,
  device path and account path included. Each method is proved to return
  exactly what the `Registry` function gives and to leave exactly the table it
  gives.
- `Text` (text.dfy) models Python's `str.split(',')`, which the account listing
  applies to the aggregated device ids, and its inverse `Join`. Both round
  trips are proved.
- `Properties` (properties.dfy) relates the handlers to each other. It covers
  the write/read round trips, the defaults of a fresh account, the
  authorization asymmetries, the size of the account listing, and what no
  sequence of requests can undo.

The UTM-link getter's not-found message reads "Email not found or UTM link
not set" (authenticator.py:182). A link that was never set cannot trigger it,
though. Every row is inserted with `utm_link = ""` (authenticator.py:81-82), and
not-found is answered only when the email has no row. So a fresh account's link
reads as `""` (`Properties.FreshAccount`).

## Model

| member | source | states |
|---|---|---|
| `Registry.CurrentPerson` | authenticator.py:99-106 | Authentication succeeds exactly when the username is a registrant key and the password equals that registrant's token. On success the caller is the username, which is then a key, so the later `tokens[person]` lookups are defined. Otherwise the result is Unauthorized. |
| `Registry.RegisterUser` | authenticator.py:70-85 | A registrant that is not among the token values gives InvalidPerson whether or not the email exists. An existing email gives Duplicate. Both leave the table unchanged. Otherwise exactly one row is added with the given password and owner, flag false, link "", no device and counter 0, and every existing row is untouched. Well-formedness is preserved. |
| `Registry.Login` | authenticator.py:87-97 | Succeeds exactly when the email has a row whose password equals the given one, and otherwise gives BadLogin. It is a function of the table, so it never changes it. |
| `Registry.SetSelfDestruct` | authenticator.py:110-143 | The flag defaults to true when the request omits it. Bad credentials give Unauthorized. A row not addressed gives NotFound: a truthy device id must match the row's device slot, and a None or "" id uses the email alone. An addressed row owned by someone other than the caller's token gives Forbidden. Existence is checked before ownership. Errors leave the table unchanged. A success changes only that row's flag, to the given value. |
| `Registry.CheckSelfDestruct` | authenticator.py:145-161 | Answers the row's flag exactly when the row is addressed, using the same device/account rule as the setter, and otherwise NotFound. No credentials are needed. |
| `Registry.SetUtmLink` | authenticator.py:163-172 | Bad credentials give Unauthorized. Any authenticated caller may set the link, whoever owns the row. For an authenticated caller, NotFound is answered exactly when the email has no row. Errors leave the table unchanged. A success changes only that row's link. |
| `Registry.GetUtmLink` | authenticator.py:174-184 | Answers the row's link exactly when the email has a row, and otherwise NotFound. |
| `Registry.DeviceIds` | authenticator.py:196-208 | An empty or missing device slot gives no ids. Otherwise the ids are the slot split on commas: none of them contains a comma, and joined with commas they give back the slot. |
| `Registry.RegisteredAccounts` | authenticator.py:190-216 | Bad credentials give Unauthorized. For an authenticated caller, the only error is NotFound, answered exactly when no row is owned by the caller's token. Otherwise the answer holds one account for every owned row and nothing else, each carrying that row's fields and device ids. |
| `Registry.RegisterDevice` | authenticator.py:218-232 | An unknown email gives NotFound and no change. Otherwise the device slot is overwritten with the given id and name and the counter grows by exactly 1. The password, owner, flag, link and all other rows are unchanged. |
| `Registry.SelfDestructDevice` | authenticator.py:234-247 | Bad credentials give Unauthorized. An authenticated caller succeeds exactly when the email's row holds that device id, whoever owns the row, and gets NotFound exactly when it does not. Errors leave the table unchanged. A success sets only that row's flag to true. |
| `Text.Split` | authenticator.py:208 | Python's `split(',')`: there is one more piece than there are separators, and no piece contains the separator. |
| `Text.JoinSplit` | authenticator.py:208 | Joining the pieces of a split with the separator gives back the original string. |
| `Text.SplitWithoutSeparator` | authenticator.py:208 | A string without the separator splits into itself alone. |
| `Text.SplitJoin` | authenticator.py:208 | Splitting the join of separator-free pieces gives back the pieces. |
| `Server.UserStore.constructor` | authenticator.py:21-38 | Opening the table keeps the rows the database file already holds (none on the first start) under the given credentials, and the invariant holds. |
| `Server.UserStore.RegisterUser` | authenticator.py:70-85 | Checks the registrant, then the email, then inserts. The answer and the new table are those of `Registry.RegisterUser`, and the invariant is kept. |
| `Server.UserStore.SetSelfDestruct` | authenticator.py:110-143 | Authenticates, takes the device path or the account path, checks existence and then ownership, then updates. The answer and the new table are those of `Registry.SetSelfDestruct`. |
| `Server.UserStore.SetUtmLink` | authenticator.py:163-172 | Authenticates, then updates the link of an existing row. The answer and the new table are those of `Registry.SetUtmLink`. |
| `Server.UserStore.RegisterDevice` | authenticator.py:218-232 | Overwrites the device slot and increments the counter of an existing row. The answer and the new table are those of `Registry.RegisterDevice`. |
| `Server.UserStore.SelfDestructDevice` | authenticator.py:234-247 | Authenticates, finds the (email, device) row and forces its flag to true. The answer and the new table are those of `Registry.SelfDestructDevice`. |
| `Properties.RegisterThenLogin` | authenticator.py:81-97 | After a successful registration, login on that email succeeds with exactly the registered password. |
| `Properties.RegisterTwice` | authenticator.py:72-79 | Registering an already registered email again gives Duplicate, or InvalidPerson for an unknown registrant, and leaves the table unchanged. |
| `Properties.FreshAccount` | authenticator.py:81-82 | A freshly registered account reads flag false and link "" (not NotFound). No device id addresses it yet. It appears in its registrant's listing with counter 0 and no device ids. |
| `Properties.SetThenCheck` | authenticator.py:110-161 | After a successful set, the read with the same email and device argument answers the value that was set. |
| `Properties.OwnerMaySet` | authenticator.py:115-143 | An authenticated caller whose token owns an addressed row always succeeds in setting its flag. |
| `Properties.SelfDestructDeviceIgnoresOwner` | authenticator.py:234-247 | Every authenticated caller gets the same outcome from the remote wipe. Ownership plays no part, unlike the general setter. |
| `Properties.SelfDestructDeviceThenCheck` | authenticator.py:244 | After a remote wipe the flag reads true, on the account path and on the device path. |
| `Properties.SetUtmLinkIgnoresOwner` | authenticator.py:163-172 | Every authenticated caller gets the same outcome from the link setter. |
| `Properties.SetUtmThenGet` | authenticator.py:163-184 | After a successful link set, the link read answers the link that was set. |
| `Properties.SingleDeviceIds` | authenticator.py:208 | A slot holding one non-empty, comma-free id is listed as exactly that one id. |
| `Properties.RegisterDeviceThenAddressable` | authenticator.py:218-232 | After registering a non-empty device id, that id addresses the row for the flag read, which answers the account's flag. The listing reports the id split on commas. |
| `Properties.AccountsOfCount` | authenticator.py:194-211 | Rows with distinct emails give distinct accounts, so the listing has as many entries as rows. |
| `Properties.RegisteredAccountsCount` | authenticator.py:190-216 | A registrant owning N rows is listed exactly N accounts. |
| `Properties.DeployedOwnerIsCaller` | authenticator.py:48-52 | In the deployed credential map every token equals its registrant. The ownership check therefore compares a row's owner with the authenticated caller itself. |
| `Properties.Serve` | authenticator.py:70-247 | Whatever state-changing request is served, no row disappears, no row's password or owner changes, no device counter decreases, and the table stays well formed. |
| `Properties.RunPersists` | authenticator.py:70-247 | The same holds across any sequence of requests served one after another. Accounts are never deleted and device counters never decrease. |
| `Properties.ServeCounter` | authenticator.py:228 | One request raises a row's device counter by exactly 1 when it is a device registration for that email, and leaves it alone otherwise. |
| `Properties.RunCountsDeviceRegistrations` | authenticator.py:218-232 | The device counter counts calls. After any sequence of requests it has grown by exactly the number of device registrations for that email, whatever ids were registered. |
| `Properties.ListedDevicesWereRegistered` | authenticator.py:201-211 | In a well-formed table, a listed account that reports device ids has a positive device counter, and one whose counter is 0 reports no ids. |

## Left out

- HTTP and framework plumbing is not modelled: routing, dependency injection, status codes, message strings and the HTML templates. Each error becomes one constructor of `Error`. Registration errors are returned inside a successful page by the service; here they are `Err` like every other handler's.
- Decoding the Basic `Authorization` header is done by the web framework and is not visible. The model receives the already decoded `Credentials`.
- `protected_route` (authenticator.py:186-188) only runs the authentication dependency. It is `Registry.CurrentPerson` and has no member of its own.
- SQLite itself is not modelled: SQL parsing, connections, `commit`, and file storage. Each handler is one atomic step on the map. `GROUP_CONCAT` is modelled only for one row per email, which the primary key guarantees.
- The order of the listed accounts is not fixed by `GROUP BY`, so the listing is a set of accounts.
- Concurrent requests are not modelled. Requests are served one at a time (`Properties.Run`).
- The `utm_link` column is nullable, but every row is inserted with `""` and only ever set to a string. A NULL link is therefore never represented.
- A `KeyError` on `person_tokens[person]` cannot happen, because the authentication dependency only lets through keys of the map. The model shows this through `Registry.CurrentPerson` rather than as an error case.
- Credential hardening (hashing, constant-time comparison) is absent from the code. Passwords and tokens are compared as plain strings.
- Registry.RegisterDevice: `total_devices` is a 64-bit SQLite INTEGER, and past 2^63-1 the `total_devices + 1` of authenticator.py:228 overflows into a REAL. The model's counter is an unbounded `nat`, so that overflow is not modelled.
- Server.UserStore.constructor: it takes the rows already stored in the database file, but only well-formed ones. Rows written into the file by other programs (an unknown owner, a device slot without a counter) are not modelled.
- visualize.py only launches an external database browser and has no logic. It is not part of this model.

/** The rules of the user registry: the `users` table keyed by email, the
    static registrant credentials, and every request handler as a function
    from the table (and the request) to a result and the table afterwards.
    A handler that fails leaves the table exactly as it was: every check runs
    before the one write of the request is committed. */
module Registry {
  import Text

  datatype Option<T> = None | Some(value: T)

  /** The distinct failures the handlers report. */
  datatype Error =
    | InvalidPerson  // registration names a registrant that is not configured
    | Duplicate      // registration with an email that is already taken
    | BadLogin       // no row with this email and password
    | Unauthorized   // Basic credentials do not match a registrant's token
    | NotFound       // no row for the email (and device)
    | Forbidden      // the row belongs to another registrant

  datatype Result<T> = Ok(value: T) | Err(error: Error)

  /** One row of the `users` table; its email is its key in `Table`. */
  datatype Row = Row(
    password: string,
    registeredBy: string,
    selfDestruct: bool,
    utmLink: string,
    deviceId: Option<string>,
    deviceName: Option<string>,
    totalDevices: nat)

  /** The `users` table: email is the primary key. */
  type Table = map<string, Row>

  /** Registrant identifier -> shared-secret token. */
  type Tokens = map<string, string>

  /** A Basic authentication username/password pair. */
  datatype Credentials = Credentials(username: string, password: string)

  /** What a state-changing handler answers and the table it leaves behind. */
  datatype Outcome = Outcome(result: Result<()>, users: Table)

  /** The registrants the deployed service is configured with. */
  const PersonTokens: Tokens :=
    map["person1" := "person1", "person2" := "person2", "person3" := "person3"]

  /** The row a successful registration inserts: the columns not given in the
      INSERT take their defaults (no device, zero devices). */
  function NewRow(password: string, person: string): Row
  {
    Row(password, person, false, "", None, None, 0)
  }

  /** What every row satisfies, given how rows are created and updated: its
      owner is a configured registrant, and the device slot is filled exactly
      when at least one device registration happened. */
  predicate WellFormedRow(tokens: Tokens, row: Row)
  {
    && row.registeredBy in tokens.Values
    && (row.deviceId.Some? <==> row.deviceName.Some?)
    && (row.deviceId.Some? <==> row.totalDevices > 0)
  }

  predicate WellFormed(tokens: Tokens, users: Table)
  {
    forall email | email in users :: WellFormedRow(tokens, users[email])
  }

  /** `after` differs from `before` at most in the row of `email`; no row is
      added or removed. */
  predicate OnlyRowChanged(before: Table, after: Table, email: string)
  {
    && after.Keys == before.Keys
    && forall e | e in before && e != email :: after[e] == before[e]
  }

  /** Basic authentication against the registrant credentials. */
  function CurrentPerson(tokens: Tokens, cred: Credentials): (r: Result<string>)
    ensures r.Ok? <==> cred.username in tokens && tokens[cred.username] == cred.password
    ensures r.Ok? ==> r.value == cred.username && r.value in tokens
    ensures r.Err? ==> r.error == Unauthorized
  {
    if cred.username !in tokens || tokens[cred.username] != cred.password then Err(Unauthorized)
    else Ok(cred.username)
  }

  /** POST /register: unauthenticated; `person` is self-declared. */
  function RegisterUser(tokens: Tokens, users: Table, email: string, password: string, person: string): (o: Outcome)
    ensures person !in tokens.Values ==> o == Outcome(Err(InvalidPerson), users)
    ensures person in tokens.Values && email in users ==> o == Outcome(Err(Duplicate), users)
    ensures o.result.Ok? <==> person in tokens.Values && email !in users
    ensures o.result.Ok? ==>
      && o.users.Keys == users.Keys + {email}
      && o.users[email].password == password
      && o.users[email].registeredBy == person
      && !o.users[email].selfDestruct
      && o.users[email].utmLink == ""
      && o.users[email].deviceId == None && o.users[email].deviceName == None
      && o.users[email].totalDevices == 0
      && forall e | e in users :: o.users[e] == users[e]
    ensures WellFormed(tokens, users) ==> WellFormed(tokens, o.users)
  {
    if person !in tokens.Values then Outcome(Err(InvalidPerson), users)
    else if email in users then Outcome(Err(Duplicate), users)
    else Outcome(Ok(()), users[email := NewRow(password, person)])
  }

  /** POST /login: a stateless exact match on email and password. */
  function Login(users: Table, email: string, password: string): (r: Result<()>)
    ensures r.Ok? <==> email in users && users[email].password == password
    ensures r.Err? ==> r.error == BadLogin
  {
    if email in users && users[email].password == password then Ok(()) else Err(BadLogin)
  }

  /** Python truthiness of an optional device id: None and "" both count as absent. */
  predicate Present(deviceId: Option<string>)
  {
    deviceId.Some? && deviceId.value != ""
  }

  /** The row of `email` exists and its device slot holds `device`
      (`WHERE email = ? AND device_id = ?`; a NULL slot matches nothing). */
  predicate OnDevice(users: Table, email: string, device: string)
  {
    email in users && users[email].deviceId == Some(device)
  }

  /** The row a self-destruct request addresses exists: on the device path the
      device must match too, on the account path the email alone decides. */
  predicate Addressed(users: Table, email: string, deviceId: Option<string>)
  {
    if Present(deviceId) then OnDevice(users, email, deviceId.value) else email in users
  }

  /** POST /set_self_destruct: existence is checked before ownership, and
      ownership compares the row's owner with the caller's token. A request
      that omits the flag sets it to true. */
  function SetSelfDestruct(tokens: Tokens, users: Table, cred: Credentials, email: string,
                           deviceId: Option<string>, flag: bool := true): (o: Outcome)
    ensures CurrentPerson(tokens, cred).Err? ==> o == Outcome(Err(Unauthorized), users)
    ensures o.result == Err(NotFound) <==>
      CurrentPerson(tokens, cred).Ok? && !Addressed(users, email, deviceId)
    ensures o.result == Err(Forbidden) <==>
      && CurrentPerson(tokens, cred).Ok?
      && Addressed(users, email, deviceId)
      && users[email].registeredBy != tokens[cred.username]
    ensures o.result.Err? ==> o.users == users
    ensures o.result.Ok? ==>
      && OnlyRowChanged(users, o.users, email)
      && o.users[email] == users[email].(selfDestruct := flag)
    ensures WellFormed(tokens, users) ==> WellFormed(tokens, o.users)
  {
    match CurrentPerson(tokens, cred)
    case Err(e) => Outcome(Err(e), users)
    case Ok(person) =>
      if !Addressed(users, email, deviceId) then Outcome(Err(NotFound), users)
      else if users[email].registeredBy != tokens[person] then Outcome(Err(Forbidden), users)
      else Outcome(Ok(()), users[email := users[email].(selfDestruct := flag)])
  }

  /** GET /selfdestruct: unauthenticated read of the flag. */
  function CheckSelfDestruct(users: Table, email: string, deviceId: Option<string>): (r: Result<bool>)
    ensures r.Ok? <==> Addressed(users, email, deviceId)
    ensures r.Ok? ==> r.value == users[email].selfDestruct
    ensures r.Err? ==> r.error == NotFound
  {
    if Addressed(users, email, deviceId) then Ok(users[email].selfDestruct) else Err(NotFound)
  }

  /** POST /set_utm_link: any authenticated registrant may set any row's link. */
  function SetUtmLink(tokens: Tokens, users: Table, cred: Credentials, email: string, link: string): (o: Outcome)
    ensures CurrentPerson(tokens, cred).Err? ==> o == Outcome(Err(Unauthorized), users)
    ensures CurrentPerson(tokens, cred).Ok? ==> (o.result.Ok? <==> email in users)
    ensures CurrentPerson(tokens, cred).Ok? ==> (o.result == Err(NotFound) <==> email !in users)
    ensures o.result.Err? ==> o.users == users
    ensures o.result.Ok? ==>
      && OnlyRowChanged(users, o.users, email)
      && o.users[email] == users[email].(utmLink := link)
    ensures WellFormed(tokens, users) ==> WellFormed(tokens, o.users)
  {
    match CurrentPerson(tokens, cred)
    case Err(e) => Outcome(Err(e), users)
    case Ok(_) =>
      if email !in users then Outcome(Err(NotFound), users)
      else Outcome(Ok(()), users[email := users[email].(utmLink := link)])
  }

  /** GET /get_utm_link: unauthenticated read of the link. */
  function GetUtmLink(users: Table, email: string): (r: Result<string>)
    ensures r.Ok? <==> email in users
    ensures r.Ok? ==> r.value == users[email].utmLink
    ensures r.Err? ==> r.error == NotFound
  {
    if email in users then Ok(users[email].utmLink) else Err(NotFound)
  }

  /** One entry of the GET /registered_accounts answer. */
  datatype Account = Account(
    email: string,
    registeredBy: string,
    selfDestruct: bool,
    utmLink: string,
    totalDevices: nat,
    deviceIds: seq<string>)

  /** The aggregated device ids of a row: a NULL or empty slot gives no ids,
      otherwise the slot split on commas. */
  function DeviceIds(row: Row): (ids: seq<string>)
    ensures ids == [] <==> row.deviceId == None || row.deviceId.value == ""
    ensures ids != [] ==> Text.Join(ids, ',') == row.deviceId.value
    ensures forall i | 0 <= i < |ids| :: ',' !in ids[i]
  {
    match row.deviceId
    case None => []
    case Some(d) =>
      if d == "" then [] else Text.JoinSplit(d, ','); Text.Split(d, ',')
  }

  function AccountOf(email: string, row: Row): Account
  {
    Account(email, row.registeredBy, row.selfDestruct, row.utmLink, row.totalDevices, DeviceIds(row))
  }

  /** The emails whose rows belong to the registrant `owner`. */
  function Owned(users: Table, owner: string): set<string>
  {
    set email | email in users && users[email].registeredBy == owner
  }

  function AccountsOf(users: Table, emails: set<string>): set<Account>
  {
    set email | email in emails && email in users :: AccountOf(email, users[email])
  }

  /** GET /registered_accounts: the caller's rows (the caller's token is the
      owner looked for), or NotFound when there are none. */
  function RegisteredAccounts(tokens: Tokens, users: Table, cred: Credentials): (r: Result<set<Account>>)
    ensures CurrentPerson(tokens, cred).Err? ==> r == Err(Unauthorized)
    ensures CurrentPerson(tokens, cred).Ok? ==>
      (r == Err(NotFound) <==> Owned(users, tokens[cred.username]) == {})
    ensures CurrentPerson(tokens, cred).Ok? ==> (r.Err? ==> r.error == NotFound)
    ensures r.Ok? ==> forall a | a in r.value ::
      && a.email in users
      && users[a.email].registeredBy == tokens[cred.username]
      && a == AccountOf(a.email, users[a.email])
    ensures r.Ok? ==> forall email | email in users && users[email].registeredBy == tokens[cred.username] ::
      AccountOf(email, users[email]) in r.value
  {
    match CurrentPerson(tokens, cred)
    case Err(e) => Err(e)
    case Ok(person) =>
      var owned := Owned(users, tokens[person]);
      if owned == {} then Err(NotFound) else Ok(AccountsOf(users, owned))
  }

  /** POST /register_device: unauthenticated; overwrites the single device
      slot and counts the call. */
  function RegisterDevice(users: Table, email: string, deviceId: string, deviceName: string): (o: Outcome)
    ensures email !in users ==> o == Outcome(Err(NotFound), users)
    ensures email in users ==>
      && o.result.Ok?
      && OnlyRowChanged(users, o.users, email)
      && o.users[email].deviceId == Some(deviceId)
      && o.users[email].deviceName == Some(deviceName)
      && o.users[email].totalDevices == users[email].totalDevices + 1
      && o.users[email].password == users[email].password
      && o.users[email].registeredBy == users[email].registeredBy
      && o.users[email].selfDestruct == users[email].selfDestruct
      && o.users[email].utmLink == users[email].utmLink
    ensures forall tokens: Tokens :: WellFormed(tokens, users) ==> WellFormed(tokens, o.users)
  {
    if email !in users then Outcome(Err(NotFound), users)
    else
      var row := users[email];
      Outcome(Ok(()), users[email := row.(deviceId := Some(deviceId), deviceName := Some(deviceName),
                                          totalDevices := row.totalDevices + 1)])
  }

  /** POST /self_destruct_device: remote wipe; any authenticated registrant,
      whoever owns the row. */
  function SelfDestructDevice(tokens: Tokens, users: Table, cred: Credentials, email: string, deviceId: string): (o: Outcome)
    ensures CurrentPerson(tokens, cred).Err? ==> o == Outcome(Err(Unauthorized), users)
    ensures CurrentPerson(tokens, cred).Ok? ==> (o.result.Ok? <==> OnDevice(users, email, deviceId))
    ensures CurrentPerson(tokens, cred).Ok? ==> (o.result == Err(NotFound) <==> !OnDevice(users, email, deviceId))
    ensures o.result.Err? ==> o.users == users
    ensures o.result.Ok? ==>
      && OnlyRowChanged(users, o.users, email)
      && o.users[email] == users[email].(selfDestruct := true)
    ensures WellFormed(tokens, users) ==> WellFormed(tokens, o.users)
  {
    match CurrentPerson(tokens, cred)
    case Err(e) => Outcome(Err(e), users)
    case Ok(_) =>
      if !OnDevice(users, email, deviceId) then Outcome(Err(NotFound), users)
      else Outcome(Ok(()), users[email := users[email].(selfDestruct := true)])
  }
}

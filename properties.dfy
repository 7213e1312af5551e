/** What the handlers promise together: the round trips between a write and
    the read that observes it, the defaults of a fresh account, the
    authorization asymmetries, the account listing, and what no sequence of
    requests can ever undo. */
module Properties {
  import Text
  import opened Registry

  /** After a registration, login succeeds with exactly the registered password. */
  lemma RegisterThenLogin(tokens: Tokens, users: Table, email: string, password: string, person: string)
    requires RegisterUser(tokens, users, email, password, person).result.Ok?
    ensures forall p :: Login(RegisterUser(tokens, users, email, password, person).users, email, p).Ok? <==> p == password
  {
  }

  /** Registering the same email again fails and changes nothing: Duplicate
      for a valid registrant, InvalidPerson otherwise. */
  lemma RegisterTwice(tokens: Tokens, users: Table, email: string,
                      password: string, person: string, password': string, person': string)
    requires RegisterUser(tokens, users, email, password, person).result.Ok?
    ensures var after := RegisterUser(tokens, users, email, password, person).users;
      RegisterUser(tokens, after, email, password', person') ==
        Outcome(Err(if person' in tokens.Values then Duplicate else InvalidPerson), after)
  {
  }

  /** A fresh account: the flag reads false, the link reads "" (not NotFound),
      no device is addressable, and the registrant's listing shows it with no
      devices. */
  lemma FreshAccount(tokens: Tokens, users: Table, email: string, password: string, person: string,
                     cred: Credentials, device: string)
    requires RegisterUser(tokens, users, email, password, person).result.Ok?
    requires CurrentPerson(tokens, cred).Ok? && tokens[cred.username] == person
    ensures var after := RegisterUser(tokens, users, email, password, person).users;
      && CheckSelfDestruct(after, email, None) == Ok(false)
      && GetUtmLink(after, email) == Ok("")
      && (device != "" ==> CheckSelfDestruct(after, email, Some(device)) == Err(NotFound))
      && RegisteredAccounts(tokens, after, cred).Ok?
      && Account(email, person, false, "", 0, []) in RegisteredAccounts(tokens, after, cred).value
  {
    var after := RegisterUser(tokens, users, email, password, person).users;
    assert email in Owned(after, person);
    assert AccountOf(email, after[email]) == Account(email, person, false, "", 0, []);
  }

  /** A successful set is observed by the read with the same arguments. */
  lemma SetThenCheck(tokens: Tokens, users: Table, cred: Credentials, email: string,
                     deviceId: Option<string>, flag: bool)
    requires SetSelfDestruct(tokens, users, cred, email, deviceId, flag).result.Ok?
    ensures CheckSelfDestruct(SetSelfDestruct(tokens, users, cred, email, deviceId, flag).users, email, deviceId) == Ok(flag)
  {
  }

  /** The owner of an addressed row can always set its flag. */
  lemma OwnerMaySet(tokens: Tokens, users: Table, cred: Credentials, email: string,
                    deviceId: Option<string>, flag: bool)
    requires CurrentPerson(tokens, cred).Ok?
    requires Addressed(users, email, deviceId)
    requires users[email].registeredBy == tokens[cred.username]
    ensures SetSelfDestruct(tokens, users, cred, email, deviceId, flag).result.Ok?
  {
  }

  /** The remote wipe does not look at the owner: every authenticated caller
      gets the same outcome. */
  lemma SelfDestructDeviceIgnoresOwner(tokens: Tokens, users: Table, cred: Credentials, cred': Credentials,
                                       email: string, deviceId: string)
    requires CurrentPerson(tokens, cred).Ok? && CurrentPerson(tokens, cred').Ok?
    ensures SelfDestructDevice(tokens, users, cred, email, deviceId) ==
            SelfDestructDevice(tokens, users, cred', email, deviceId)
  {
  }

  /** After a remote wipe the flag reads true on the account path and, for a
      non-empty device id, on the device path. */
  lemma SelfDestructDeviceThenCheck(tokens: Tokens, users: Table, cred: Credentials, email: string, deviceId: string)
    requires SelfDestructDevice(tokens, users, cred, email, deviceId).result.Ok?
    ensures var after := SelfDestructDevice(tokens, users, cred, email, deviceId).users;
      && CheckSelfDestruct(after, email, None) == Ok(true)
      && CheckSelfDestruct(after, email, Some(deviceId)) == Ok(true)
  {
  }

  /** The link setter does not look at the owner either. */
  lemma SetUtmLinkIgnoresOwner(tokens: Tokens, users: Table, cred: Credentials, cred': Credentials,
                               email: string, link: string)
    requires CurrentPerson(tokens, cred).Ok? && CurrentPerson(tokens, cred').Ok?
    ensures SetUtmLink(tokens, users, cred, email, link) == SetUtmLink(tokens, users, cred', email, link)
  {
  }

  /** The link round trip. */
  lemma SetUtmThenGet(tokens: Tokens, users: Table, cred: Credentials, email: string, link: string)
    requires SetUtmLink(tokens, users, cred, email, link).result.Ok?
    ensures GetUtmLink(SetUtmLink(tokens, users, cred, email, link).users, email) == Ok(link)
  {
  }

  /** A slot holding one comma-free, non-empty id aggregates to exactly that id. */
  lemma SingleDeviceIds(row: Row, device: string)
    requires row.deviceId == Some(device) && device != "" && ',' !in device
    ensures DeviceIds(row) == [device]
  {
    Text.SplitWithoutSeparator(device, ',');
  }

  /** After a device registration with a non-empty id the device is
      addressable, its flag is the account's, and the listing reports the
      id split on commas. */
  lemma RegisterDeviceThenAddressable(users: Table, email: string, deviceId: string, deviceName: string)
    requires email in users && deviceId != ""
    ensures var after := RegisterDevice(users, email, deviceId, deviceName).users;
      && CheckSelfDestruct(after, email, Some(deviceId)) == Ok(users[email].selfDestruct)
      && DeviceIds(after[email]) == Text.Split(deviceId, ',')
  {
  }

  /** Distinct emails give distinct accounts, so the listing has one entry
      per owned row. */
  lemma {:induction false} AccountsOfCount(users: Table, emails: set<string>)
    requires emails <= users.Keys
    ensures |AccountsOf(users, emails)| == |emails|
    decreases |emails|
  {
    if emails != {} {
      var e :| e in emails;
      var rest := emails - {e};
      AccountsOfCount(users, rest);
      assert AccountsOf(users, emails) == AccountsOf(users, rest) + {AccountOf(e, users[e])};
      assert AccountOf(e, users[e]) !in AccountsOf(users, rest);
    }
  }

  /** A registrant owning N rows is listed exactly N accounts. */
  lemma RegisteredAccountsCount(tokens: Tokens, users: Table, cred: Credentials)
    requires RegisteredAccounts(tokens, users, cred).Ok?
    ensures |RegisteredAccounts(tokens, users, cred).value| == |Owned(users, tokens[cred.username])|
  {
    AccountsOfCount(users, Owned(users, tokens[cred.username]));
  }

  /** In the deployed configuration every token equals its registrant, so the
      ownership check compares the row's owner with the caller itself. */
  lemma DeployedOwnerIsCaller(cred: Credentials)
    requires CurrentPerson(PersonTokens, cred).Ok?
    ensures PersonTokens[cred.username] == cred.username
  {
  }

  /** The state-changing requests the service accepts. */
  datatype Request =
    | PostRegister(email: string, password: string, person: string)
    | PostSetSelfDestruct(cred: Credentials, email: string, maybeDevice: Option<string>, flag: bool)
    | PostSetUtmLink(cred: Credentials, email: string, link: string)
    | PostRegisterDevice(email: string, deviceId: string, deviceName: string)
    | PostSelfDestructDevice(cred: Credentials, email: string, deviceId: string)

  /** What survives any request: no row disappears, a row's password and owner
      never change, and its device counter never goes down. */
  predicate Persists(before: Table, after: Table)
  {
    && before.Keys <= after.Keys
    && forall e | e in before ::
      && after[e].password == before[e].password
      && after[e].registeredBy == before[e].registeredBy
      && after[e].totalDevices >= before[e].totalDevices
  }

  function Serve(tokens: Tokens, users: Table, req: Request): (o: Outcome)
    ensures Persists(users, o.users)
    ensures WellFormed(tokens, users) ==> WellFormed(tokens, o.users)
  {
    match req
    case PostRegister(email, password, person) => RegisterUser(tokens, users, email, password, person)
    case PostSetSelfDestruct(cred, email, deviceId, flag) => SetSelfDestruct(tokens, users, cred, email, deviceId, flag)
    case PostSetUtmLink(cred, email, link) => SetUtmLink(tokens, users, cred, email, link)
    case PostRegisterDevice(email, deviceId, deviceName) => RegisterDevice(users, email, deviceId, deviceName)
    case PostSelfDestructDevice(cred, email, deviceId) => SelfDestructDevice(tokens, users, cred, email, deviceId)
  }

  /** The table after serving `reqs` one after another. */
  function Run(tokens: Tokens, users: Table, reqs: seq<Request>): Table
    decreases |reqs|
  {
    if reqs == [] then users else Run(tokens, Serve(tokens, users, reqs[0]).users, reqs[1..])
  }

  /** In whatever order requests arrive, accounts are never lost, their
      password and owner never change, their device counters never decrease,
      and the table stays well formed. */
  lemma {:induction false} RunPersists(tokens: Tokens, users: Table, reqs: seq<Request>)
    ensures Persists(users, Run(tokens, users, reqs))
    ensures WellFormed(tokens, users) ==> WellFormed(tokens, Run(tokens, users, reqs))
    decreases |reqs|
  {
    if reqs != [] {
      var next := Serve(tokens, users, reqs[0]).users;
      RunPersists(tokens, next, reqs[1..]);
    }
  }

  /** The number of device registrations for `email` among `reqs`. */
  function DeviceRegistrations(reqs: seq<Request>, email: string): nat
    decreases |reqs|
  {
    if reqs == [] then 0
    else (if reqs[0].PostRegisterDevice? && reqs[0].email == email then 1 else 0)
         + DeviceRegistrations(reqs[1..], email)
  }

  /** One request moves a row's device counter by exactly 1 when it is a device
      registration for that row, and leaves it alone otherwise. */
  lemma ServeCounter(tokens: Tokens, users: Table, req: Request, email: string)
    requires email in users
    ensures Serve(tokens, users, req).users[email].totalDevices ==
      users[email].totalDevices + (if req.PostRegisterDevice? && req.email == email then 1 else 0)
  {
  }

  /** The device counter is a call counter: after any sequence of requests it
      has grown by exactly the number of device registrations for that email,
      whatever ids were registered. */
  lemma {:induction false} RunCountsDeviceRegistrations(tokens: Tokens, users: Table, reqs: seq<Request>, email: string)
    requires email in users
    ensures email in Run(tokens, users, reqs)
    ensures Run(tokens, users, reqs)[email].totalDevices ==
      users[email].totalDevices + DeviceRegistrations(reqs, email)
    decreases |reqs|
  {
    RunPersists(tokens, users, reqs);
    if reqs != [] {
      var next := Serve(tokens, users, reqs[0]).users;
      ServeCounter(tokens, users, reqs[0], email);
      assert Run(tokens, users, reqs) == Run(tokens, next, reqs[1..]);
      RunCountsDeviceRegistrations(tokens, next, reqs[1..], email);
    }
  }

  /** In a well-formed table, a listed account that reports device ids has had
      at least one device registration, and one that reports none has had no
      registration or last registered the empty id. */
  lemma ListedDevicesWereRegistered(tokens: Tokens, users: Table, cred: Credentials, a: Account)
    requires WellFormed(tokens, users)
    requires RegisteredAccounts(tokens, users, cred).Ok?
    requires a in RegisteredAccounts(tokens, users, cred).value
    ensures a.deviceIds != [] ==> a.totalDevices > 0
    ensures a.totalDevices == 0 ==> a.deviceIds == []
  {
    assert WellFormedRow(tokens, users[a.email]);
  }
}

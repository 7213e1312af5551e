/** The service that owns the `users` table and serves the state-changing
    requests, one at a time, each as a single read-check-write. */
module Server {
  import Registry

  class UserStore {
    /** The registrant credentials, fixed at start-up. */
    const tokens: Registry.Tokens
    /** The `users` table. */
    var users: Registry.Table

    ghost predicate Valid()
      reads this
    {
      Registry.WellFormed(tokens, users)
    }

    /** Opening the table: `stored` is what the database file already holds,
        which is empty on the very first start (`CREATE TABLE IF NOT EXISTS`
        keeps the rows of an existing file). */
    constructor (tokens: Registry.Tokens, stored: Registry.Table)
      requires Registry.WellFormed(tokens, stored)
      ensures Valid()
      ensures this.tokens == tokens && users == stored
    {
      this.tokens := tokens;
      users := stored;
    }

    method RegisterUser(email: string, password: string, person: string) returns (r: Registry.Result<()>)
      requires Valid()
      modifies this
      ensures Valid()
      ensures Registry.Outcome(r, users) == Registry.RegisterUser(tokens, old(users), email, password, person)
    {
      if person !in tokens.Values {
        return Registry.Err(Registry.InvalidPerson);
      }
      if email in users {
        return Registry.Err(Registry.Duplicate);
      }
      users := users[email := Registry.NewRow(password, person)];
      r := Registry.Ok(());
    }

    method SetSelfDestruct(cred: Registry.Credentials, email: string, deviceId: Registry.Option<string>, flag: bool := true)
      returns (r: Registry.Result<()>)
      requires Valid()
      modifies this
      ensures Valid()
      ensures Registry.Outcome(r, users) == Registry.SetSelfDestruct(tokens, old(users), cred, email, deviceId, flag)
    {
      var caller := Registry.CurrentPerson(tokens, cred);
      if caller.Err? {
        return Registry.Err(caller.error);
      }
      var person := caller.value;
      if Registry.Present(deviceId) {
        // device path: the row must hold this device
        if !Registry.OnDevice(users, email, deviceId.value) {
          return Registry.Err(Registry.NotFound);
        }
      } else {
        // account path: the email alone selects the row
        if email !in users {
          return Registry.Err(Registry.NotFound);
        }
      }
      if users[email].registeredBy != tokens[person] {
        return Registry.Err(Registry.Forbidden);
      }
      users := users[email := users[email].(selfDestruct := flag)];
      r := Registry.Ok(());
    }

    method SetUtmLink(cred: Registry.Credentials, email: string, link: string) returns (r: Registry.Result<()>)
      requires Valid()
      modifies this
      ensures Valid()
      ensures Registry.Outcome(r, users) == Registry.SetUtmLink(tokens, old(users), cred, email, link)
    {
      var caller := Registry.CurrentPerson(tokens, cred);
      if caller.Err? {
        return Registry.Err(caller.error);
      }
      if email !in users {
        return Registry.Err(Registry.NotFound);
      }
      users := users[email := users[email].(utmLink := link)];
      r := Registry.Ok(());
    }

    method RegisterDevice(email: string, deviceId: string, deviceName: string) returns (r: Registry.Result<()>)
      requires Valid()
      modifies this
      ensures Valid()
      ensures Registry.Outcome(r, users) == Registry.RegisterDevice(old(users), email, deviceId, deviceName)
    {
      if email !in users {
        return Registry.Err(Registry.NotFound);
      }
      var row := users[email];
      users := users[email := row.(deviceId := Registry.Some(deviceId), deviceName := Registry.Some(deviceName),
                                   totalDevices := row.totalDevices + 1)];
      r := Registry.Ok(());
    }

    method SelfDestructDevice(cred: Registry.Credentials, email: string, deviceId: string) returns (r: Registry.Result<()>)
      requires Valid()
      modifies this
      ensures Valid()
      ensures Registry.Outcome(r, users) == Registry.SelfDestructDevice(tokens, old(users), cred, email, deviceId)
    {
      var caller := Registry.CurrentPerson(tokens, cred);
      if caller.Err? {
        return Registry.Err(caller.error);
      }
      if !Registry.OnDevice(users, email, deviceId) {
        return Registry.Err(Registry.NotFound);
      }
      users := users[email := users[email].(selfDestruct := true)];
      r := Registry.Ok(());
    }
  }
}

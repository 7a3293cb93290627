/** Who a client is: the binding of client ids to verified usernames. */
module Auth {
  import opened Wrappers

  type Bytes = seq<nat>

  datatype Credential = Plaintext(stored: string) | Argon2Hash(hash: string)

  datatype UserEntry = UserEntry(credential: Credential, role: Option<string>)

  datatype UserConfig = UserConfig(
    username: string, password: Option<string>, passwordHash: Option<string>, role: Option<string>)

  /** Password verification is a parameter: UTF-8 and Argon2 are not modelled. */
  datatype Policy = Policy(
    enabled: bool, allowAnonymous: bool, users: map<string, UserEntry>, verify: (Bytes, Credential) -> bool)

  datatype Event =
    | Authenticate(client: string, username: Option<string>, password: Option<Bytes>)
    | Disconnect(client: string)

  function Lookup<V>(m: map<string, V>, k: string): Option<V> {
    if k in m then Some(m[k]) else None
  }

  /** The hash counts before the plaintext password; an entry with neither is unusable. */
  function EntryOf(u: UserConfig): Option<UserEntry> {
    if u.passwordHash.Some? then Some(UserEntry(Argon2Hash(u.passwordHash.value), u.role))
    else if u.password.Some? then Some(UserEntry(Plaintext(u.password.value), u.role))
    else None
  }

  /** The configured user of that name: the last usable entry. */
  ghost function UserFor(config: seq<UserConfig>, name: string): Option<UserEntry> {
    if config == [] then None
    else
      var last := config[|config| - 1];
      if last.username == name && EntryOf(last).Some? then EntryOf(last) else UserFor(config[..|config| - 1], name)
  }

  predicate Usable(u: UserConfig, name: string) {
    u.username == name && (u.passwordHash.Some? || u.password.Some?)
  }

  /** It has the role of the last usable entry of that name, and its hash or else its password. */
  lemma {:induction false} UserForIs(config: seq<UserConfig>, name: string, i: nat)
    requires i < |config| && Usable(config[i], name) && forall j :: i < j < |config| ==> !Usable(config[j], name)
    ensures UserFor(config, name).Some? && UserFor(config, name).value.role == config[i].role
    ensures UserFor(config, name).value.credential
      == if config[i].passwordHash.Some? then Argon2Hash(config[i].passwordHash.value)
         else Plaintext(config[i].password.value)
  {
    if i != |config| - 1 {
      assert !Usable(config[|config| - 1], name);
      UserForIs(config[..|config| - 1], name, i);
    }
  }

  lemma {:induction false} UserForNone(config: seq<UserConfig>, name: string)
    requires forall j :: 0 <= j < |config| ==> !Usable(config[j], name)
    ensures UserFor(config, name) == None
  {
    if config != [] {
      assert !Usable(config[|config| - 1], name);
      UserForNone(config[..|config| - 1], name);
    }
  }

  method BuildUsers(config: seq<UserConfig>) returns (users: map<string, UserEntry>)
    ensures forall name :: Lookup(users, name) == UserFor(config, name)
  {
    users := map[];
    for i := 0 to |config|
      invariant forall name :: Lookup(users, name) == UserFor(config[..i], name)
    {
      var u := config[i];
      assert config[..i + 1][..i] == config[..i];
      var credential: Credential;
      if u.passwordHash.Some? {
        credential := Argon2Hash(u.passwordHash.value);
      } else if u.password.Some? {
        credential := Plaintext(u.password.value);
      } else {
        continue;
      }
      users := users[u.username := UserEntry(credential, u.role)];
    }
    assert config[..|config|] == config;
  }

  /** A login that names a configured user and presents its password. */
  predicate Verified(p: Policy, username: string, password: Option<Bytes>) {
    && username in p.users
    && p.verify(if password.Some? then password.value else [], p.users[username].credential)
  }

  predicate Accepts(p: Policy, username: Option<string>, password: Option<Bytes>) {
    !p.enabled || match username case None => p.allowAnonymous case Some(name) => Verified(p, name, password)
  }

  /** The event changes the binding of the client. */
  predicate Rebinds(p: Policy, e: Event, client: string) {
    e.client == client && (e.Disconnect? || Accepts(p, e.username, e.password))
  }

  /** What the client is bound to after the events: nothing, anonymity, or a name. */
  ghost function Bound(p: Policy, h: seq<Event>, client: string): Option<Option<string>> {
    if h == [] then None
    else
      var e := h[|h| - 1];
      if !Rebinds(p, e, client) then Bound(p, h[..|h| - 1], client)
      else if e.Disconnect? then None
      else Some(e.username)
  }

  /** The accepted login at position `i` is the last event that concerns the client's binding. */
  ghost predicate LastLogin(p: Policy, h: seq<Event>, client: string, i: int) {
    && 0 <= i < |h| && h[i].Authenticate? && Rebinds(p, h[i], client)
    && forall j :: i < j < |h| ==> !Rebinds(p, h[j], client)
  }

  lemma {:induction false} LastLoginBinds(p: Policy, h: seq<Event>, client: string, i: int)
    requires LastLogin(p, h, client, i)
    ensures Bound(p, h, client) == Some(h[i].username)
  {
    if i < |h| - 1 {
      assert !Rebinds(p, h[|h| - 1], client);
      LastLoginBinds(p, h[..|h| - 1], client, i);
    }
  }

  lemma {:induction false} BoundHasLogin(p: Policy, h: seq<Event>, client: string) returns (i: int)
    requires Bound(p, h, client).Some?
    ensures LastLogin(p, h, client, i)
  {
    if Rebinds(p, h[|h| - 1], client) {
      i := |h| - 1;
    } else {
      i := BoundHasLogin(p, h[..|h| - 1], client);
    }
  }

  /** A client is bound to a username exactly by its last accepted login since its last disconnect. */
  lemma {:induction false} BoundIff(p: Policy, h: seq<Event>, client: string, username: Option<string>)
    ensures Bound(p, h, client) == Some(username)
            <==> exists i :: LastLogin(p, h, client, i) && h[i].username == username
  {
    if Bound(p, h, client) == Some(username) {
      var i := BoundHasLogin(p, h, client);
      LastLoginBinds(p, h, client, i);
    }
    if exists i :: LastLogin(p, h, client, i) && h[i].username == username {
      var i :| LastLogin(p, h, client, i) && h[i].username == username;
      LastLoginBinds(p, h, client, i);
    }
  }

  /** A login without a name is accepted exactly when authentication is off or anonymous clients are
      allowed; one with a name when authentication is off or the name is configured and its
      credential takes the password, of which no password is the empty one. */
  lemma AcceptedIff(p: Policy, username: Option<string>, password: Option<Bytes>)
    ensures username.None? ==> (Accepts(p, username, password) <==> !p.enabled || p.allowAnonymous)
    ensures username.Some? && password.Some? ==>
      (Accepts(p, username, password) <==>
        || !p.enabled
        || (username.value in p.users && p.verify(password.value, p.users[username.value].credential)))
    ensures username.Some? && password.None? ==> Accepts(p, username, None) == Accepts(p, username, Some([]))
  {
  }

  /** With authentication on, every bound name comes from a verified login of that client. */
  lemma {:induction false} BoundNameWasVerified(p: Policy, h: seq<Event>, client: string, name: string) returns (i: int)
    requires p.enabled && Bound(p, h, client) == Some(Some(name))
    ensures LastLogin(p, h, client, i) && h[i].client == client && h[i].username == Some(name)
    ensures Verified(p, name, h[i].password)
  {
    i := BoundHasLogin(p, h, client);
    LastLoginBinds(p, h, client, i);
  }

  class AuthProvider {
    const policy: Policy
    var clientUsernames: map<string, Option<string>>
    ghost var history: seq<Event>

    /** The map is the history's fold for every client. */
    ghost predicate Valid()
      reads this
    {
      forall client :: Lookup(clientUsernames, client) == Bound(policy, history, client)
    }

    constructor (enabled: bool, allowAnonymous: bool, config: seq<UserConfig>, verify: (Bytes, Credential) -> bool)
      ensures Valid() && history == []
      ensures policy.enabled == enabled && policy.allowAnonymous == allowAnonymous && policy.verify == verify
      ensures forall name :: Lookup(policy.users, name) == UserFor(config, name)
    {
      var users := BuildUsers(config);
      policy := Policy(enabled, allowAnonymous, users, verify);
      clientUsernames := map[];
      history := [];
    }

    method OnAuthenticate(client: string, username: Option<string>, password: Option<Bytes>) returns (ok: bool)
      requires Valid()
      modifies this
      ensures Valid() && history == old(history) + [Authenticate(client, username, password)]
      ensures ok == Accepts(policy, username, password)
    {
      history := history + [Authenticate(client, username, password)];
      assert history[..|history| - 1] == old(history);
      if !policy.enabled {
        clientUsernames := clientUsernames[client := username];
        return true;
      }
      if username.None? {
        if policy.allowAnonymous {
          clientUsernames := clientUsernames[client := None];
          return true;
        } else {
          return false;
        }
      }
      var name := username.value;
      var pwd := if password.Some? then password.value else [];
      if name !in policy.users {
        return false;
      }
      if policy.verify(pwd, policy.users[name].credential) {
        clientUsernames := clientUsernames[client := Some(name)];
        ok := true;
      } else {
        ok := false;
      }
    }

    method OnClientDisconnected(client: string)
      requires Valid()
      modifies this
      ensures Valid() && history == old(history) + [Disconnect(client)]
    {
      history := history + [Disconnect(client)];
      assert history[..|history| - 1] == old(history);
      clientUsernames := clientUsernames - {client};
    }

    /** The bound name, if any; anonymous and unknown clients look the same. */
    function GetClientUsername(client: string): (r: Option<string>)
      reads this
      ensures Valid() ==> forall name ::
        r == Some(name) <==> Bound(policy, history, client) == Some(Some(name))
    {
      var entry := Lookup(clientUsernames, client);
      if entry.Some? then entry.value else None
    }

    function GetUserRole(username: string): Option<string> {
      if username in policy.users then policy.users[username].role else None
    }
  }
}

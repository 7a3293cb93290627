/** What a client may do: role and default patterns over topics. */
module AclSpec {
  import opened Wrappers
  import opened Text
  import opened TopicMatch
  import opened PatternLists
  import opened Substitution
  import opened Auth

  datatype RoleConfig = RoleConfig(name: string, publish: seq<string>, subscribe: seq<string>)

  datatype RoleEntry = RoleEntry(publish: seq<string>, subscribe: seq<string>)

  datatype Action = Publish | Subscribe

  datatype Rules = Rules(
    enabled: bool, roles: map<string, RoleEntry>, defaultPublish: seq<string>, defaultSubscribe: seq<string>)

  function NameOrEmpty(username: Option<string>): string {
    if username.Some? then username.value else ""
  }

  predicate MatchesPattern(pattern: string, subject: string, client: string, username: Option<string>) {
    AclMatches(Chained(pattern, client, NameOrEmpty(username)), subject)
  }

  predicate AnyMatches(patterns: seq<string>, subject: string, client: string, username: Option<string>) {
    exists i :: 0 <= i < |patterns| && MatchesPattern(patterns[i], subject, client, username)
  }

  function RolePatterns(r: RoleEntry, action: Action): seq<string> {
    if action == Publish then r.publish else r.subscribe
  }

  function DefaultPatterns(rules: Rules, action: Action): seq<string> {
    if action == Publish then rules.defaultPublish else rules.defaultSubscribe
  }

  function RoleOf(rules: Rules, users: map<string, UserEntry>, username: Option<string>): Option<RoleEntry> {
    if username.None? || username.value !in users || users[username.value].role.None? then None
    else Lookup(rules.roles, users[username.value].role.value)
  }

  /** The bound name counts before the name the caller passes. */
  function Effective(bound: Option<string>, username: Option<string>): Option<string> {
    if bound.Some? then bound else username
  }

  /** A request is allowed by a pattern of the user's role or by a default pattern. */
  predicate Permits(rules: Rules, users: map<string, UserEntry>, bound: Option<string>,
                    client: string, username: Option<string>, subject: string, action: Action)
  {
    var who := Effective(bound, username);
    var role := RoleOf(rules, users, who);
    || !rules.enabled
    || (role.Some? && AnyMatches(RolePatterns(role.value, action), subject, client, who))
    || AnyMatches(DefaultPatterns(rules, action), subject, client, who)
  }

  /** A user without a name is matched like one whose name is empty. */
  lemma NamelessIsEmpty(pattern: string, subject: string, client: string)
    ensures MatchesPattern(pattern, subject, client, None) == MatchesPattern(pattern, subject, client, Some(""))
  {
  }

  /** The answer ignores the username argument under every configuration exactly when the
      client has a bound name. */
  lemma {:induction false} BoundNameDecidesIff(bound: Option<string>, client: string)
    ensures (forall rules, users, u1, u2, subject, action ::
               Permits(rules, users, bound, client, u1, subject, action)
               == Permits(rules, users, bound, client, u2, subject, action))
            <==> bound.Some?
  {
    if bound.None? {
      var rules := Rules(true, map[], ["%u"], []);
      LonePlaceholder("%u", client, "a");
      LonePlaceholder("%u", client, "b");
      SplitPlain("a", '/');
      SplitPlain("b", '/');
      assert MatchesPattern("%u", "a", client, Some("a"));
      assert rules.defaultPublish[0] == "%u";
      assert Permits(rules, map[], bound, client, Some("a"), "a", Publish);
      assert !Permits(rules, map[], bound, client, Some("b"), "a", Publish);
    }
  }

  // ----- Publishing and subscribing are separate -----

  /** The rules agree but for what they say about subscribing. */
  ghost predicate SamePublishing(r1: Rules, r2: Rules) {
    && r1.enabled == r2.enabled && r1.defaultPublish == r2.defaultPublish && r1.roles.Keys == r2.roles.Keys
    && forall name :: name in r1.roles ==> r1.roles[name].publish == r2.roles[name].publish
  }

  ghost predicate SameSubscribing(r1: Rules, r2: Rules) {
    && r1.enabled == r2.enabled && r1.defaultSubscribe == r2.defaultSubscribe && r1.roles.Keys == r2.roles.Keys
    && forall name :: name in r1.roles ==> r1.roles[name].subscribe == r2.roles[name].subscribe
  }

  /** What the rules say about one action never shows in the other. */
  lemma {:induction false} ActionsSeparate(r1: Rules, r2: Rules, users: map<string, UserEntry>, bound: Option<string>,
                                           client: string, username: Option<string>, subject: string)
    ensures SamePublishing(r1, r2) ==>
      Permits(r1, users, bound, client, username, subject, Publish)
      == Permits(r2, users, bound, client, username, subject, Publish)
    ensures SameSubscribing(r1, r2) ==>
      Permits(r1, users, bound, client, username, subject, Subscribe)
      == Permits(r2, users, bound, client, username, subject, Subscribe)
  {
    hide AnyMatches;
  }

  /** The role that a user holds. */
  ghost predicate Holds(rules: Rules, users: map<string, UserEntry>, name: string, role: string) {
    name in users && users[name].role == Some(role) && role in rules.roles
  }

  /** A pattern on the list for an action, of the user's role or by default, is enough for the
      action; with the rules enforced nothing else is. */
  lemma {:induction false} AllowedIff(rules: Rules, users: map<string, UserEntry>, name: string, role: string,
                                      client: string, subject: string)
    requires rules.enabled && Holds(rules, users, name, role)
    ensures Permits(rules, users, Some(name), client, None, subject, Publish) <==>
      || (exists i :: 0 <= i < |rules.roles[role].publish|
                      && MatchesPattern(rules.roles[role].publish[i], subject, client, Some(name)))
      || (exists i :: 0 <= i < |rules.defaultPublish|
                      && MatchesPattern(rules.defaultPublish[i], subject, client, Some(name)))
    ensures Permits(rules, users, Some(name), client, None, subject, Subscribe) <==>
      || (exists i :: 0 <= i < |rules.roles[role].subscribe|
                      && MatchesPattern(rules.roles[role].subscribe[i], subject, client, Some(name)))
      || (exists i :: 0 <= i < |rules.defaultSubscribe|
                      && MatchesPattern(rules.defaultSubscribe[i], subject, client, Some(name)))
  {
    hide MatchesPattern;
  }

  /** Without a role only the defaults count, and with the rules not enforced everything goes. */
  lemma {:induction false} AllowedWithoutRole(rules: Rules, users: map<string, UserEntry>, bound: Option<string>,
                                              client: string, username: Option<string>, subject: string)
    requires var who := if bound.Some? then bound else username;
      !exists name, role :: who == Some(name) && Holds(rules, users, name, role)
    ensures var who := if bound.Some? then bound else username;
      && (Permits(rules, users, bound, client, username, subject, Publish) <==>
           || !rules.enabled
           || exists i :: 0 <= i < |rules.defaultPublish|
                          && MatchesPattern(rules.defaultPublish[i], subject, client, who))
      && (Permits(rules, users, bound, client, username, subject, Subscribe) <==>
           || !rules.enabled
           || exists i :: 0 <= i < |rules.defaultSubscribe|
                          && MatchesPattern(rules.defaultSubscribe[i], subject, client, who))
  {
    hide MatchesPattern;
    var who := if bound.Some? then bound else username;
    RoleHeld(rules, users, who);
  }

  lemma RoleHeld(rules: Rules, users: map<string, UserEntry>, who: Option<string>)
    ensures RoleOf(rules, users, who).Some? ==>
      who.Some? && exists role :: Holds(rules, users, who.value, role)
  {
    if RoleOf(rules, users, who).Some? {
      assert Holds(rules, users, who.value, users[who.value].role.value);
    }
  }

  // ----- Default patterns and roles -----

  /** The rule as commented: default patterns only for users without a role. */
  predicate AsCommented(rules: Rules, users: map<string, UserEntry>, bound: Option<string>,
                        client: string, username: Option<string>, subject: string, action: Action)
  {
    var who := Effective(bound, username);
    var role := RoleOf(rules, users, who);
    || !rules.enabled
    || AnyMatches(if role.Some? then RolePatterns(role.value, action) else DefaultPatterns(rules, action),
                  subject, client, who)
  }

  /** The levels of a pattern with its placeholders filled in. */
  function FilledLevels(pattern: string, client: string, username: Option<string>): Levels {
    LevelsOf(Chained(pattern, client, NameOrEmpty(username)))
  }

  function Filled(patterns: seq<string>, client: string, username: Option<string>): Patterns {
    seq(|patterns|, i requires 0 <= i < |patterns| => FilledLevels(patterns[i], client, username))
  }

  lemma {:induction false} FilledAny(patterns: seq<string>, subject: string, client: string, username: Option<string>)
    ensures AnyMatches(patterns, subject, client, username)
            <==> AnyLevels(Filled(patterns, client, username), LevelsOf(subject))
  {
    hide Chained, AclLevels, LevelsOf;
    var ps := Filled(patterns, client, username);
    forall i | 0 <= i < |patterns|
      ensures MatchesPattern(patterns[i], subject, client, username) <==> AclLevels(ps[i], LevelsOf(subject)) {
    }
  }

  /** A request that a pattern allows and a list of patterns that does not cover it refuses. */
  lemma {:induction false} Unmatched(pattern: string, patterns: seq<string>, client: string, username: Option<string>)
    returns (subject: string)
    requires !CoversAny(Filled(patterns, client, username), FilledLevels(pattern, client, username), None, false)
    ensures MatchesPattern(pattern, subject, client, username) && !AnyMatches(patterns, subject, client, username)
  {
    hide Chained, AnyMatches, Filled, AnyLevels, CoversAny, Witness, Join, Split;
    var ps, f := Filled(patterns, client, username), FilledLevels(pattern, client, username);
    CoversComplete(ps, f, None, false);
    var t := Witness(ps, f, false);
    SplitWithout(Chained(pattern, client, NameOrEmpty(username)), '/');
    forall i | 0 <= i < |t| ensures '/' !in t[i] {
    }
    SplitJoin(t, '/');
    subject := Join(t, '/');
    FilledAny(patterns, subject, client, username);
  }

  /** One list of patterns allows nothing beyond another, whatever the request, exactly when the
      other covers each of its patterns. */
  lemma {:induction false} NothingBeyondIff(some: seq<string>, all: seq<string>, client: string,
                                            username: Option<string>)
    ensures (forall subject :: AnyMatches(some, subject, client, username) ==>
               AnyMatches(all, subject, client, username))
            <==> forall i :: 0 <= i < |some| ==>
                   CoversAny(Filled(all, client, username), FilledLevels(some[i], client, username), None, false)
  {
    hide CoversAny, FilledLevels, Filled, AnyLevels, MatchesPattern;
    var ps := Filled(all, client, username);
    if i :| 0 <= i < |some| && !CoversAny(ps, FilledLevels(some[i], client, username), None, false) {
      var subject := Unmatched(some[i], all, client, username);
      assert AnyMatches(some, subject, client, username) && !AnyMatches(all, subject, client, username);
    } else {
      forall subject | AnyMatches(some, subject, client, username) ensures AnyMatches(all, subject, client, username) {
        var i :| 0 <= i < |some| && MatchesPattern(some[i], subject, client, username);
        PatternCovered(some[i], all, subject, client, username);
      }
    }
  }

  lemma PatternCovered(pattern: string, patterns: seq<string>, subject: string, client: string,
                       username: Option<string>)
    requires CoversAny(Filled(patterns, client, username), FilledLevels(pattern, client, username), None, false)
    requires MatchesPattern(pattern, subject, client, username)
    ensures AnyMatches(patterns, subject, client, username)
  {
    hide CoversAny, Chained, Filled, AnyLevels, AnyMatches, AclLevels, LevelsOf;
    var f := FilledLevels(pattern, client, username);
    CoversSound(Filled(patterns, client, username), f, None, false, LevelsOf(subject));
    FilledAny(patterns, subject, client, username);
  }

  /** A user is answered as commented, whatever the request, exactly when the user has no role or
      the role's patterns, filled in, cover each default pattern. */
  lemma {:induction false} AsCommentedIff(rules: Rules, users: map<string, UserEntry>, bound: Option<string>,
                                          client: string, username: Option<string>, action: Action)
    requires rules.enabled
    ensures var who := Effective(bound, username);
      var role, defaults := RoleOf(rules, users, who), DefaultPatterns(rules, action);
      (forall subject :: Permits(rules, users, bound, client, username, subject, action)
                         == AsCommented(rules, users, bound, client, username, subject, action))
      <==> (role.Some? ==> forall i :: 0 <= i < |defaults| ==>
             CoversAny(Filled(RolePatterns(role.value, action), client, who),
                       FilledLevels(defaults[i], client, who), None, false))
  {
    hide AnyMatches, CoversAny, Filled, FilledLevels;
    var who := Effective(bound, username);
    var role, defaults := RoleOf(rules, users, who), DefaultPatterns(rules, action);
    if role.Some? {
      NothingBeyondIff(defaults, RolePatterns(role.value, action), client, who);
    }
    forall subject ensures Permits(rules, users, bound, client, username, subject, action)
                           == AsCommented(rules, users, bound, client, username, subject, action)
                           <==> (role.Some? && AnyMatches(defaults, subject, client, who)
                                 ==> AnyMatches(RolePatterns(role.value, action), subject, client, who)) {
    }
  }

  /** A user whose role allows nothing may publish to "d" by a default pattern. */
  lemma {:induction false} RoleHolderByDefault(client: string, credential: Credential)
    ensures var rules := Rules(true, map["r" := RoleEntry([], [])], ["d"], []);
      var users := map["u" := UserEntry(credential, Some("r"))];
      && RoleOf(rules, users, Some("u")).Some?
      && Permits(rules, users, None, client, Some("u"), "d", Publish)
      && !AsCommented(rules, users, None, client, Some("u"), "d", Publish)
  {
    assert Chained("d", client, "u") == "d";
    assert ["d"][0] == "d" && MatchesPattern("d", "d", client, Some("u")) by { SplitPlain("d", '/'); }
    assert AnyMatches(["d"], "d", client, Some("u"));
    assert !AnyMatches([], "d", client, Some("u"));
  }

  // ----- Isolation of clients by their id -----

  predicate Plain(s: string) {
    '/' !in s && '%' !in s && '+' !in s && '#' !in s
  }

  /** Wildcards fill whole levels. */
  predicate WholeWildcards(levels: Levels) {
    forall i :: 0 <= i < |levels| ==> ('+' in levels[i] || '#' in levels[i] ==> levels[i] == "+" || levels[i] == "#")
  }

  /** A pattern with the client id as a level of its own, before any "#". */
  ghost predicate Isolating(pattern: string, j: nat) {
    var levels := LevelsOf(pattern);
    && Tidy(pattern) && WholeWildcards(levels)
    && j < |levels| && levels[j] == "%c"
    && forall i :: 0 <= i < j ==> levels[i] != "#"
  }

  lemma {:induction false} LiteralLevel(p: Levels, t: Levels, j: nat)
    requires AclLevels(p, t) && j < |p| && p[j] != "+" && p[j] != "#"
    requires forall i :: 0 <= i < j ==> p[i] != "#"
    ensures j < |t| && t[j] == p[j]
  {
    if j > 0 {
      assert p[0] != "#";
      LiteralLevel(p[1..], t[1..], j - 1);
    }
  }

  lemma {:induction false} PlainKeepsChar(level: string, client: string, user: string, c: char)
    requires c !in level && c !in client && c !in user
    ensures c !in Substitute(level, client, user)
  {
    SubstituteFree(level, client, user, c);
  }

  /** Every topic an isolating pattern matches carries the client's id at its level. */
  lemma {:induction false} TopicNamesClient(pattern: string, j: nat, topic: string, client: string,
                                            username: Option<string>)
    requires Isolating(pattern, j) && Plain(client) && Plain(NameOrEmpty(username))
    requires MatchesPattern(pattern, topic, client, username)
    ensures j < |LevelsOf(topic)| && LevelsOf(topic)[j] == client
  {
    var user := NameOrEmpty(username);
    var levels := LevelsOf(pattern);
    TidyChained(pattern, client, user);
    SplitCommutes(pattern, client, user);
    var filled := SubstituteAll(levels, client, user);
    forall i | 0 <= i < j ensures filled[i] != "#" {
      if levels[i] == "+" {
        assert Substitute("+", client, user) == "+";
      } else {
        PlainKeepsChar(levels[i], client, user, '#');
      }
    }
    LonePlaceholder(levels[j], client, user);
    LiteralLevel(filled, LevelsOf(topic), j);
  }

  /** Two different clients never match the same topic through an isolating pattern. */
  lemma {:induction false} Isolation(pattern: string, j: nat, topic: string,
                  client1: string, user1: Option<string>, client2: string, user2: Option<string>)
    requires Isolating(pattern, j) && client1 != client2
    requires Plain(client1) && Plain(client2) && Plain(NameOrEmpty(user1)) && Plain(NameOrEmpty(user2))
    ensures !(MatchesPattern(pattern, topic, client1, user1) && MatchesPattern(pattern, topic, client2, user2))
  {
    if MatchesPattern(pattern, topic, client1, user1) && MatchesPattern(pattern, topic, client2, user2) {
      TopicNamesClient(pattern, j, topic, client1, user1);
      TopicNamesClient(pattern, j, topic, client2, user2);
    }
  }

  /** All patterns of the action name the client at the same level `j`. */
  ghost predicate AllIsolating(rules: Rules, action: Action, j: nat) {
    && (forall i :: 0 <= i < |DefaultPatterns(rules, action)| ==> Isolating(DefaultPatterns(rules, action)[i], j))
    && (forall r | r in rules.roles :: forall i :: 0 <= i < |RolePatterns(rules.roles[r], action)| ==>
          Isolating(RolePatterns(rules.roles[r], action)[i], j))
  }

  lemma {:induction false} PermittedNamesClient(rules: Rules, users: map<string, UserEntry>, action: Action, j: nat,
                             bound: Option<string>, client: string, username: Option<string>, topic: string)
    requires rules.enabled && AllIsolating(rules, action, j)
    requires Plain(client) && Plain(NameOrEmpty(Effective(bound, username)))
    requires Permits(rules, users, bound, client, username, topic, action)
    ensures j < |LevelsOf(topic)| && LevelsOf(topic)[j] == client
  {
    var who := Effective(bound, username);
    var role := RoleOf(rules, users, who);
    if role.Some? && AnyMatches(RolePatterns(role.value, action), topic, client, who) {
      var patterns := RolePatterns(role.value, action);
      var i :| 0 <= i < |patterns| && MatchesPattern(patterns[i], topic, client, who);
      assert users[who.value].role.value in rules.roles;
      TopicNamesClient(patterns[i], j, topic, client, who);
    } else {
      var patterns := DefaultPatterns(rules, action);
      var i :| 0 <= i < |patterns| && MatchesPattern(patterns[i], topic, client, who);
      TopicNamesClient(patterns[i], j, topic, client, who);
    }
  }

  /** Under such rules no topic is open to two clients, whatever their users and roles. */
  lemma {:induction false} ClientsIsolated(rules: Rules, users: map<string, UserEntry>, action: Action,
                        j: nat, topic: string,
                        bound1: Option<string>, client1: string, user1: Option<string>,
                        bound2: Option<string>, client2: string, user2: Option<string>)
    requires rules.enabled && AllIsolating(rules, action, j) && client1 != client2
    requires Plain(client1) && Plain(NameOrEmpty(Effective(bound1, user1)))
    requires Plain(client2) && Plain(NameOrEmpty(Effective(bound2, user2)))
    ensures !(Permits(rules, users, bound1, client1, user1, topic, action)
              && Permits(rules, users, bound2, client2, user2, topic, action))
  {
    if Permits(rules, users, bound1, client1, user1, topic, action)
       && Permits(rules, users, bound2, client2, user2, topic, action) {
      PermittedNamesClient(rules, users, action, j, bound1, client1, user1, topic);
      PermittedNamesClient(rules, users, action, j, bound2, client2, user2, topic);
    }
  }
}

/** The access-control hooks over the authentication provider. */
module Acl {
  import opened Wrappers
  import opened TopicMatch
  import opened Substitution
  import opened Auth
  import opened AclSpec

  /** The configured role of that name: the last one. */
  ghost function RoleFor(config: seq<RoleConfig>, name: string): Option<RoleEntry> {
    if config == [] then None
    else
      var last := config[|config| - 1];
      if last.name == name then Some(RoleEntry(last.publish, last.subscribe)) else RoleFor(config[..|config| - 1], name)
  }

  /** It has the lists of the last entry of that name; a name nobody configured is no role. */
  lemma {:induction false} RoleForIs(config: seq<RoleConfig>, name: string, i: nat)
    requires i < |config| ==> config[i].name == name
    requires forall j :: i < j < |config| || (i >= |config| && 0 <= j < |config|) ==> config[j].name != name
    ensures RoleFor(config, name)
      == if i < |config| then Some(RoleEntry(config[i].publish, config[i].subscribe)) else None
  {
    if config != [] && i != |config| - 1 {
      var n := |config| - 1;
      assert config[n].name != name;
      RoleForIs(config[..n], name, i);
    }
  }

  method BuildRoles(config: seq<RoleConfig>) returns (roles: map<string, RoleEntry>)
    ensures forall name :: Lookup(roles, name) == RoleFor(config, name)
  {
    roles := map[];
    for i := 0 to |config|
      invariant forall name :: Lookup(roles, name) == RoleFor(config[..i], name)
    {
      assert config[..i + 1][..i] == config[..i];
      roles := roles[config[i].name := RoleEntry(config[i].publish, config[i].subscribe)];
    }
    assert config[..|config|] == config;
  }

  method CheckPatterns(patterns: seq<string>, subject: string, client: string, username: Option<string>)
    returns (b: bool)
    ensures b == AnyMatches(patterns, subject, client, username)
  {
    hide AclLevels, Chained;
    for i := 0 to |patterns|
      invariant forall k :: 0 <= k < i ==> !MatchesPattern(patterns[k], subject, client, username)
    {
      var filled := Chained(patterns[i], client, NameOrEmpty(username));
      var hit := MqttPatternMatch(filled, subject);
      if hit {
        return true;
      }
    }
    b := false;
  }

  class AclProvider {
    const rules: Rules
    const authProvider: AuthProvider

    constructor (enabled: bool, config: seq<RoleConfig>, defaultPublish: seq<string>, defaultSubscribe: seq<string>,
                 authProvider: AuthProvider)
      ensures this.authProvider == authProvider
      ensures rules.enabled == enabled
      ensures rules.defaultPublish == defaultPublish && rules.defaultSubscribe == defaultSubscribe
      ensures forall name :: Lookup(rules.roles, name) == RoleFor(config, name)
    {
      var roles := BuildRoles(config);
      rules := Rules(enabled, roles, defaultPublish, defaultSubscribe);
      this.authProvider := authProvider;
    }

    method OnPublishCheck(client: string, username: Option<string>, topic: string) returns (ok: bool)
      ensures ok == Permits(rules, authProvider.policy.users, authProvider.GetClientUsername(client),
                            client, username, topic, Publish)
    {
      ok := Check(client, username, topic, Publish);
    }

    method OnSubscribeCheck(client: string, username: Option<string>, filter: string) returns (ok: bool)
      ensures ok == Permits(rules, authProvider.policy.users, authProvider.GetClientUsername(client),
                            client, username, filter, Subscribe)
    {
      ok := Check(client, username, filter, Subscribe);
    }

    /** The common shape of both checks: the role's patterns first, then the defaults. */
    method Check(client: string, username: Option<string>, subject: string, action: Action) returns (ok: bool)
      ensures ok == Permits(rules, authProvider.policy.users, authProvider.GetClientUsername(client),
                            client, username, subject, action)
    {
      hide AnyMatches;
      if !rules.enabled {
        return true;
      }
      var actual := authProvider.GetClientUsername(client);
      var who := Effective(actual, username);
      var role := GetRolePermissions(who);
      if role.Some? {
        var byRole := CheckPatterns(RolePatterns(role.value, action), subject, client, who);
        if byRole {
          return true;
        }
      }
      ok := CheckPatterns(DefaultPatterns(rules, action), subject, client, who);
    }

    function GetRolePermissions(username: Option<string>): (r: Option<RoleEntry>)
      ensures r == RoleOf(rules, authProvider.policy.users, username)
    {
      if username.None? then None
      else
        var role := authProvider.GetUserRole(username.value);
        if role.None? then None else Lookup(rules.roles, role.value)
    }
  }

  /** Across both providers: while a client's last accepted login since its last disconnect
      named a user, the answer is the one for that user, whatever name the caller passes. */
  lemma {:induction false} VerifiedNameDecides(p: Policy, h: seq<Event>, rules: Rules, client: string, name: string,
                            username: Option<string>, subject: string, action: Action, i: int)
    requires p.enabled && LastLogin(p, h, client, i) && h[i].username == Some(name)
    ensures Verified(p, name, h[i].password)
    ensures Bound(p, h, client) == Some(Some(name))
    ensures Permits(rules, p.users, Some(name), client, username, subject, action)
            == Permits(rules, p.users, None, client, Some(name), subject, action)
  {
    LastLoginBinds(p, h, client, i);
  }
}

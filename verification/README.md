# VibeMQ, verified

A Dafny model of the parts of VibeMQ, an MQTT broker, whose correctness is not visible from
reading one function, and proofs about them. `dafny verify dfyconfig.toml` checks everything.

The model covers

- **the bridge to a remote broker**: the reconnecting loop as a protocol over every interleaving of
  its channel's producers and the network, the connection loop as it is coded, and its packet identifiers;
- **access control on top of authentication**: topic patterns, the two chained replacements, the
  binding of client ids to verified names over whole histories of events;
- **routing**: the subscription trie, the subscription store with its answer cache and shared
  groups, and the cache under every interleaving of readers and writers;
- **the buffer pool** under every interleaving of its users;
- **the profile viewer** embedded in the binary: the LRU cache on a doubly linked list and the row
  atlas built on it, the call-tree builder and its open/close traversal, the fuzzy matcher, the
  base64 VLQ codec and the source-map `mappings` text, and the collapsed-stack text that the
  broker prints and the viewer reads.

Code that changes things step by step is modelled by classes, methods and loops, each proved equal
to a specification function; what the program promises is then proved of those functions, over all
inputs, histories or interleavings. Every viewer file keeps one module per line, so its citations
are single lines.

## What was found

Some properties one would expect do not hold of the code. For each there is a concrete failing
case and the exact condition under which the property does hold.

- A pattern that matches a filter does not always match every topic the filter matches: it does
  exactly when no `#` of the filter stands opposite a `+` of the pattern
  (`Containment.ContainmentIff`; `+` and `#` in `Containment.HashUnderPlusLeaks`).
- Permission to subscribe does not always cover what the subscription brings in. The broker's `#`
  also covers the parent level, the access-control loop's does not (`TopicMatch.AclVersusStandard`),
  and access control is asked about the filter with its `$share/` prefix while the store files it
  without. The exact condition, over accepted filters and topics that can be published, is
  `Delivery.DeliveryIff` for one pattern and `ListDelivery.PermittedDeliveryIff` for all the patterns
  in force, which can cover a filter together though none does alone (`ListDelivery.OnlyTogether`).
  Cases are `Delivery.SharedSlips` and `Delivery.UnsharedSlips`.
- Replacing `%c` and then `%u` is one simultaneous substitution exactly when the first replacement
  creates no new `%u` (`Substitution.ChainedIff`; `Substitution.ClientNamedLikePlaceholder`).
- VLQ decoding inverts encoding exactly for absolute values below 2^30 (`Vlq.RoundTripIff`;
  `Vlq.LargeIsLost`).
- The source-map consumer remembers segments in a plain object, so a segment spelled like an
  inherited property is not decoded. It reads what the text says exactly when no piece is such a
  name, or another piece makes it give up anyway (`SourceMapReading.ReadsIff`;
  `SourceMapReading.ValueOf` and `SourceMapReading.Constructor`). What the generator writes never
  holds such a name (`SourceMapReading.WrittenPlain`).
- Waking from a back-off discards a waiting command that is not a shutdown
  (`BridgeProtocol.PublishLostInBackoff`); nothing is discarded exactly when no back-off ends with
  such a command waiting (`BridgeProtocol.NothingDiscardedIff`).
- With concurrent callers a packet identifier can be zero (`PacketIds.ZeroIdHappens`); exactly when
  is `PacketIds.ZeroIdIff`.
- A printed report is read back exactly when no name has a semicolon or a line terminator
  (`CollapsedRoundTrip.RoundTripIff`; `CollapsedRoundTrip.SemicolonSplits`); entries with negative
  counts are never read back.
- A call can miss a change of the subscriptions that was made before it began
  (`TopicCache.UnannouncedCanBeMissed`), exactly when an answer for its topic at the current generation
  from an older trie is cached, is about to be stored, or has been computed without a shared group
  while the cache has room or may come to have it (`TopicCache.MissIff`). That never happens while no
  writer is between its change and the announcement (`TopicCache.NothingMissed`), nor to a topic that
  has had a shared group ever since the announced changes (`TopicCache.GroupedNeverMissed`).
- A round of messages can pass a group's member over, exactly when the turn counter wraps within the
  round and the number of members does not divide 2^64 (`RoundRobin.EveryoneInTurnIff`).

The comments at src/acl/mod.rs:165 and 197 say the default permissions are for users without a role. The
code, and so the model, tries them for everyone whose role did not already allow the request. The
two rules agree for a user exactly when the user has no role or the role's patterns, filled in, cover
each default pattern, which is decided level by level on the patterns (`AclSpec.AsCommentedIff`;
`AclSpec.RoleHolderByDefault`).

## Model

| member | source | states |
|---|---|---|
| BridgeProtocol.RunAccounted | src/bridge/client.rs:102-155 | In every run the accepted commands are, in order, those taken from the queue followed by those still in it; at most one command is discarded per failed attempt; a shutdown is only ever obeyed and is the last command taken |
| BridgeProtocol.StepAccounted | src/bridge/client.rs:287-357 | Every step of the bridge, its producers or the network keeps that accounting |
| BridgeProtocol.WrittenInOrder | src/bridge/client.rs:287-357 | What was written to the remote broker is a subsequence of what the channel accepted |
| BridgeProtocol.FateInOrder | src/bridge/client.rs:287-357 | The same for each other fate a command can have |
| BridgeProtocol.DoneIsFinal | src/bridge/client.rs:125-153 | Once the bridge has stopped, whatever happens later changes only whether the senders are gone: nothing sent after a shutdown is written |
| BridgeProtocol.RunTrace | src/bridge/client.rs:112-242 | Every status trace starts Disconnected, follows only the allowed transitions, and ends in Disconnected exactly when the bridge has stopped or never started |
| BridgeProtocol.StepTrace | src/bridge/client.rs:109-154 | Every step keeps that trace |
| BridgeProtocol.RunWaits | src/bridge/client.rs:109-141 | The k-th wait is the initial interval for k = 0 and min(initial * 2^k, max) for k >= 1 |
| BridgeProtocol.NextWait | src/bridge/client.rs:139-141 | Doubling and capping the k-th interval gives the closed form for the next |
| BridgeProtocol.RunFailures | src/bridge/client.rs:102-155 | Over every run there is one wait for each failed attempt, each lost connection and each publish that could not be written, and for nothing else |
| BridgeProtocol.RunOutcomes | src/bridge/client.rs:287-357 | Over every run each outcome of sending a command, and each shutdown taken, is on the ledger as often as it happened |
| BridgeProtocol.RunPhases | src/bridge/client.rs:102-242 | Over every run the channel accepts exactly what is sent while the task lives, senders remain and fewer than 1000 commands wait; there is a Connected for each established connection; the task has ended exactly when it took a shutdown or a back-off ended with nothing to take and every sender gone |
| BridgeProtocol.WriteErrorEnds | src/bridge/client.rs:310-313 | After a publish that cannot be written the bridge is backing off; after another command that cannot be it is still connected |
| BridgeProtocol.NothingDiscardedIff | src/bridge/client.rs:145-153 | A run discards nothing if and only if no back-off ends with a command other than a shutdown at the head of the queue |
| BridgeProtocol.PublishLostInBackoff | src/bridge/client.rs:145-153 | Any command sent during the first back-off is discarded |
| BridgeTasks.BridgeTask.constructor | src/bridge/client.rs:524-539 | A spawned bridge is disconnected, with an empty channel and the initial interval |
| BridgeTasks.BridgeTask.ConnectionLoop | src/bridge/client.rs:102-155 | For every script of the environment, the loop's status writes, queue, interval, sleeps and written packets end as the protocol's run on that script; it returns only when the protocol is done |
| BridgeTasks.BridgeTask.ConnectAndRun | src/bridge/client.rs:158-432 | One connection leaves the protocol waiting when it failed and done when it was shut down |
| BridgeTasks.BridgeTask.MessageLoop | src/bridge/client.rs:282-431 | The message loop stays in step with the protocol until it exits |
| BridgeTasks.BridgeTask.TakeCommand | src/bridge/client.rs:287-357 | Taking one command writes it, skips it, fails or ends exactly as the protocol says for its kind and outcome |
| BridgeTasks.BridgeTask.BackOff | src/bridge/client.rs:130-153 | After the sleep the bridge dials again, or stops on a shutdown or a closed and empty channel |
| BridgeTasks.BridgeTask.TryReceive | src/bridge/client.rs:145-153 | The one look at the channel after a back-off takes, obeys or drops as the protocol says |
| PacketIds.PacketIdSource.constructor | src/bridge/client.rs:72-83 | The counter starts so that the first identifier is 1 |
| PacketIds.PacketIdSource.NextPacketId | src/bridge/client.rs:92-99 | With one caller at a time the n-th identifier is 1 + n mod 65535, never zero |
| PacketIds.SameIdIff | src/bridge/client.rs:92-99 | In every interleaving two calls get the same identifier if and only if their last draws lie a multiple of 65536 apart |
| PacketIds.ZeroIdIff | src/bridge/client.rs:92-99 | In every interleaving a call returns zero if and only if its first draw was zero and the others drew 65535 times, modulo 65536, before its second |
| PacketIds.ZeroIdHappens | src/bridge/client.rs:92-99 | There is an interleaving in which a call returns zero |
| PacketIds.RunSound | src/bridge/client.rs:92-99 | Every interleaving: the counter is one more than the number of draws modulo 65536, each call returns what its last draw read, and it drew twice exactly when its first draw read zero |
| PacketIds.EachDrawOnce | src/bridge/client.rs:92-99 | Every interleaving: each draw belongs to exactly one finished call, or else to exactly one caller still waiting for its second draw |
| PacketIds.BetweenAreOthers | src/bridge/client.rs:92-99 | The draws between the two draws of a call are all by other callers |
| PacketIds.AloneIsSequential | src/bridge/client.rs:92-99 | A caller alone in the interleaving model gets the sequential identifiers |
| PoolProtocol.RunSound | src/buffer_pool.rs:44-61 | In every interleaving each buffer is in exactly one of the pool, one holder's hands or the dropped; the pool has at most 256 buffers, all empty and at most 16384 long; get gives out only empty ones; buffers leave in the order they entered |
| PoolProtocol.NextExclusive | src/buffer_pool.rs:44-61 | Every half of a get or a put keeps ownership exclusive |
| PoolProtocol.NextClean | src/buffer_pool.rs:14-17 | Every half of a get or a put keeps the pool bounded and its buffers empty and small |
| PoolProtocol.OneOwner | src/buffer_pool.rs:44-61 | No two claims name the same buffer, and a claimed buffer is neither pooled nor dropped |
| BufferPools.BufferPool.Get | src/buffer_pool.rs:44-48 | The oldest pooled buffer or a new one of the configured size, empty; a step of the protocol that claims it for the holder |
| BufferPools.BufferPool.Put | src/buffer_pool.rs:54-61 | An oversized buffer is dropped untouched; another is cleared and becomes the newest in the pool if there is room; exactly the protocol's two halves of a put |
| BufferPools.BufferPool.PutMade | src/buffer_pool.rs:54-61 | The same for a buffer that the pool never gave out: the protocol's creation of a buffer followed by its two halves of a put |
| BufferPools.BufferPool.constructor | src/buffer_pool.rs:35-40 | An empty pool, for any buffer size |
| TopicMatch.MqttPatternMatch | src/acl/mod.rs:87-117 | On all strings the two-index loop answers as the level-by-level definition |
| TopicMatch.TopicMatchesFilter | src/topic/validation.rs:188-229 | On all strings the broker's loop answers as its level-by-level definition with the rule for `$` topics |
| TopicMatch.DollarSpelled | src/topic/validation.rs:188-229 | Only a filter that spells the first level of a `$` topic matches it |
| TopicMatch.OtherTopics | src/topic/validation.rs:188-229 | On every other topic, and for such a filter, the levels alone decide |
| TopicMatch.BrokerIsStandard | src/topic/validation.rs:188-229 | For filters with `#` only at the end the broker agrees with section 4.7.1 of MQTT Version 5.0 |
| TopicMatch.AclVersusStandard | src/acl/mod.rs:87-117 | For such filters access control agrees with section 4.7.1 except exactly when the filter ends in `#` and the topic has one level fewer |
| Containment.Contained | src/acl/mod.rs:174-204 | A pattern that matches a filter matches the filter's topics when no `#` of the filter is opposite a `+` |
| Containment.Leaks | src/acl/mod.rs:87-117 | Otherwise the constructed topic matches the filter and not the pattern |
| Containment.ContainmentIff | src/acl/mod.rs:174-204 | The containment holds for all topics if and only if no `#` of the filter is opposite a `+` |
| Containment.HashUnderPlusLeaks | src/acl/mod.rs:87-117 | A case of it: the pattern `+` permits the filter `#`, which lets in `a/b`, which the pattern does not match |
| TopicValidation.ValidateTopicFilter | src/topic/validation.rs:113-179 | The loop over the levels accepts exactly the filters with whole-level wildcards, `#` last, within the limits, and with a proper group if they ask to be shared |
| TopicValidation.AcceptedIff | src/topic/validation.rs:113-179 | Every filter, spelled out: accepted exactly when not empty, at most 65535 bytes, without null character, with its wildcards placed by the rule and within the limit of levels; a shared one by its filter proper and a group that is not empty and has no wildcard |
| TopicValidation.WildcardsPlaced | src/topic/validation.rs:113-179 | The test level by level is, for all texts, the rule of section 4.7.1 about characters: `#` is the last character, `+` ends its level, and both begin one |
| TopicValidation.Utf8Least | src/topic/validation.rs:113-179 | The byte length of a character is the least whose payload has room for it |
| TopicValidation.StoredIsFiled | src/topic/mod.rs:105-119 | What is filed is the filter without the group of a shared subscription |
| Delivery.DeliveryIff | src/broker/connection/subscribe.rs:45-122 | For every filter the broker accepts and every topic that can be published: the subscription brings in only topics that the pattern allows if and only if the pattern covers the filter as it is stored, under any limit on levels |
| Delivery.Uncovered | src/broker/connection/publish.rs:31-34 | Otherwise it gives a topic that can be published, is delivered and is not allowed |
| Delivery.NoHashCovered | src/acl/mod.rs:87-117 | A filter without `#` that is stored as it was asked for is covered once it is permitted |
| Delivery.SharedSlips | src/topic/mod.rs:105-119 | The pattern `+/+/x` permits the filter `$share/g/x`, which brings in the topic `x`, which the pattern does not allow |
| Delivery.UnsharedSlips | src/acl/mod.rs:87-117 | The pattern `a/+` permits the filter `a/#`, which brings in `a/b/c` |
| ListDelivery.PermittedDeliveryIff | src/acl/mod.rs:174-204 | For every configuration, user and accepted filter: the subscription brings in only topics, of all that can be published, that the user's rules for subscribing allow if and only if the patterns in force together cover the filter as it is stored |
| ListDelivery.CoveredByAll | src/acl/mod.rs:119-129 | The sufficient half, whatever the lengths |
| ListDelivery.UncoveredByAll | src/broker/connection/publish.rs:31-34 | Otherwise it gives a topic that can be published, is delivered and that no pattern allows |
| ListDelivery.OnePattern | src/acl/mod.rs:119-129 | For a list of one pattern the condition is the one of `Delivery.DeliveryIff` |
| ListDelivery.OnlyTogether | src/acl/mod.rs:87-117 | The patterns `a` and `a/#` together cover the filter `a/#`, and neither does alone |
| ListDelivery.AcceptedWellFormed | src/topic/validation.rs:113-179 | What the store keeps of an accepted filter has `#` only at the end and wildcards only as whole levels |
| Substitution.ChainedIff | src/acl/mod.rs:72-84 | The two chained replacements equal the simultaneous substitution for every username if and only if the first one creates no new `%u` |
| Substitution.ClientNamedLikePlaceholder | src/acl/mod.rs:72-84 | A case where they differ: the pattern `%c` for a client that calls itself `%u` |
| Substitution.NoNewPairs | src/acl/mod.rs:72-84 | Without a new `%u` they are equal |
| Substitution.TidyChained | src/acl/mod.rs:72-84 | They are equal when every `%` starts a placeholder and the client id has no `%` |
| Substitution.TidyAround | src/acl/mod.rs:72-84 | Tidy pieces with a placeholder in between make a tidy pattern |
| Substitution.SplitCommutesIff | src/acl/mod.rs:72-84 | Substituting and splitting commute if and only if no substituted value has a slash |
| Substitution.SplitCommutes | src/acl/mod.rs:72-84 | The forward direction, level by level |
| Substitution.SeparatorsAdded | src/acl/mod.rs:72-84 | A substituted value with a separator adds levels |
| Auth.BuildUsers | src/auth/mod.rs:50-78 | The user table answers as the last configured entry of each name |
| Auth.UserForIs | src/auth/mod.rs:50-78 | That entry is the last usable one: its role, and its hash or else its password |
| Auth.UserForNone | src/auth/mod.rs:50-78 | Without a usable entry there is no such user |
| Auth.AcceptedIff | src/auth/mod.rs:135-173 | A login without a name is accepted exactly when authentication is off or anonymous clients are allowed, one with a name exactly when authentication is off or the name is configured and its credential takes the password; no password counts as the empty one |
| Auth.AuthProvider.constructor | src/auth/mod.rs:50-78 | The same for the provider, with no client bound |
| Auth.AuthProvider.OnAuthenticate | src/auth/mod.rs:135-173 | Accepts exactly what the policy accepts, and the binding map stays the fold over the history of events |
| Auth.AuthProvider.OnClientDisconnected | src/auth/mod.rs:175-177 | The binding map stays the fold over the history |
| Auth.AuthProvider.GetClientUsername | src/auth/mod.rs:91-96 | The name the history binds to the client |
| Auth.BoundIff | src/auth/mod.rs:135-177 | A client is bound to a name if and only if its last accepted login since its last disconnect gave that name |
| Auth.BoundNameWasVerified | src/auth/mod.rs:135-173 | With authentication on, every bound name has an earlier login of that client whose password was verified |
| AclSpec.BoundNameDecidesIff | src/acl/mod.rs:154-172 | The answer ignores the username argument, for all rules, users and requests, if and only if the client has a bound name |
| AclSpec.ActionsSeparate | src/acl/mod.rs:141-204 | Rules that differ only in what they say about subscribing permit the same publishing, and the other way round |
| AclSpec.AllowedIff | src/acl/mod.rs:154-204 | For a holder of a role: publishing is permitted exactly by a pattern on the role's publish list or the default one, subscribing exactly by one on the subscribe lists |
| AclSpec.AllowedWithoutRole | src/acl/mod.rs:149-204 | For anybody else exactly by the default list of the action, or always when access control is off |
| AclSpec.NamelessIsEmpty | src/acl/mod.rs:72-84 | A user without a name is matched like one whose name is empty |
| PatternLists.CoversSound | src/acl/mod.rs:119-129 | What `CoversAny` accepts is right: every list of levels that the filter lets in, within the limit, is matched by some pattern of the list |
| PatternLists.CoversComplete | src/acl/mod.rs:119-129 | What it rejects is not: the constructed levels are let in by the filter and matched by no pattern of the list |
| AclSpec.NothingBeyondIff | src/acl/mod.rs:119-129 | One list of patterns allows nothing beyond another, over all requests, if and only if the other covers each of its patterns |
| AclSpec.Unmatched | src/acl/mod.rs:119-129 | Otherwise it gives a request that a pattern allows and the whole other list refuses |
| AclSpec.AsCommentedIff | src/acl/mod.rs:154-204 | A user is answered as the comment says, for every request, if and only if the user has no role or `CoversAny` holds of the role's patterns, filled in, and each default pattern: a condition computed from the patterns level by level |
| AclSpec.RoleHolderByDefault | src/acl/mod.rs:154-172 | A case where they differ: a user whose role allows nothing may publish by a default pattern |
| AclSpec.TopicNamesClient | src/acl/mod.rs:72-117 | A topic that an isolating pattern matches has the client id at the `%c` level |
| AclSpec.Isolation | src/acl/mod.rs:72-117 | Two different client ids never both match one topic through such a pattern |
| AclSpec.PermittedNamesClient | src/acl/mod.rs:141-172 | With only isolating patterns in force, a permitted topic names the client |
| AclSpec.ClientsIsolated | src/acl/mod.rs:141-204 | With only isolating patterns in force, two different clients are never both permitted one topic |
| Acl.BuildRoles | src/acl/mod.rs:44-64 | The role table answers as the last configured entry of each name |
| Acl.RoleForIs | src/acl/mod.rs:44-64 | That entry is the last of its name, with each list where it belongs; a name without an entry is no role |
| Acl.CheckPatterns | src/acl/mod.rs:120-129 | True exactly when some pattern matches |
| Acl.AclProvider.constructor | src/acl/mod.rs:44-64 | The provider's rules are the configured ones |
| Acl.AclProvider.OnPublishCheck | src/acl/mod.rs:141-172 | Answers as the rules permit, with the bound name before the passed one |
| Acl.AclProvider.OnSubscribeCheck | src/acl/mod.rs:174-204 | The same for a subscription filter |
| Acl.VerifiedNameDecides | src/acl/mod.rs:154-172 | While a client's last login stands, every answer is the one for its verified name, whatever name is passed |
| TopicTries.GetInsert | src/topic/trie.rs:61-89 | After an insertion a lookup finds the new value under the filter and the old values elsewhere; levels after a `#` are ignored |
| TopicTries.GetRemove | src/topic/trie.rs:118-155 | After a removal the filter has no value and the others keep theirs |
| TopicTries.GetPrune | src/topic/trie.rs:158-188 | Removing by predicate treats each stored value by itself |
| TopicTries.FoundIff | src/topic/trie.rs:192-241 | Walking a topic finds a filter and value if and only if they are stored and the filter matches level by level |
| TopicTries.FoundOnce | src/topic/trie.rs:203-241 | No stored filter is found twice |
| TopicTries.FoundIsBroker | src/topic/trie.rs:192-241 | The walk finds a filter's value if and only if it is stored and the filter-by-filter loop says it matches, on all strings |
| TopicTries.MatchesRecursive | src/topic/trie.rs:203-241 | The coded recursion reports exactly the found values, in the walk's order |
| SubscriptionSpec.ParseSharedIff | src/topic/mod.rs:52-65 | A filter is shared with a group and a filter proper if and only if it is spelled so, both not empty and the group without a slash |
| SubscriptionSpec.DeliveredIff | src/topic/mod.rs:105-246 | After any sequence of changes, a message is delivered for a filter and a subscription if and only if the filter matches the topic and the last change about that client, group and filter was that subscription |
| SubscriptionSpec.AudienceIff | src/topic/mod.rs:105-246 | After any sequence of changes the audience of a topic is exactly the subscriptions that stand, untouched since, at filters that match it |
| SubscriptionSpec.DeliveriesIff | src/topic/mod.rs:199-218 | The deliveries of a topic are exactly the table's rows whose filter matches |
| SubscriptionSpec.DeliveriesOnce | src/topic/mod.rs:199-218 | No row is served twice by one message |
| SubscriptionSpec.RowIff | src/topic/mod.rs:105-181 | A row is in the table if and only if the last change that touches it wrote it |
| SubscriptionSpec.SharedRow | src/topic/mod.rs:105-170 | Subscribing to and unsubscribing from `$share/group/filter` writes and removes the one row of the client in that group at the filter proper; rows in other groups or in none stay |
| SubscriptionSpec.PlainRow | src/topic/mod.rs:105-170 | For any other filter it is the client's row outside groups at the filter itself |
| SubscriptionSpec.UnsubscribeUndoes | src/topic/mod.rs:134-170 | For every filter: after subscribing, unsubscribing finds the row, nothing that the client asked for under the filter stands, and the rest is as if the client had not subscribed |
| SubscriptionSpec.SubscribedServes | src/topic/mod.rs:105-131 | A shared subscription is served, with its group, on every topic that its filter proper matches |
| SubscriptionSpec.GoneServed | src/topic/mod.rs:173-181 | After a client is gone a subscription is served exactly if it was and is not the client's |
| SubscriptionSpec.PutHolds | src/topic/mod.rs:118-128 | Subscribing in the trie writes one row of the table and no other |
| SubscriptionSpec.DropHolds | src/topic/mod.rs:143-165 | Unsubscribing in the trie deletes one row of the table and no other |
| SubscriptionSpec.DropClientHolds | src/topic/mod.rs:173-181 | Removing a client deletes its rows and no others |
| SubscriptionStores.SubscriptionStore.constructor | src/topic/mod.rs:85-92 | No change has happened |
| SubscriptionStores.SubscriptionStore.Subscribe | src/topic/mod.rs:105-131 | The store follows the sequence of changes by one more, the generation is raised, and no turn counter moves |
| SubscriptionStores.SubscriptionStore.Unsubscribe | src/topic/mod.rs:134-170 | True exactly when the changes so far left such a row; then the generation is raised, otherwise trie, cache and generation stay; the store follows the sequence by one more |
| SubscriptionStores.SubscriptionStore.UnsubscribeAll | src/topic/mod.rs:173-181 | The store follows the sequence of changes by one more, the generation is raised, and no turn counter moves |
| SubscriptionStores.SubscriptionStore.InvalidateCache | src/topic/mod.rs:96-102 | The generation is raised, so that every cached answer is out of date; a cache of more than 2048 answers is emptied |
| SubscriptionStores.SubscriptionStore.Matches | src/topic/mod.rs:188-246 | After any sequence of changes, cached or not, the answer is exactly the unshared subscriptions that stand at matching filters and one member of each group that has one, the one whose turn it is; only those groups' counters advance; a new answer is cached exactly when it has no group and fewer than 1024 are |
| SubscriptionStores.SubscriptionStore.TakeTurns | src/topic/mod.rs:220-231 | One member per group, whatever order the groups come in |
| SubscriptionStores.Collect | src/topic/mod.rs:199-218 | Matching subscriptions are sorted into the unshared and each group's members, in order |
| RoundRobin.EveryoneInTurn | src/topic/mod.rs:220-231 | In as many consecutive turns as a group has members each member has exactly one, unless the 64-bit counter wraps among them and their number does not divide 2^64 |
| RoundRobin.FromTheFirst | src/topic/mod.rs:220-231 | A new counter goes through the members from the first to the last, over and over |
| RoundRobin.EveryoneInTurnIff | src/topic/mod.rs:220-231 | Every member has a turn in such a round if and only if the counter does not wrap in it or the number divides 2^64 |
| RoundRobin.PassedOver | src/topic/mod.rs:220-231 | Otherwise it gives a member that is passed over |
| SubscriptionStores.SubscriptionStore.MatchesRepeatedly | src/topic/mod.rs:188-246 | In consecutive calls with no change in between, each group is served once per call, by the member its counter has come to |
| SubscriptionStores.RoundServesAll | src/topic/mod.rs:220-231 | So a round of calls serves every member of a group if and only if the counter does not wrap in it or the number of members divides 2^64 |
| TopicCache.AnswersUpToDate | src/topic/mod.rs:188-246 | In every interleaving an answer, cached or computed, has every change announced before the call began and no change that was not made; what is cached has no shared group in it |
| TopicCache.MissIff | src/topic/mod.rs:188-246 | In every world a call begun there can be answered from before a change already made if and only if an answer for its topic at the current generation from an older trie is cached, is about to be stored, or is computed without a shared group while the cache has under 1024 entries, is about to be cleared, or would have over 2048 with the answers about to be stored |
| TopicCache.StaysFull | src/topic/mod.rs:95-102 | A cache that has no room and none to come stays so, whatever readers and writers do |
| TopicCache.FullReaches | src/topic/mod.rs:95-102 | When the answers about to be stored would make the cache too large, there is a way to go on that clears it, stores the older answer and gives it to the call |
| TopicCache.NothingMissed | src/topic/mod.rs:128-130 | In every interleaving, with no writer between its change and the announcement, no call begun there misses a change |
| TopicCache.GroupedNeverMissed | src/topic/mod.rs:233-242 | In every interleaving, no call on a topic misses a change if every older trie with the announced changes has a shared group for the topic |
| TopicCache.RunKnown | src/topic/mod.rs:118-130 | In every interleaving each change made is announced or still with its writer |
| TopicCache.NextSound | src/topic/mod.rs:96-102 | Every step of a reader or writer keeps cached and computed answers up to date with the generation they carry |
| TopicCache.UnannouncedCanBeMissed | src/topic/mod.rs:129-130 | For every topic and subscription: a call between the subscription and its announcement can be answered from before it |
| LinkedLists.List.Append | assets/speedscope/speedscope.6f107512.js:6 | The node becomes the last, with links consistent both ways |
| LinkedLists.List.Prepend | assets/speedscope/speedscope.6f107512.js:6 | The node becomes the first, with links consistent both ways |
| LinkedLists.List.Pop | assets/speedscope/speedscope.6f107512.js:6 | The last node is returned unlinked; nothing on an empty list |
| LinkedLists.List.Dequeue | assets/speedscope/speedscope.6f107512.js:6 | The first node is returned unlinked; nothing on an empty list |
| LinkedLists.List.Remove | assets/speedscope/speedscope.6f107512.js:6 | A node anywhere in the list is cut out and unlinked |
| LruCaches.LruCache.constructor | assets/speedscope/speedscope.6f107512.js:6 | An empty cache |
| LruCaches.LruCache.Get | assets/speedscope/speedscope.6f107512.js:6 | Returns the cached value and refines touching the key in the recency order |
| LruCaches.LruCache.Insert | assets/speedscope/speedscope.6f107512.js:6 | Refines putting the key first and evicting from the end |
| LruCaches.LruCache.GetOrInsert | assets/speedscope/speedscope.6f107512.js:6 | Refines one access of a recency-ordered cache |
| LruCaches.LruCache.RemoveLru | assets/speedscope/speedscope.6f107512.js:6 | Removes and returns the last key of the recency order |
| LruCaches.LruCache.GetSize | assets/speedscope/speedscope.6f107512.js:6 | The number of keys, never above the capacity |
| LruCaches.LruCache.Clear | assets/speedscope/speedscope.6f107512.js:6 | Back to the empty cache |
| LruCaches.IndexedWellFormed | assets/speedscope/speedscope.6f107512.js:6 | List keys and map keys agree and are distinct |
| RecencySpec.RunWellFormed | assets/speedscope/speedscope.6f107512.js:6 | In every run the keys are distinct, they are the map's keys, and there are at most `capacity` |
| RecencySpec.PutOrder | assets/speedscope/speedscope.6f107512.js:6 | Insertion puts the key first, keeps the others' order and values, and loses at most the last |
| RecencySpec.OrderIsRecency | assets/speedscope/speedscope.6f107512.js:6 | In every run the order is by last touch, most recent first |
| RecencySpec.EvictedIsLeastRecent | assets/speedscope/speedscope.6f107512.js:6 | The evicted key was touched before every key that stays |
| RecencySpec.ValuesAreLatest | assets/speedscope/speedscope.6f107512.js:6 | In every run a resident key has the value inserted for it last |
| RecencySpec.SmallerCacheIsPrefix | assets/speedscope/speedscope.6f107512.js:6 | For every sequence of accesses a smaller cache holds exactly the most recent keys of a larger one |
| RowAtlases.RowAtlas.constructor | assets/speedscope/speedscope.6f107512.js:22 | No row in use |
| RowAtlases.RowAtlas.ContextReset | assets/speedscope/speedscope.6f107512.js:22 | No row in use after the context is lost |
| RowAtlases.RowAtlas.WriteToAtlasIfNeeded | assets/speedscope/speedscope.6f107512.js:22 | The keys are demanded one after the other; after a batch of at most `capacity` distinct keys, from any reachable state, the batch leads the recency order, so all of it is resident |
| RowAtlases.RowAtlas.AllocateLine | assets/speedscope/speedscope.6f107512.js:22 | The row given out is the first free one, or the evicted key's |
| RowAtlases.RowAtlas.Has | assets/speedscope/speedscope.6f107512.js:22 | Whether the key is resident |
| RowAtlases.RowAtlas.RenderViaAtlas | assets/speedscope/speedscope.6f107512.js:22 | A resident key shows its own picture; a missing one is reported |
| RowAtlases.RowAtlas.Render | assets/speedscope/speedscope.6f107512.js:125 | Whatever the keys and the cache, each key's own picture is shown, in order, and as many keys as there are rows are left resident |
| RowSpec.AllocateKeepsAtlas | assets/speedscope/speedscope.6f107512.js:22 | Allocation keeps rows dense and distinct below `capacity`, each painted with its key |
| RowSpec.VictimOutsideBatch | assets/speedscope/speedscope.6f107512.js:22 | A full cache evicts no key of the current batch |
| RowSpec.BatchLeads | assets/speedscope/speedscope.6f107512.js:125 | Each demand of a batch keeps the keys demanded so far in front |
| RowSpec.LeadsResident | assets/speedscope/speedscope.6f107512.js:125 | A batch in front is resident |
| RowSpec.RowsInUse | assets/speedscope/speedscope.6f107512.js:22 | The rows in use are exactly 0 to size - 1 |
| FuzzyMatcher.FuzzyMatchStrings | assets/speedscope/speedscope.6f107512.js:173 | Never an implementation error; no match if and only if the pattern is no case-relaxed subsequence; otherwise separated ranges that spell the pattern, in the tightest window, with the defined score |
| FuzzyMatcher.FindEnd | assets/speedscope/speedscope.6f107512.js:173 | The forward scan ends where the pattern is first complete, or says it never is |
| FuzzyMatcher.BackScanSucceeds | assets/speedscope/speedscope.6f107512.js:173 | The backward scan always completes, so the first error is unreachable |
| FuzzyMatcher.WindowIsTight | assets/speedscope/speedscope.6f107512.js:173 | The window found ends first among all embeddings and, of those, starts last |
| FuzzyMatcher.NoEmbedding | assets/speedscope/speedscope.6f107512.js:173 | When the greedy scan fails no embedding exists |
| FuzzyMatcher.CalculateScore | assets/speedscope/speedscope.6f107512.js:173 | The scorer consumes the last pattern character at its last index; its ranges cover exactly the matched positions |
| FuzzyMatcher.ScanWindow | assets/speedscope/speedscope.6f107512.js:173 | The running score equals the score defined from the matched positions alone |
| FuzzyMatcher.RangesOf | assets/speedscope/speedscope.6f107512.js:173 | Sorted, disjoint, non-adjacent ranges covering exactly the positions |
| FuzzySpec.GreedyEarliest | assets/speedscope/speedscope.6f107512.js:173 | No placement of the pattern is longer or anywhere earlier than the greedy one |
| FuzzySpec.GreedyBackLatest | assets/speedscope/speedscope.6f107512.js:173 | No placement from the end is longer than the backward greedy one |
| FuzzyLaws.CaseRelaxed | assets/speedscope/speedscope.6f107512.js:173 | For every pattern without capitals, the embeddings into a text are those into the text in lower case |
| FuzzyLaws.CaseOfTextIrrelevant | assets/speedscope/speedscope.6f107512.js:173 | So whether such a pattern matches does not depend on the case of the text |
| FuzzyLaws.PlacedOn | assets/speedscope/speedscope.6f107512.js:173 | A capital, digit or other character of the pattern falls only on itself, a small letter on itself or its capital |
| FuzzyLaws.BonusOf | assets/speedscope/speedscope.6f107512.js:173 | The bonus of a position, from the characters alone: 8 at the start of a word and outside words, 7 at a hump or where a number starts, otherwise nothing |
| FuzzyLaws.CarriedFrom | assets/speedscope/speedscope.6f107512.js:173 | The bonus that a run carries is that of its first match, or of its last match at the start of a word |
| FuzzyLaws.BonusIs | assets/speedscope/speedscope.6f107512.js:173 | A match directly behind another gets the largest of its own bonus, the carried one and 4, any other its own |
| FuzzyLaws.ScoreIs | assets/speedscope/speedscope.6f107512.js:173 | The score in closed form: 16 a match, the bonuses with the first counted twice, less one for each character skipped in between and two more for each gap |
| ProfileBuilders.StackListProfileBuilder.constructor | assets/speedscope/speedscope.6f107512.js:165 | An empty profile with the declared total |
| ProfileBuilders.StackListProfileBuilder.AppendSampleWithWeight | assets/speedscope/speedscope.6f107512.js:165 | Ignores zero weights, rejects negative ones, and keeps every weight of both trees and of every frame the sum the history defines |
| ProfileBuilders.StackListProfileBuilder.ForEachCall | assets/speedscope/speedscope.6f107512.js:165 | For every history, calls are well nested, in time order, and every non-root node is open once, for exactly its total |
| ProfileBuilders.StackListProfileBuilder.Build | assets/speedscope/speedscope.6f107512.js:165 | The last timed sample is closed at its own time, the total is never less than what was sampled, and every grouped node's children end up heaviest first |
| ProfileBuilders.StackListProfileBuilder.AppendSampleWithTimestamp | assets/speedscope/speedscope.6f107512.js:165 | A sample at a time lasts from half way to its predecessor to half way to its successor; a time that goes back is refused |
| ProfileBuilders.TimedTotal | assets/speedscope/speedscope.6f107512.js:165 | For every sequence of timed samples the finished profile weighs the time from the first to the last, or one if that is nothing |
| ProfileBuilders.TimedSamples | assets/speedscope/speedscope.6f107512.js:165 | Each sample of a timed profile weighs half the time between its neighbours, one at an end being its own neighbour; when all times are equal the last alone weighs one |
| ProfileBuilders.StackListProfileBuilder.SortGroupedCallTree | assets/speedscope/speedscope.6f107512.js:165 | Sorting puts every node's children heaviest first and changes no weight |
| ChildOrder.SortSorts | assets/speedscope/speedscope.6f107512.js:165 | The sorted children are the children, heaviest first |
| ChildOrder.SortStable | assets/speedscope/speedscope.6f107512.js:165 | Children of equal weight keep their order |
| ProfileBuilders.SortedGroupedOk | assets/speedscope/speedscope.6f107512.js:165 | A sorted grouped tree still has every sum right |
| ProfileBuilders.NodesOpenForTheirTotal | assets/speedscope/speedscope.6f107512.js:165 | Close time minus open time is the node's total |
| ProfileBuilders.ChartShowsSample | assets/speedscope/speedscope.6f107512.js:165 | While a merged sample runs, the open nodes spell its stack |
| ProfileBuilders.GroupedWeights | assets/speedscope/speedscope.6f107512.js:165 | A grouped node's self and total are the sums over the samples with its path; its total is its self plus its children's totals |
| ProfileBuilders.GroupedComplete | assets/speedscope/speedscope.6f107512.js:165 | Every path with weight has a grouped node |
| ProfileBuilders.TreesAgree | assets/speedscope/speedscope.6f107512.js:165 | A grouped node's weights are the sums over the append-order nodes at its path |
| ProfileBuilders.AppendOrderWeights | assets/speedscope/speedscope.6f107512.js:165 | An append-order node's total is its self plus its children's, and is the time the samples spend under it |
| ProfileBuilders.MergeKeepsWeight | assets/speedscope/speedscope.6f107512.js:165 | Merging runs of equal stacks loses no weight |
| ProfileBuilders.AddToFrames | assets/speedscope/speedscope.6f107512.js:165 | A frame's total counts a sample once however often the frame recurs |
| ProfileBuilders.FrameWeights | assets/speedscope/speedscope.6f107512.js:165 | In every profile a frame's self weight is the sum of the self weights of the nodes entered for it, the root's apart, and its total weight the sum of the total weights of the nodes where it appears first on the way down |
| FrameSums.FramesFromNodes | assets/speedscope/speedscope.6f107512.js:165 | The same for the sums over the samples: by innermost frame, and by frame on the stack, recursion not counted twice |
| SampleWalks.Walk | assets/speedscope/speedscope.6f107512.js:165 | Walking one sample down a tree adds its weight to exactly the nodes and paths on its stack, whether nodes are reused or added |
| SampleTimelines.TimelineAppend | assets/speedscope/speedscope.6f107512.js:165 | One more sample keeps the append-order tree, the timeline and the sums in step with the history |
| SampleTimelines.SumsAppend | assets/speedscope/speedscope.6f107512.js:165 | One more sample adds its weight at every path that starts its stack, and self weight at its own |
| SampleTimelines.SameNodeIffSameStack | assets/speedscope/speedscope.6f107512.js:165 | A sample continues the last node exactly when its stack is the same |
| OpenPaths.PathDecision | assets/speedscope/speedscope.6f107512.js:165 | A node is continued exactly along the open path that the new stack shares |
| CallTrees.GroupedStep | assets/speedscope/speedscope.6f107512.js:165 | The grouped tree never has two nodes with one path |
| CallTraversal.ForEachCall | assets/speedscope/speedscope.6f107512.js:165 | The stack-and-ancestor loop emits the events defined by shared path prefixes |
| CallTraversal.FindShared | assets/speedscope/speedscope.6f107512.js:165 | The upward search stops at the deepest shared node |
| CallEvents.WellNested | assets/speedscope/speedscope.6f107512.js:165 | Replaying the events closes exactly what is open, innermost first, down to nothing |
| CallEvents.TimesInOrder | assets/speedscope/speedscope.6f107512.js:165 | Event times never decrease |
| NodeLifetimes.OpenedForItsTime | assets/speedscope/speedscope.6f107512.js:165 | Each sampled node is opened once and closed once, its time apart |
| CollapsedStacks.CollectStacks | src/profiling.rs:549-564 | The printed text is the lines of the entries that have a symbol, in order |
| CollapsedStacks.CollectNames | src/profiling.rs:552-557 | The first symbol of each frame that has one, outermost first |
| CollapsedSpec.NamesAt | src/profiling.rs:552-557 | By position: the last frame comes first and the innermost last |
| CollapsedSpec.NamesWithout | src/profiling.rs:552-557 | A frame without symbols leaves no trace, wherever it is |
| CollapsedSpec.PrintedLine | src/profiling.rs:549-564 | The text of a report of two frames, for any names |
| CollapsedStacks.SplitLines | assets/speedscope/import.bcbb2033.js:42 | The lines do not depend on where the text was cut into chunks |
| CollapsedStacks.Parse | assets/speedscope/import.bcbb2033.js:46 | The records of the whole text, in order, from any chunks |
| CollapsedStacks.ImportFromBGFlameGraph | assets/speedscope/import.bcbb2033.js:46 | No profile exactly without records; otherwise a profile whose samples are the records and whose total is the sum of their counts |
| CollapsedStacks.WeightsSurvive | src/profiling.rs:549-564 | For a clean report a name's total in the profile read back is the number of times the report saw it |
| CollapsedSpec.ReadLineIff | assets/speedscope/import.bcbb2033.js:46 | A line is read exactly when the regular expression matches it, and then in the only way it can |
| CollapsedSpec.DecimalRoundTrip | src/profiling.rs:561 | Printed counts are digits that read back as the count |
| CollapsedRoundTrip.RoundTrip | src/profiling.rs:549-564 | Reading a printed clean report returns its stacks and non-negative counts, in order |
| CollapsedRoundTrip.RoundTripIff | src/profiling.rs:549-564 | With non-negative counts the report is read back if and only if no name has a semicolon or a line terminator |
| CollapsedRoundTrip.SemicolonSplits | src/profiling.rs:549-564 | A case where it is not: a frame named `a;b` comes back as two frames |
| CollapsedRoundTrip.RecordsClean | assets/speedscope/import.bcbb2033.js:46 | No text can be read into a name with a semicolon or a line terminator |
| CollapsedRoundTrip.NegativeUnread | assets/speedscope/import.bcbb2033.js:46 | A line with a negative count is skipped |
| Vlq.DigitRoundTrip | assets/speedscope/source-map.438fa06b.js:2 | Every base64 digit decodes to itself |
| Vlq.AlphabetAt | assets/speedscope/source-map.438fa06b.js:2 | The digits are A to Z, a to z, 0 to 9, plus and slash, in this order |
| Vlq.DigitCovers | assets/speedscope/source-map.438fa06b.js:2 | A character outside the alphabet, and no other, decodes to no digit |
| Vlq.Encode | assets/speedscope/source-map.438fa06b.js:4 | The shifting loop, with its 32-bit operators, writes the digits of the sign-folded number |
| Vlq.Decode | assets/speedscope/source-map.438fa06b.js:4 | The accumulating loop reads as the recursive definition, errors included |
| Vlq.DigitsWorth | assets/speedscope/source-map.438fa06b.js:4 | The digits written are worth the number by position, five bits each with the lowest first, and all but the last are flagged |
| Vlq.EncodingWorth | assets/speedscope/source-map.438fa06b.js:4 | A number in range is written as twice its absolute value, and one more if negative |
| Vlq.DecodeReads | assets/speedscope/source-map.438fa06b.js:4 | Any text, not only a written one: up to six digits are read as half their worth, negative if the worth is odd |
| Vlq.DecodeEncoding | assets/speedscope/source-map.438fa06b.js:4 | For every integer, decoding its encoding in any context gives the sign-unfolded 32-bit wrap of it and stops right after it |
| Vlq.RoundTripIff | assets/speedscope/source-map.438fa06b.js:4 | That is the integer itself if and only if its absolute value is below 2^30 |
| Vlq.NothingWraps | assets/speedscope/source-map.438fa06b.js:4 | In that range nothing wraps: at most seven digits, each shifted by at most 30 to its full value below 2^31 |
| Vlq.DecodeSegment | assets/speedscope/source-map.438fa06b.js:18 | The segment loop reads values until the segment's end |
| Vlq.ListDecode | assets/speedscope/source-map.438fa06b.js:18 | For every list of integers the segment loop on their concatenated encodings returns each as the codec returns it and consumes exactly the text |
| Vlq.ListRoundTripIff | assets/speedscope/source-map.438fa06b.js:18 | It returns the list itself if and only if every element lies strictly between -2^30 and 2^30 |
| Vlq.LargeIsLost | assets/speedscope/source-map.438fa06b.js:4 | A case where it does not: 2^30 comes back as -2^30 |
| Vlq.FirstDigitSign | assets/speedscope/source-map.438fa06b.js:4 | The sign of a number is the lowest bit of its first digit |
| SourceMaps.ParseMappings | assets/speedscope/source-map.438fa06b.js:18 | The cursor loop, with its cache in a plain object, reads as the definition in which an inherited name stands for its property, errors included |
| SourceMapMeaning.ReadsSums | assets/speedscope/source-map.438fa06b.js:18 | Every text that can be read: the mappings are the running sums of the segments' numbers, the generated column along its line, source, line, column and name along the whole text |
| SourceMaps.SegmentAt | assets/speedscope/source-map.438fa06b.js:18 | A remembered segment gives the values decoding it would; an inherited name gives its property |
| SourceMapWriter.SerializeMappings | assets/speedscope/source-map.438fa06b.js:12 | For every list the mapping list hands out, the difference-writing loop writes the text the definition gives |
| SourceMapRoundTrip.SeparatorsWritten | assets/speedscope/source-map.438fa06b.js:12 | The text has one semicolon for each line begun and one comma for each mapping that follows another on its line, repetitions left out, and no other separators |
| SourceMapReading.ReadsIff | assets/speedscope/source-map.438fa06b.js:18 | The consumer reads what the text says if and only if no piece of it is an inherited name, or some other piece makes both give up |
| SourceMapReading.ValueOf | assets/speedscope/source-map.438fa06b.js:18 | A case where it does not: `valueOf` says four numbers and is read as a column that is no number |
| SourceMapReading.Constructor | assets/speedscope/source-map.438fa06b.js:18 | A case where it does not: `constructor` cannot be decoded and is read without an error |
| SourceMapReading.InheritedMeans | assets/speedscope/source-map.438fa06b.js:18 | Each inherited name, spelled out: a mapping whose column is no number, and for the two functions of two parameters an original position that is none either |
| SourceMapReading.WrittenPlain | assets/speedscope/source-map.438fa06b.js:10-12 | No piece written for mappings in order of line and column is an inherited name |
| SourceMapReading.RoundTripIff | assets/speedscope/source-map.438fa06b.js:12-18 | Whatever mappings in order are written, the consumer reads them back, without adjacent repetitions, if and only if every number written lies strictly between -2^30 and 2^30 |
| SourceMapReading.RoundTrip | assets/speedscope/source-map.438fa06b.js:12-18 | Columns, lines and indices below 2^30 always come back |
| SourceMapRoundTrip.ParseSerializedIff | assets/speedscope/source-map.438fa06b.js:18 | The same of the definition without a cache, from any point of the text |
| SourceMaps.DecodeUntilLocal | assets/speedscope/source-map.438fa06b.js:18 | Decoding a segment does not depend on the text around it |

## Left out

- The packet encoder and decoder, TCP, TLS, timeouts and keep-alive timing: outcomes of steps.
- Argon2 password hashing and UTF-8 checks: password verification is a parameter.
- Topic mapping of bridges, and what a bridge does with inbound messages: they do not touch the modelled state.
- Session state, retained messages, will messages, quality-of-service flows, the cluster, metrics, the HTTP server: not part of this model.
- Floating-point rounding of weights, and counts above 2^53 in collapsed stacks: exact numbers here.
- The trie's and the call trees' nodes as separate heap objects: the trie is a value held in a field and the call trees are columns indexed by node number, so aliasing between nodes is not modelled.
- Sorting of parsed mappings, the viewer's open/close builder, other importers, drawing: not part of this model.
- BridgeTasks.BridgeTask.ConnectionLoop: inbound packets and keep-alives that succeed change nothing here; the script stands for scheduling, the network and the producers.
- TopicCache.AnswersUpToDate: the 64-bit generation counter is unbounded here, so a reader delayed across 2^64 changes is not modelled.
- SubscriptionStores.SubscriptionStore.Matches: whole calls at a time; the interleaving of its halves is modelled by `TopicCache` with the sequence of changes in place of tries.
- TopicCache.MissIff: the length of the cache and its clearing are single steps here; the concurrent map counts and clears one shard at a time.
- CollapsedStacks.SplitLines: chunks are decoded text; the byte decoder is not modelled.
- SourceMapWriter.SerializeMappings: source and name tables are indices already, and the mapping list's own sort is taken as given: mappings come by generated line and column.
- SourceMapReading.ReadsIff: the inherited names are those of the language standard's plain objects; a program that extends them is not modelled, and thrown errors are not told apart.
- Delivery.DeliveryIff: messages from clients only; will messages, bridged messages and the broker's own topics are not checked by the code that checks published names.
- ListDelivery.PermittedDeliveryIff: the filter and the filled-in patterns together have at most 65535 bytes, so that a topic has room for levels that no pattern spells; without that only `ListDelivery.CoveredByAll` is proved.
- BridgeProtocol.RunTrace: the status cell is written only by the connection loop; its concurrent readers are not modelled.
- BufferPools.BufferPool.Put: what a holder does to its buffer before giving it back is any write.
- ProfileBuilders.StackListProfileBuilder.Build: the choice of a value formatter is not modelled.

# A verified model of Traefik's ACME, cluster, reload and request-path logic

This project models the parts of Traefik, with its OSIO extension, whose correctness does not show from
one function body, and proves what they promise for all inputs, all runs or all reachable states.

- **Domain entries.** `Domains` gives `MatchDomain` as the loop it is and as a relation on labels, with its
  order theory: it is a partial order on names without trailing dots, and transitive through a name exactly
  when that name is no wildcard with trailing dots. `DomainReducer` has both forms of
  `deleteUnnecessaryDomains`. The main theorem is that every configured name stays matched by a kept name,
  although the entry that caused a drop may be dropped itself; the argument descends on the number of labels
  that are not `*` and the entry's position. Both forms give the same list.
- **Certificates.** `CertificateList` is the list of the ACME provider under every interleaving of resolves,
  renewals and deliveries. `AccountCertificates` is the older account store: `Less` is a strict weak order,
  and removing duplicates keeps the latest certificate of each domain whatever the sort does with ties,
  exactly when the list is not ambiguous. A list is ambiguous when it holds two expiries for one domain and a
  different domain with the same Main and the same joined SANs, such as a `nil` and an empty SAN list. The
  code does not exclude such lists.
- **Cluster datastore.** `ClusterDatastore` is the transaction protocol over any number of nodes, with
  watch reloads at any time: no update is lost. `ChallengeTransactions` adds what this means for the challenges
  that the nodes present and clean up.
- **Reload pipeline.** `ConfigPipeline` is the path of a configuration from a provider to the loaded map,
  over all interleavings: the last forwarded configuration wins, and the last received one exactly when it
  was not skipped while a different one was under way. Without new messages the pipeline drains.
- **Token cache.** `TokenCache` is the map of promises of the OSIO middleware over all interleavings, and
  the keys under which requests share a promise: which requests always get their own answer, and a run in
  which one does not.
- **Request path.** `Retry`, `HealthCheck`, `Rules`, `StripPrefix`, `ConsulHealth` and `Challenges` are the
  loops around a request and around service discovery.

`Text` states the functions of Go's `strings` package the code uses, `Sequences` the subsequence relation,
`Wrappers` the option type.
Strings are sequences of characters; every separator the code tests is ASCII, so this agrees with Go's bytes.

What the code gets from outside becomes a parameter or a choice: the result of `sort.Sort` (any arrangement
that counts as sorted, where `Less` is a weak order), the answers of probes, resolvers, the certificate
authority and `loadConfig`, the hash of a cache key, the lower case of a character, whether a token is valid
and of which type, the writes and errors of a proxied handler.

Assumptions of the concurrent models: the remote lock is exclusive until it is released, transaction ids are
fresh and a load of the store reads one snapshot (`ClusterDatastore`); each read of the shared certificate list
is one snapshot (`CertificateList`).

## Model

| member | source | states |
|---|---|---|
| Domains.MatchDomain | types/domains.go:70-88 | the two loops answer yes exactly when the names are equal or the dot-trimmed certificate name is the domain with a non-empty leading run of labels starred |
| Domains.MatchesByLabel | types/domains.go:70-88 | names match if and only if they are equal or, label by label, a non-empty leading run of the certificate's is `*` and the others are the domain's |
| Domains.TrimDotsExactly | types/domains.go:74-76 | what goes from the end of a certificate name is dots only, and all of them |
| Domains.SetRoundTrip | types/domains.go:15-29 | `Set` then `ToStrArray` is the identity on a non-empty list exactly when its first name is not empty; `Set` never leaves a `nil` SAN list, and without names changes nothing |
| Domains.MatchIsPartialOrder | types/domains.go:70-88 | reflexive, antisymmetric and transitive on names without trailing dots |
| Domains.TransitiveExactly | types/domains.go:70-88 | transitive through a name if and only if that name is no wildcard with trailing dots |
| Domains.MatchLowersRank | types/domains.go:78-86 | a match by a different name has strictly fewer labels that are not `*` |
| DomainReducer.IsDomainAlreadyChecked | provider/acme/provider.go:595-604 | yes exactly when some comma-separated part of some entry of the list matches |
| DomainReducer.IsDomainAlreadyCheckedInMap | acme/acme.go:680-689 | the same over the keys of a map, in whatever order they are visited |
| DomainReducer.IsDropped | provider/acme/provider.go:631-640 | the list-based test of one name decides the drop relation |
| DomainReducer.IsDroppedInMap | acme/acme.go:715-731 | the map-based test of one name decides its drop relation |
| DomainReducer.DropsExactly | provider/acme/provider.go:631-640 | in both reducers an entry drops a name if and only if a name of it matches and it is earlier, or its Main is another name that begins with `*` and matches |
| DomainReducer.RemainingCounts | provider/acme/provider.go:630-642 | a name that is not dropped stays as often as it was there |
| DomainReducer.UncheckedNames | provider/acme/provider.go:630-642 | the names left are exactly those not dropped, in order |
| DomainReducer.Configuration.CheckEntry | provider/acme/provider.go:612-655 | the inner loop, with its early breaks, computes the fate of an entry against the configured list |
| DomainReducer.Configuration.DeleteUnnecessaryDomains | provider/acme/provider.go:609-659 | the new list is the kept one, and on plain names every old name is matched by a kept name |
| DomainReducer.NameStaysCovered | provider/acme/provider.go:609-659 | one configured name is matched by a kept name, even when the entry that covered it was dropped |
| DomainReducer.CoveragePreserved | provider/acme/provider.go:609-659 | for both reducers, every configured name is matched by some kept name |
| DomainReducer.DottedWildcardLosesCoverage | provider/acme/provider.go:632-639 | each wildcard with trailing dots loses the cover of another name in some list whose other names are plain |
| DomainReducer.CoverageExactly | provider/acme/provider.go:609-659 | for both reducers, a non-empty comma-free name leaves every list of otherwise plain names covered if and only if it is no wildcard with trailing dots |
| DomainReducer.ReducerShape | provider/acme/provider.go:612-656 | kept entries stay in order, each holds a subsequence of its own names, none of them matched by an earlier configured entry |
| DomainReducer.KeptEntriesDisjoint | provider/acme/provider.go:618-636 | no name occurs in two kept entries |
| DomainReducer.KeptNamesExactly | provider/acme/provider.go:612-656 | a name of an entry is kept if and only if the loop is not left at an earlier duplicate and no entry before the point where it is left drops the name |
| DomainReducer.KeptByMatchesExactly | provider/acme/provider.go:612-656 | where no other entry consists of names of an entry, its name is kept if and only if no earlier entry's name and no other entry's Main that begins with `*` matches it |
| DomainReducer.WildcardPrunes | provider/acme/provider.go:612-656 | a wildcard prunes every name it matches from an entry, earlier or later in the list, unless an entry consisting of names of that entry comes first |
| DomainReducer.DuplicateEndsLoop | provider/acme/provider.go:620-626 | of two equal entries at the head of a list the first is kept as it is, whatever follows, and the second is dropped |
| DomainReducer.KeptUndroppableExactly | provider/acme/provider.go:612-656 | no other entry drops a name kept of an entry if and only if the entries from the point where its loop is left drop none of its names that got there |
| DomainReducer.MinimalExactly | provider/acme/provider.go:609-659 | in the whole kept list no name is dropped by another configured entry if and only if leaving the loop early hides a drop from no entry |
| DomainReducer.DuplicateHidesWildcard | provider/acme/provider.go:620-626 | `a.com`, configured twice, is kept although the wildcard `*.com` after it drops it |
| DomainReducer.ReducersAgree | acme/acme.go:694-750 | the map-based reducer gives the same list as the list-based one |
| CertificateList.Provider.Deliver | provider/acme/provider.go:388-401 | the loop over the held certificates is the upsert by domain, in place for a held domain and at the end otherwise |
| CertificateList.UpsertDomains | provider/acme/provider.go:389-400 | an upsert leaves the domains alone or appends a new one |
| CertificateList.UpsertHolds | provider/acme/provider.go:389-400 | afterwards the entry is held, and entries for other domains are as before |
| CertificateList.Provider.GetUncheckedDomains | provider/acme/provider.go:505-534 | the unchecked names against static, dynamic, held and, on request, configured names |
| CertificateList.SearchUncheckedDomains | provider/acme/provider.go:536-549 | the names without a match, in order |
| CertificateList.UncheckedExactly | provider/acme/provider.go:505-549 | a name needs a certificate if and only if it was asked for and no part of a static or dynamic key, no name of a held certificate and, on request, no configured name matches it |
| CertificateList.ResolvedSingleIsAnother | provider/acme/provider.go:247-251 | the entry resolved for one name has no SAN list where a configured one has an empty list, so the two are held side by side |
| CertificateList.DeliveredIsHeld | provider/acme/provider.go:247-252 | each name an entry was requested for is matched by that entry once it is held |
| CertificateList.StepKeepsInv | provider/acme/provider.go:217-255 | each step of a resolve, renewal or delivery keeps the invariant and only extends the domains |
| CertificateList.CertificateListSafe | provider/acme/provider.go:383-474 | in every run: domains stay distinct, covered names stay covered, renewals never grow the list, and every name of an answered request stays matched by the entry delivered for it or by a group seen at the check, which is still there; nothing is requested that was matched at the check |
| AccountCertificates.LessIsWeakOrderExactly | acme/account.go:159-169 | `Less` is a strict weak order on a list if and only if the list is not ambiguous |
| AccountCertificates.CommaFreeSansNotAmbiguous | acme/account.go:164-165 | one kind of empty SAN list and comma-free, non-empty SANs exclude ambiguity |
| AccountCertificates.StrLessExactly | acme/account.go:165-168 | the order on strings: a proper prefix, or the smaller character where they first differ |
| AccountCertificates.SortedOrder | acme/account.go:159-169 | a sorted list that is not ambiguous is in order of Main, then of the joined SANs, then latest expiry first |
| AccountCertificates.DomainsCertificates.DropLater | acme/account.go:174-181 | the inner loop deletes every later certificate of the same domain, although the list shrinks under its index |
| AccountCertificates.DomainsCertificates.RemoveDuplicates | acme/account.go:171-183 | keeps the first certificate of each domain in the order the sort left, and the latest one when the list is not ambiguous |
| AccountCertificates.DeduplicationExactly | acme/account.go:171-183 | every arrangement the sort may give keeps one latest certificate per domain and loses none, if and only if the list is not ambiguous |
| AccountCertificates.NilAndEmptySansLoseLatest | acme/account.go:160-183 | a list with a `nil` and an empty SAN list that counts as sorted and whose later certificate is lost |
| ClusterDatastore.Datastore.Load | cluster/datastore.go:188-204 | the local object is what the store holds, and Lock is kept when the store has none |
| ClusterDatastore.Datastore.SyncWithStore | cluster/datastore.go:152-178 | reloads until the local Lock is the transaction's id, and returns the object loaded with it |
| ClusterDatastore.Transaction.Commit | cluster/datastore.go:223-247 | stores the object under the node's lock value once; a used transaction changes nothing |
| ClusterDatastore.StepKeepsInv | cluster/datastore.go:127-247 | every protocol step keeps the invariant and the commits so far |
| ClusterDatastore.NoLostUpdate | cluster/datastore.go:127-247 | in every run: Begin returns the object of the latest commit, commits form one chain, and no transaction commits twice |
| ClusterDatastore.NoOperationLost | cluster/datastore.go:127-247 | in every run in which each commit performs an operation on the object it began with, the stored object is the first one with all operations applied in commit order |
| ChallengeTransactions.NoChallengeLost | acme/challenge_http_provider.go:51-88 | in every run of the cluster each stored challenge is as its last presentation or clean-up on any node left it, or untouched without one |
| ClusterDatastore.ReloadLetsBeginReturn | cluster/datastore.go:152-168 | after the lock is taken one reload is enough: in every later state Begin has returned or can return |
| ConfigPipeline.RingChannel.In | server/server.go:427-447 | the slot holds the newest message |
| ConfigPipeline.ReceiptForwardsExactly | server/server.go:399-420 | a received configuration is forwarded if and only if it is not empty and its provider has no loaded entry or another one; no other message changes anything |
| ConfigPipeline.Server.LoadConfiguration | server/server.go:475-509 | a successful load replaces one provider's entry in a copy, a failed one changes nothing |
| ConfigPipeline.StepKeeps | server/server.go:399-472 | every step keeps what is under way a subsequence of what was forwarded, ending in the last of it |
| ConfigPipeline.ReplayedLast | server/server.go:475-509 | a provider's entry is that of its last attempt, or the one before it if that failed |
| ConfigPipeline.LastForwardedWins | server/server.go:399-510 | in every run and for each provider: the last forwarded configuration is the last one tried once nothing is under way, and is loaded if its load succeeds |
| ConfigPipeline.DrainsInTime | server/server.go:405-472 | when no more messages come in, the steps left are bounded by the work under way, another step is possible until there is none, and then every provider is drained |
| ConfigPipeline.StagesEnabledExactly | server/server.go:426-472 | each stage can go on if and only if it has something and the next one has room |
| ConfigPipeline.NothingForwardedNothingLoaded | server/server.go:475-509 | loads of other providers never create a provider's entry |
| ConfigPipeline.LastReceivedExactly | server/server.go:399-510 | in every run: once nothing is under way and the last load succeeded, the entry is the last configuration received if and only if on its arrival it was not the loaded one, or was the last one forwarded |
| ConfigPipeline.LastReceivedMayLose | server/server.go:407-408 | a run in which a message equal to the loaded configuration is skipped while another is under way, and the other is loaded in the end |
| TokenCache.ResolverPromise.Get | middlewares/osio/cache.go:36-59 | a resolved promise answers without a call, a call's success is remembered and its failure is not |
| TokenCache.Cache.Get | middlewares/osio/cache.go:12-26 | a key keeps the promise of its first request |
| TokenCache.NamespaceIsSegment | middlewares/osio/osio.go:355-373 | the namespace name is a slash-free segment right after `/namespaces/` |
| TokenCache.NamespaceExactly | middlewares/osio/osio.go:355-373 | the namespace name is what stands between the first `/namespaces/` and the next slash or the end |
| TokenCache.ServicePlan | middlewares/osio/osio.go:216-232 | a service token's request with a user id is cached under the namespace of its path, and resolved directly when that is empty |
| TokenCache.RefusedExactly | middlewares/osio/osio.go:210-235 | refused are invalid tokens and service tokens without a user id, no others; a user token is cached whatever the path |
| TokenCache.CompositeInjective | middlewares/osio/osio.go:178 | the composite key determines token, user and namespace when the last two hold no underscore |
| TokenCache.TokenKeyUniqueExactly | middlewares/osio/osio.go:178 | under one token the key belongs to one pair of user id and namespace if and only if neither holds an underscore |
| TokenCache.KeyInjective | middlewares/osio/osio.go:167-180 | a request whose user id and namespace cannot be cut elsewhere shares its key with no other request, whatever the other holds |
| TokenCache.UnsharedExactly | middlewares/osio/osio.go:167-215 | a cached request has a key of its own if and only if no underscore lets its user id and namespace be cut at another place |
| TokenCache.CacheStep | middlewares/osio/cache.go:12-59 | every step keeps successes last for their key and promises tied to calls of their resolver |
| TokenCache.SuccessRemembered | middlewares/osio/cache.go:12-59 | in every run the calls for a key are failures and then at most one success, whose value answers every later request without a call |
| TokenCache.CacheTransparent | middlewares/osio/osio.go:167-235 | in every run, whatever the others request, each request whose user id and namespace cannot be cut elsewhere, and each uncached one, is answered by its own resolver, and a failure is that of its own call |
| TokenCache.OwnAnswersExactly | middlewares/osio/cache.go:12-59 | with any hash and any tokens, a cached request is always answered by its own resolver if and only if no other request has its key |
| TokenCache.TransparentExactly | middlewares/osio/osio.go:167-235 | a cached request is answered by its own resolver in every run if and only if its user id and namespace cannot be cut at another place |
| TokenCache.UnderscoreLeaks | middlewares/osio/osio.go:176-185 | a run with one token in which user `a` gets for namespace `b_c` what user `a_b` got for `c` |
| TokenCache.CachedAgreesWithUncached | middlewares/osio/osio.go:177-196 | where a resolver's successes always have one value, cached and direct resolution of a request of that kind give the same |
| Retry.RetryResponseWriter.Emit | middlewares/retry.go:138-150 | a write passes unless a retry is due |
| Retry.Serve | middlewares/retry.go:45-50 | an attempt passes exactly the writes that find no retry due |
| Retry.PassedMeaning | middlewares/retry.go:127-150 | the last attempt passes all writes, another one only those before its first error |
| Retry.WritesExactly | middlewares/retry.go:138-150 | the writes of an attempt are all its actions but the recorded errors, in order |
| Retry.LeakExactly | middlewares/retry.go:138-150 | what an attempt leaks is its longest beginning without an error |
| Retry.HandleError | server/errorhandler.go:23-40 | network errors and EOF are recorded before status and text are written |
| Retry.ErrorActionsRecordFirst | server/errorhandler.go:23-40 | the error handler never leaks, and exactly network errors and EOF ask for a retry |
| Retry.ErrorAnswers | server/errorhandler.go:23-40 | the client is told 504 for a timeout, 502 for another network error or EOF, 500 otherwise, with the status text |
| Retry.RetryListeners.Retried | middlewares/retry.go:97-101 | every listener is told about the attempt |
| Retry.RetryMiddleware.Attempt | middlewares/retry.go:43-52 | one round passes what its writer lets through, and another follows exactly on an error with attempts left |
| Retry.RetryMiddleware.ServeHTTP | middlewares/retry.go:32-58 | output, listeners and logged count are those of the attempts up to the final one |
| Retry.FinalAttempt | middlewares/retry.go:41-57 | at most max(1, attempts) attempts run, and the final one is the first without an error or the last allowed |
| Retry.ClientSeesFinalAttempt | middlewares/retry.go:32-58 | the client gets exactly the final attempt's writes if and only if no earlier attempt wrote before its error |
| Retry.RecordingHandlersNeverLeak | middlewares/retry.go:32-58 | so it is for every handler that records an error before its first write |
| HealthCheck.BackendHealthCheck.CheckDisabled | healthcheck/healthcheck.go:124-137 | disabled servers that pass return to the load balancer, the others stay disabled |
| HealthCheck.BackendHealthCheck.CheckEnabled | healthcheck/healthcheck.go:139-149 | servers enabled before the pass leave when they fail |
| HealthCheck.BackendHealthCheck.CheckBackend | healthcheck/healthcheck.go:121-150 | a pass probes every server once, leaves enabled those that passed and sets each gauge |
| HealthCheck.GaugesMatch | healthcheck/healthcheck.go:134-148 | each probed server's gauge shows its answer, the others are unchanged |
| HealthCheck.ServersConserved | healthcheck/healthcheck.go:121-150 | after any number of passes enabled and disabled servers are disjoint and together the configured ones, and those enabled are those that passed last |
| Rules.ParseRules | rules/rules.go:171-238 | the calls made before the first error, and that error |
| Rules.CallsBeforeFirstError | rules/rules.go:203-236 | each rule before the first erroneous one gives its call, and the error is that rule's |
| Rules.RuleErrorsExactly | rules/rules.go:207-226 | the errors of a rule, exactly: an unknown trimmed function, or nothing but colons around one run of commas after it |
| Rules.NoFunctionExactly | rules/rules.go:207-210 | a rule names no function if and only if it consists of colons |
| Rules.SpacesDoNotMatter | rules/rules.go:211-230 | spaces around the function and the arguments make no difference, and empty arguments are left out |
| Rules.StrayColonsDoNotMatter | rules/rules.go:207-223 | leading, trailing and doubled colons make no difference |
| Text.TrimSpaceExactly | rules/rules.go:228-230 | what trimming takes off any text is spaces only, and all at both ends |
| Rules.ParseDomains | rules/rules.go:271-285 | the canonical arguments of the `Host` calls in order, none on an error |
| Rules.RuleRoundTrip | rules/rules.go:205-230 | parsing a printed rule gives it back if and only if its function is known, its arguments are non-empty, trimmed and comma-free and the argument text has no leading, trailing or doubled colon |
| Rules.ParseShrinks | rules/rules.go:205-230 | a parsed call prints no longer than the rule it came from, and as long only when the rule is that print |
| Rules.RuleLanguageRoundTrip | rules/rules.go:171-238 | parsing a printed list of rules gives it back if and only if it is not empty and each rule is of that kind, without semicolons |
| Rules.DomainsAreHostArguments | rules/rules.go:271-285 | on any text the domains are the `Host` arguments of the parsed calls, each in lower case and otherwise unchanged, in order |
| Rules.DomainsExactly | rules/rules.go:271-285 | on any text the domains correspond, in order, to all arguments of all calls named `Host`, each in lower case |
| Rules.CanonicalExactly | types/types.go:403-405 | a canonical domain is in lower case and without the spaces around it |
| Rules.ParsedWellFormed | rules/rules.go:205-236 | on any text the calls name known functions with trimmed, comma-free arguments |
| StripPrefix.StripPrefixHandler.ServeHTTP | middlewares/stripPrefix.go:17-48 | the first prefix the path has is stripped from path and raw path, or the request is not found |
| StripPrefix.FirstIsLongest | rules/rules.go:83-87 | in any order by size the first prefix a path has is its longest |
| StripPrefix.StripExactly | middlewares/stripPrefix.go:42-48 | the prefix is taken off and the rest kept as it is, behind one slash |
| StripPrefix.LongestPrefixStripped | rules/rules.go:130-138 | of every accepted path the longest prefix is taken off and the rest follows one slash, and ties make no difference |
| StripPrefix.ParsedPrefixesStripped | rules/rules.go:130-138 | so it is for the arguments of every parsed rule |
| StripPrefix.NeverFallsThroughExactly | middlewares/stripPrefix.go:18-28 | no accepted path is answered not-found if and only if each trimmed prefix begins with some configured prefix |
| StripPrefix.MatcherIsPrefix | rules/rules.go:79-81 | the second test of the matcher adds nothing |
| ConsulHealth.FoldChecks | provider/consulcatalog/consul_catalog.go:279-297 | a key is present exactly when a check for it passes and no other than a maintenance check fails, with the nodes of its passing checks |
| ConsulHealth.SingleCheck | provider/consulcatalog/consul_catalog.go:284-296 | one check alone: its node under node and service exactly when its status is `passing`, otherwise its ID if it is a maintenance check |
| ConsulHealth.KeyUniqueExactly | provider/consulcatalog/consul_catalog.go:284 | a key belongs to one node and service if and only if neither name holds a dash; on one node always |
| ConsulHealth.OrderDoesNotMatter | provider/consulcatalog/consul_catalog.go:283-296 | the same checks in any order give the same keys and node sets |
| ConsulHealth.GetChangedHealth | provider/consulcatalog/consul_catalog.go:419-438 | added, removed and changed keys; nothing is reported exactly when the states agree as maps to node sets |
| ConsulHealth.HasServiceChanged | provider/consulcatalog/consul_catalog.go:385-407 | yes exactly when a service in both states differs in nodes, tags, addresses or ports as sets |
| ConsulHealth.SameServiceExactly | provider/consulcatalog/consul_catalog.go:387-402 | a service counts as the same if and only if nodes, tags, addresses and ports agree as sets |
| ConsulHealth.HasChanged | provider/consulcatalog/consul_catalog.go:367-373 | no exactly when both states have the same services with the same contents |
| Challenges.ChallengeStore.Present | acme/challenge_http_provider.go:58-66 | inserts the key authorization under token and domain |
| Challenges.ChallengeStore.CleanUp | provider/acme/challenge.go:89-95 | removes it, and the token's map when that is empty |
| Challenges.ChallengeStore.TokenValue | provider/acme/challenge.go:42-44 | finds exactly the challenges of the flat map |
| Challenges.RunRefines | acme/challenge_http_provider.go:51-88 | every sequence of operations acts as insert and remove on a flat map and leaves no empty inner map |
| Challenges.FlattenInjective | acme/challenge_http_provider.go:60-85 | without empty inner maps the nested map is determined by its flat form |
| Challenges.CleanUpUndoesPresent | acme/challenge_http_provider.go:51-88 | cleaning up undoes presenting if and only if the challenge was not there before |

## Left out

- DomainReducer.CoveragePreserved: asks that names are non-empty, comma-free and no wildcards with trailing dots, because the code compares with the comma-separated parts of a name and trims dots on one side only; `CoverageExactly` shows the last condition is needed for every such name.
- TokenCache.CacheTransparent: asks that the hash is injective and that no valid token is another one followed by an underscore and more; for the other requests the code does not give it, as `TransparentExactly` and `UnderscoreLeaks` show.
- ClusterDatastore.Transaction.Commit: the marshalling, storing and unlocking errors, the TTL of the lock and abandoned transactions are not part of this model.
- Minimality of the reduced list: the code does not give it, as `DomainReducer.DuplicateHidesWildcard` shows; `DomainReducer.MinimalExactly` says when it does.
- Convergence to the last received configuration: the code does not give it, as `ConfigPipeline.LastReceivedMayLose` shows; `ConfigPipeline.LastReceivedExactly` says when it does.
- `getValidDomains`, the ACME client and X.509: requested names are arbitrary, and obtaining a certificate may fail at any time.
- `removeEmpty` and the parsing of stored key pairs: a filter before the sort.
- Prefixes and paths with braces, which go to the router's patterns, and the other rule functions' effect on routes.
- `wireFrontendBackend`: the order in which one route's path modifiers are nested.
- `Flush`, `Hijack` and headers of the retry writer, and the request body kept open between attempts.
- Weights of servers: a recovered server always gets weight 1.
- The merge of `json.Unmarshal` into an existing object: a load replaces the serialised value.
- The aliasing of held certificate entries between the list and a renewal that runs over it: a renewal carries the domain only.
- Requests without a token or with an invalid one, and OPTIONS requests, which never reach the cache.
- The JWT, tenant, token and secret services of the OSIO extension, its redirects and its path rewriting.
- Other providers, metrics other than the server gauge, tracing, access log formats and the web UI.

# TF Serving Cache: a verified model

TF Serving Cache keeps models on the local disk of a TF Serving process, evicts
the least recently used ones to stay within a byte budget, and configures TF
Serving with the most recently used few. Requests arrive over REST and gRPC; a
proxy sends each to a node chosen by a hash ring whose members are discovered
through etcd. This project models the parts whose correctness is not visible in
one function, and proves what they promise.

- **The cache** (`LruState`, `LruCache`, `Eviction`). `LruCache.LRUCache` is the
  object of the source: a recency list of element objects, a map to those
  elements and a running byte count in machine arithmetic. Each method is proved to
  do to the value of the cache what `LruState` says; `Eviction` states what that
  means without a loop.
- **Recency** (`Recency`, `LruInclusion`). The resident list is the top of the
  stack of everything ever used, and a smaller cache is always a prefix of a
  larger one that serves the same requests.
- **One request** (`ServingConfig`, `FetchModel`, `CacheManager`). The serving
  config built through shared version lists, the poll loop, and the whole of
  `fetchModel` for every answer of provider, file system and TF Serving.
- **All requests at once** (`FetchProtocol`). Any number of threads, interleaved
  at every lock operation, cache operation and outside call. A step takes the lock
  only when it is free; that write sections are alone and atomic is proved, and that
  a call that runs alone always completes and is the sequential call.
- **The cluster** (`Decimal`, `NodeCodec`, `ClusterConnection`, `EtcdWatcher`)
  and **request identity** (`RequestIdentity`): node texts, the watch loop, the
  URL pattern and the ring key.
- **The Azure provider** (`BlobListing`): one paging loop that measures and
  downloads.

`dafny verify dfyconfig.toml` (Dafny 4.11) checks the whole project.

## Assumptions

- Sizes and the capacity are not negative, as are byte counts of files; providers
  return the model they were asked for (`FetchModel.ValidAnswers`). The source
  never checks that `Put` files a model under its own identifier
  (`pkg/cachemanager/lrucache.go:54`), and its own tests do otherwise
  (`pkg/cachemanager/lrucache_test.go:108-110`). `LruCache.LRUCache.Put` accepts
  any key and says when the cache stays consistent: exactly when the key was
  resident or is the model's own.
- One cache operation is atomic. `tryGetModelFromCache` holds only the read lock
  while `Get` moves a list element, so two readers may do so at once
  (`pkg/cachemanager/cachemanager.go:155`, `pkg/cachemanager/lrucache.go:46`).
- Answers of the file system, the provider and TF Serving are arbitrary values
  given to the model: `FetchModel.Answers` for one call, the arguments of
  `FetchProtocol.Action` for interleaved calls.
- A thread that is polling only waits: it holds the write lock and changes
  nothing. Its result is decided by `FetchModel.PollSucceeds`.

## Findings

- A miss that fails after its reservation (the load fails, or TF Serving refuses
  the config) has already evicted. TF Serving can then be configured with models
  that are no longer resident. They all stay resident if and only if each, with all
  models used after it, leaves room for the bytes needed, or is the loaded model
  (`FetchModel.FailingMissServedResident` for any state that the section may find,
  `FetchProtocol.FailedMissServedResident` in every interleaving). The bytes needed
  are those asked for, or the loaded size if that is larger and the model did not
  survive its own reservation. Two runs in which it goes wrong:
  `FetchModel.ServedModelEvicted`, and `FetchModel.ServedModelEvictedByInsertion`
  with a model that another thread brought in first.
- A node whose host contains a colon, such as an IPv6 address, is not read back by
  either decoder (`NodeCodec.RoundTrip`, an equivalence).
- A REST version with a redundant leading zero reaches the same cache entry as the
  plain version (`Decimal.LeadingZeros`, `RequestIdentity.RestIdentifier`) but another
  ring key (`RequestIdentity.SameRingKey`, an equivalence).
- With a timeout of zero or less, a reload always fails after one poll, even if
  that poll finds the model available (`CacheManager.CacheManager.AwaitAvailable`).
- The etcd watcher does not republish on change only. A batch republishes an unchanged
  member map if and only if some event is a change to the map before the batch and yet
  the last event of every key restores what the map had
  (`EtcdWatcher.RepublishesUnchanged`). Deleting an unknown key does so, and so does a
  value that is replaced and put back (`EtcdWatcher.UnknownDeletionRepublishes`,
  `EtcdWatcher.RevertedValueRepublishes`). The converse holds: what is not published
  has not changed (`EtcdWatcher.QuietEvents`).
- Blobs of one model can lie under the prefix of another, and are then measured and
  downloaded with it: if and only if the name of one and a slash begin with the whole
  `name/version/` of the other (`BlobListing.PrefixesOverlap`). gRPC requests can
  carry such names (`BlobListing.DirectoryNameOverlaps`); names without a slash never
  overlap (`BlobListing.PlainNamesDisjoint`).
- A REST URL made from a gRPC request is forwarded as that request if and only if the
  version is not negative and the name is not empty and has no slash
  (`RequestIdentity.SameIdentity`).

## Model

| member | source | states |
|---|---|---|
| LruState.MoveToFrontKeeps | pkg/cachemanager/lrucache.go:43-51 | moving a resident model to the front keeps list and map in bijection, the byte count and the bound, and reorders identifiers only |
| LruState.GetKeeps | pkg/cachemanager/lrucache.go:43-51 | a lookup, hit or miss, keeps the whole invariant and changes no membership |
| LruState.PopKeeps | pkg/cachemanager/lrucache.go:70-82 | evicting the last list element removes its map entry and its bytes, so bijection, byte count and bound survive |
| LruState.EnsureFreeKeeps | pkg/cachemanager/lrucache.go:68-87 | the eviction loop keeps the invariant, leaves a prefix of the list and adds no key |
| LruState.EnsureFreeFrees | pkg/cachemanager/lrucache.go:84-86 | after the loop there is room or nothing is left: the error branch is unreachable, for sizes of any sign |
| LruState.PutKeeps | pkg/cachemanager/lrucache.go:54-65 | inserting keeps the invariant if and only if the key was resident or is the model's own identifier; the byte count stays within int64 |
| LruState.LookupExactly | pkg/cachemanager/lrucache.go:43-51 | a lookup answers with a model if and only if that model is listed under the identifier asked for |
| LruState.PutLookup | pkg/cachemanager/lrucache.go:54-65 | inserting a resident identifier is a lookup and never replaces its model; a new model is found afterwards exactly as it was given |
| LruState.PutLookupOther | pkg/cachemanager/lrucache.go:54-83 | any other identifier is answered as before unless it was evicted |
| LruState.MisfiledKeyOutlivesItsModel | pkg/cachemanager/lrucache.go:54-83 | a model filed under a foreign key: once all is evicted, that key still answers as resident |
| LruState.CurrentSizeInRange | pkg/cachemanager/lrucache.go:61-69 | in every consistent state the byte count and the difference to the capacity fit int64 |
| LruCache.LRUCache.constructor | pkg/cachemanager/lrucache.go:28-37 | a new cache is consistent and empty |
| LruCache.LRUCache.Get | pkg/cachemanager/lrucache.go:43-51 | returns the model of the map entry and moves exactly that element to the front |
| LruCache.LRUCache.Put | pkg/cachemanager/lrucache.go:54-65 | the new value of list, map and byte count in machine arithmetic; consistent afterwards if and only if the key is right |
| LruCache.LRUCache.EnsureFreeBytes | pkg/cachemanager/lrucache.go:68-87 | the loop with wrapping arithmetic evicts what exact arithmetic evicts, and never reports a shortage |
| LruCache.LRUCache.ListModels | pkg/cachemanager/lrucache.go:89-97 | all residents, most recently used first |
| Eviction.ExactEviction | pkg/cachemanager/lrucache.go:68-83 | what is kept is the longest most recent prefix within capacity minus request, or nothing if none fits |
| Eviction.LongestFitMonotone | pkg/cachemanager/lrucache.go:68-83 | there is only one such prefix, and a longer list with more room keeps at least as much |
| Eviction.SurvivesEviction | pkg/cachemanager/lrucache.go:68-83 | a model survives if and only if it and all models used after it leave room for the request |
| Eviction.EnsureFreeTwice | pkg/cachemanager/lrucache.go:68-83 | requests for a and then b evict what the larger of the two evicts |
| Eviction.ReserveThenPut | pkg/cachemanager/cachemanager.go:116-127 | reserve, load and insert a new model: eviction for the larger of both sizes; the same state as insertion alone when no more was reserved than loaded |
| Eviction.EvictionMonotone | pkg/cachemanager/lrucache.go:68-83 | eviction for the same request keeps a smaller cache a prefix of a larger one |
| Recency.StackMembers | pkg/cachemanager/lrucache.go:43-65 | the recency stack holds every identifier ever used exactly once |
| Recency.StackByLastUse | pkg/cachemanager/lrucache.go:43-65 | the recency stack is ordered by strictly decreasing time of last use |
| Recency.ApplyTop | pkg/cachemanager/lrucache.go:43-87 | a lookup, an insertion or an eviction each keep the resident list on top of the recency stack |
| Recency.RunTop | pkg/cachemanager/lrucache.go:43-87 | so does every run of such operations |
| Recency.RunEvictsLeastRecent | pkg/cachemanager/lrucache.go:43-87 | in every run from the empty cache, all that is gone was used less recently than all that is kept |
| Recency.StackDepth | pkg/cachemanager/lrucache.go:43-65 | the place of an identifier in the recency stack is exactly the number of distinct others used after its last use |
| Recency.DepthBound | pkg/cachemanager/lrucache.go:43-65 | counted from any use of it, the number of distinct others used since bounds that place |
| LruInclusion.AccessIncluded | pkg/cachemanager/lrucache.go:43-87 | one request keeps the smaller cache's list a prefix of the larger one's |
| LruInclusion.RunSnoc | pkg/cachemanager/lrucache.go:43-65 | one more request is one more access, and one more hit if and only if its model is then resident |
| LruInclusion.Inclusion | pkg/cachemanager/lrucache.go:43-87 | so does every trace of requests, and the smaller cache never hits more often |
| LruInclusion.InclusionFromEmpty | pkg/cachemanager/lrucache.go:43-87 | from empty caches, each hit in the smaller cache is a hit in the larger one after any trace |
| ServingConfig.CreateModelConfig | pkg/cachemanager/servingcontroller.go:159-187 | appending through shared version lists builds exactly the grouping of the requested identifiers by name, with its paths |
| ServingConfig.AppendVersion | pkg/cachemanager/servingcontroller.go:165-167 | the append through the map reaches the one config of that name and no other |
| ServingConfig.FlattenGroupBy | pkg/cachemanager/servingcontroller.go:159-187 | the configs together ask for a permutation of the requested identifiers |
| ServingConfig.NamesDistinct | pkg/cachemanager/servingcontroller.go:163-184 | no name has two configs |
| ServingConfig.NamesInOrder | pkg/cachemanager/servingcontroller.go:163-184 | configs come in the order in which their names first occur |
| ServingConfig.NamesUsed | pkg/cachemanager/servingcontroller.go:163-184 | a name has a config if and only if it occurs in the request |
| ServingConfig.VersionsMembers | pkg/cachemanager/servingcontroller.go:163-172 | a config holds exactly the versions requested under its name, for any request |
| ServingConfig.VersionsInOrder | pkg/cachemanager/servingcontroller.go:163-172 | the versions of a name come in the order of the request |
| ServingConfig.VersionsDistinct | pkg/cachemanager/servingcontroller.go:163-172 | no version occurs twice in a config if no identifier was requested twice |
| FetchModel.ServedMembers | pkg/cachemanager/cachemanager.go:167-170 | a reload asks for exactly the head of the recency list, in that order, as many as fit |
| FetchModel.HeadOfStack | pkg/cachemanager/cachemanager.go:167-170 | and that is exactly the top of the recency stack |
| FetchModel.ServedByUses | pkg/cachemanager/cachemanager.go:167-170 | a resident model is among them if and only if fewer distinct others than the maximum were used after its last use |
| FetchModel.ReloadServesResidents | pkg/cachemanager/cachemanager.go:167-174 | an accepted reload serves residents only, and no more than the maximum |
| FetchModel.FetchSucceeds | pkg/cachemanager/cachemanager.go:91-152 | a call succeeds if and only if the model is found and TF Serving has it, not on its way out; or it is found or can be sized and loaded, the config is accepted, and a poll in time finds it available |
| FetchModel.FetchServes | pkg/cachemanager/cachemanager.go:113-174 | the served set changes if and only if a reload is due and accepted, and then to the head of the list that the call leaves |
| FetchModel.FetchWithoutReservation | pkg/cachemanager/cachemanager.go:113-165 | a call that finds its model, or learns no size, does to the cache what its lookup does |
| FetchModel.PollTimes | pkg/cachemanager/cachemanager.go:175-194 | there are two polls per second of timeout: twenty for the timeout in use |
| FetchModel.StatesDistinct | pkg/cachemanager/servingcontroller.go:189-206 | TF Serving's known state codes are told apart, and all others are one |
| FetchModel.FetchIsAccess | pkg/cachemanager/cachemanager.go:102-132 | a call does to the cache what one access of the inclusion theorem does, when a found model is on disk and a missing one is measured as it is loaded |
| FetchModel.FetchInclusion | pkg/cachemanager/cachemanager.go:91-152 | two managers that serve the same requests so, each with settings and TF Serving answers of its own: the smaller cache keeps a prefix of the larger one |
| FetchModel.RepeatedCall | pkg/cachemanager/cachemanager.go:133-150 | after a successful call, a further one for the same model changes no part of the cache; it leaves the served set alone too if the first call configured it, or if TF Serving's first version has a state other than unloading or ended |
| FetchModel.SuccessMeansServed | pkg/cachemanager/cachemanager.go:91-152 | a successful call leaves the requested model most recently used, and known to TF Serving or freshly served and reported in time |
| FetchModel.FetchWellFormed | pkg/cachemanager/cachemanager.go:91-152 | every call, whatever fails in it, leaves a consistent cache |
| FetchModel.FetchKeepsServedResident | pkg/cachemanager/cachemanager.go:91-152 | a call that does not fail after its reservation keeps every served model resident, timeouts included |
| FetchModel.MissKeeps | pkg/cachemanager/cachemanager.go:113-127 | what is resident after a miss section, from any state it may find: the loaded model, and exactly those that leave room for the bytes it needs |
| FetchModel.FailingMissServedResident | pkg/cachemanager/cachemanager.go:116-132 | a miss section that fails after its reservation leaves all served models resident if and only if each left that room, or is the loaded model |
| FetchModel.FailingFetchServedResident | pkg/cachemanager/cachemanager.go:91-132 | the same for a whole call that nothing disturbs |
| FetchModel.ServedModelEvicted | pkg/cachemanager/cachemanager.go:116-126 | a concrete run of two calls that leaves a served model evicted |
| FetchModel.ServedModelEvictedByInsertion | pkg/cachemanager/cachemanager.go:116-132 | a concrete section that finds its model already resident, and whose insertion evicts a served model that its reservation left |
| CacheManager.TFServingController.ReloadConfig | pkg/cachemanager/servingcontroller.go:88-112 | an accepted request replaces the served set by the grouping of the given models, each config with its own path and platform; a refused one changes nothing |
| CacheManager.CacheManager.FetchModel | pkg/cachemanager/cachemanager.go:91-152 | the three branches in place: new cache, new served set and result for every combination of answers |
| CacheManager.CacheManager.TryGetModelFromCache | pkg/cachemanager/cachemanager.go:154-165 | a hit needs the file as well, but the lookup counts as a use either way |
| CacheManager.CacheManager.LoadMissing | pkg/cachemanager/cachemanager.go:113-132 | reserve, load, insert and reload, stopping at the first failure with the state reached so far |
| CacheManager.CacheManager.ReloadServingConfig | pkg/cachemanager/cachemanager.go:167-195 | serves the head of the list, located in the model directory, when accepted; succeeds if and only if accepted and a poll in time finds the model |
| CacheManager.CacheManager.AwaitAvailable | pkg/cachemanager/cachemanager.go:175-194 | success if and only if a half-second poll before the timeout reports the model; at most twice the timeout polls, rounded up; one poll and failure for a timeout of zero or less |
| FetchProtocol.Step | pkg/cachemanager/cachemanager.go:91-165 | every step of every thread keeps lock discipline, cache consistency, recency order, section progress and the served set's invariant |
| FetchProtocol.StatusDecides | pkg/cachemanager/cachemanager.go:133-150 | after the status check a thread goes on to reload if and only if TF Serving gives no answer or no version, or has the first one on its way out; else its call ends |
| FetchProtocol.CallRefinesFetch | pkg/cachemanager/cachemanager.go:91-165 | a call whose steps no other thread interrupts does exactly what the sequential call does, whichever branches it takes |
| FetchProtocol.CallCompletes | pkg/cachemanager/cachemanager.go:91-165 | from every reachable state with the lock free, and for all answers, such a run exists, of at most ten steps |
| FetchProtocol.NoDeadlock | pkg/cachemanager/cachemanager.go:91-165 | in every reachable state with a call under way, some call can take a step |
| FetchProtocol.Safety | pkg/cachemanager/cachemanager.go:91-165 | the invariant holds in every state of every interleaving |
| FetchProtocol.MutualExclusion | pkg/cachemanager/cachemanager.go:112-155 | while one thread writes, no other writes or reads |
| FetchProtocol.Bookkeeping | pkg/cachemanager/cachemanager.go:91-165 | no identifier is resident twice, so racing misses charge a model once; the byte count is the resident sum, within the capacity or one model, and within int64 |
| FetchProtocol.ServedBound | pkg/cachemanager/cachemanager.go:169-170 | TF Serving is never configured with more than the maximum number of models |
| FetchProtocol.EvictsLeastRecent | pkg/cachemanager/lrucache.go:43-87 | in every interleaving, all that is gone was used less recently than all that is resident |
| FetchProtocol.MissIsAtomic | pkg/cachemanager/cachemanager.go:112-132 | in every interleaving, a miss section turns the state it found into what the sequential section makes of it |
| FetchProtocol.ReloadIsAtomic | pkg/cachemanager/cachemanager.go:136-143 | likewise for the reload section |
| FetchProtocol.FailedMissServedResident | pkg/cachemanager/cachemanager.go:112-132 | in every interleaving, a section that failed after its reservation left all served models resident if and only if each left the needed room in the cache it found, or is the loaded model |
| FetchProtocol.ServedStaysResident | pkg/cachemanager/cachemanager.go:112-174 | without failed loads and refused configs, every served model is resident whenever no write section is open |
| FetchProtocol.ServesMostRecent | pkg/cachemanager/cachemanager.go:167-170 | each accepted reload serves exactly the most recently used identifiers, as many as are resident and fit |
| FetchProtocol.MissServesRequested | pkg/cachemanager/cachemanager.go:114-132 | the reload of a miss serves the requested model in every interleaving when at least one may be served |
| FetchProtocol.InterferenceBound | pkg/cachemanager/cachemanager.go:133-143 | the place of a model to be reloaded is the number of distinct others used after its last use, so at most the number used since its lookup |
| FetchProtocol.ReloadServesRequested | pkg/cachemanager/cachemanager.go:133-143 | so the reload serves it if it is resident and fewer others than the maximum were used in between |
| FetchProtocol.ServedExactly | pkg/cachemanager/cachemanager.go:167-174 | an accepted reload serves exactly the resident models after whose last use fewer distinct others than the maximum were used |
| Decimal.FormatThenParse | pkg/cachemanager/cachemanager.go:297-302 | printing any int64 and parsing it gives it back |
| Decimal.ParseThenFormat | pkg/tfservingproxy/tfservingproxy.go:24 | digits survive parsing and printing if and only if they have no redundant leading zero |
| Decimal.ParseNumeral | pkg/cachemanager/cachemanager.go:297-302 | a numeral with an optional sign is read as its value if that fits int64, and clamped with an error otherwise |
| Decimal.ParseRefuses | pkg/cachemanager/cachemanager.go:297-302 | exactly the texts that are no such numeral are refused |
| Decimal.LeadingZeros | pkg/cachemanager/cachemanager.go:297-302 | leading zeros do not change the value, so all such versions reach one cache entry |
| Decimal.AtoiNearest | pkg/taskhandler/discovery/etcd/etcd.go:91-98 | the port that is used in spite of a range error is the int64 nearest to the text's value |
| NodeCodec.FromString | pkg/taskhandler/cluster.go:146-164 | a text is read if and only if it has three parts and two ports, and then as these parts; it panics if and only if it ends before a port that is needed |
| NodeCodec.DecodersAgree | pkg/taskhandler/discovery/etcd/etcd.go:89-103 | the watcher reads what the ring's decoder reads, as the same node; a port that is no numeral becomes 0 there |
| NodeCodec.PartsOfPrinted | pkg/taskhandler/cluster.go:142-147 | a printed node splits into its host and its two ports |
| NodeCodec.RoundTrip | pkg/taskhandler/cluster.go:142-164 | both decoders give a printed node back if and only if its host has no colon |
| NodeCodec.PrintedDistinct | pkg/taskhandler/cluster.go:142-144 | different nodes print differently, whatever their hosts |
| NodeCodec.RegisteredTextReachesRing | pkg/taskhandler/discovery/etcd/etcd.go:89-103 | a registered value is decoded and printed again as the identical text |
| ClusterConnection.ClusterUpdated | pkg/taskhandler/cluster.go:104-113 | the ring gets the printed form of every member, in order |
| ClusterConnection.FindNodeForKey | pkg/taskhandler/cluster.go:116-130 | one service per ring answer, the zero service for a bad port; panics if and only if some answer has too few parts |
| ClusterConnection.RingRoundTrip | pkg/taskhandler/cluster.go:104-130 | any member the ring picks is read back as one of the nodes put in |
| EtcdWatcher.LastWriterWins | pkg/taskhandler/discovery/etcd/etcd.go:70-86 | a key is present if and only if its last event stored a value, which it then has |
| EtcdWatcher.LastWriterFrom | pkg/taskhandler/discovery/etcd/etcd.go:70-86 | from any map: a key has what its last event left there, and is as before if it has no event |
| EtcdWatcher.FoldBatches | pkg/taskhandler/discovery/etcd/etcd.go:61-86 | folding one more batch onto the map of all events so far is folding all events: batching does not matter |
| EtcdWatcher.QuietEvents | pkg/taskhandler/discovery/etcd/etcd.go:74-85 | events that raise no update flag leave the map unchanged |
| EtcdWatcher.ChangesExactly | pkg/taskhandler/discovery/etcd/etcd.go:70-86 | the flag is raised if and only if some event counts as a change to the map before the batch |
| EtcdWatcher.TouchesExactly | pkg/taskhandler/discovery/etcd/etcd.go:74-85 | an event counts as a change if and only if it is a deletion or would alter the map |
| EtcdWatcher.RenewalIsQuiet | pkg/taskhandler/discovery/etcd/etcd.go:74-80 | a put of the stored value, as a lease renewal sends it, is not published |
| EtcdWatcher.UnchangedExactly | pkg/taskhandler/discovery/etcd/etcd.go:70-86 | a batch leaves the map unchanged if and only if the last event of every key restores what the map had |
| EtcdWatcher.RepublishesUnchanged | pkg/taskhandler/discovery/etcd/etcd.go:70-106 | the exact condition for republishing an unchanged map |
| EtcdWatcher.UnknownDeletionRepublishes | pkg/taskhandler/discovery/etcd/etcd.go:81-86 | the deletion of an unknown key does so |
| EtcdWatcher.RevertedValueRepublishes | pkg/taskhandler/discovery/etcd/etcd.go:74-80 | a value replaced and put back in one batch does so |
| EtcdWatcher.Watcher.constructor | pkg/taskhandler/discovery/etcd/etcd.go:60-62 | the empty map is the fold of no events, and no list stands for it |
| EtcdWatcher.Watcher.Receive | pkg/taskhandler/discovery/etcd/etcd.go:63-110 | the map stays the fold of all events seen and the last list sent decodes it; publishes, or panics on an unreadable value, if and only if some event is a deletion or would alter the map; the map is unchanged if and only if every key is restored |
| EtcdWatcher.Watcher.ApplyAll | pkg/taskhandler/discovery/etcd/etcd.go:70-86 | the guarded updates equal the plain fold, and the flag tells exactly whether some event is a deletion or would alter the map |
| EtcdWatcher.Watcher.Publish | pkg/taskhandler/discovery/etcd/etcd.go:87-109 | the list decodes each entry once, in any map order; panics if and only if a value has fewer than three parts |
| RequestIdentity.ForwardedExactly | pkg/tfservingproxy/tfservingproxy.go:93-126 | a URL is forwarded with a name and version if and only if it spells them out in the shape of the pattern |
| RequestIdentity.BadRequestExactly | pkg/tfservingproxy/tfservingproxy.go:112-124 | a URL is refused as a bad request if and only if it names a model and no version after it |
| RequestIdentity.NotFoundExactly | pkg/tfservingproxy/tfservingproxy.go:99-111 | a URL is not found if and only if it names no model |
| RequestIdentity.AnyCaseForwarded | pkg/tfservingproxy/tfservingproxy.go:24 | the fixed parts of a forwarded URL, spelled out in lower case and in capitals |
| RequestIdentity.Refused | pkg/tfservingproxy/tfservingproxy.go:93-126 | `/v1/models/` and a name is a bad request; another API version or an empty name is not found |
| RequestIdentity.LowerExactly | pkg/tfservingproxy/tfservingproxy.go:24 | case is ignored for letters only |
| RequestIdentity.RestIdentifier | pkg/cachemanager/cachemanager.go:294-303 | a forwarded version becomes the value of its digits, or is refused if that exceeds int64 |
| RequestIdentity.IdentifierExactly | pkg/cachemanager/cachemanager.go:294-303 | a version text becomes an identifier if and only if it is a numeral whose value is in range |
| RequestIdentity.SameIdentity | pkg/tfservingproxy/tfservingproxy.go:57-61 | REST and gRPC pass on the same strings for a name and version if and only if the version is not negative and the name is not empty and has no slash; what gRPC passes on identifies the name and version it was made from |
| RequestIdentity.RingKeyInjective | pkg/taskhandler/taskhandler.go:84-86 | ring keys tell all names and versions apart |
| RequestIdentity.RingKeyLayout | pkg/taskhandler/taskhandler.go:84-86 | a ring key is the name, two hash signs and the version |
| RequestIdentity.SameRingKey | pkg/taskhandler/taskhandler.go:84-86 | a REST request shares the ring key of the gRPC request for the same model if and only if its version has no redundant zero |
| BlobListing.ModelObjectApply | pkg/cachemanager/modelproviders/azblobmodelprovider/azblobmodelprovider.go:125-162 | succeeds if and only if no listing call and no file fails and there is a blob; then applied once per file, in order, for any paging |
| BlobListing.ApplyToSegment | pkg/cachemanager/modelproviders/azblobmodelprovider/azblobmodelprovider.go:140-154 | one segment: skips folders, stops at the first failing file |
| BlobListing.Accumulator.Apply | pkg/cachemanager/modelproviders/azblobmodelprovider/azblobmodelprovider.go:112-115 | the total is the machine sum of the lengths applied so far: their sum if and only if that fits int64 |
| BlobListing.ModelSize | pkg/cachemanager/modelproviders/azblobmodelprovider/azblobmodelprovider.go:109-123 | an answer if and only if no listing call fails and some blob is found: the machine sum over the files, which are all blobs not ending in a slash, and the prefix itself |
| BlobListing.LoadModel | pkg/cachemanager/modelproviders/azblobmodelprovider/azblobmodelprovider.go:60-107 | a model if and only if the directory can be made, no listing call and no file fails and some blob is found: it has the requested identifier, the path made of its name and version, and the machine sum over the files as size |
| BlobListing.LoadedIsValid | pkg/cachemanager/modelproviders/azblobmodelprovider/azblobmodelprovider.go:60-107 | so what is loaded meets what the cache manager needs of a provider, if no length is negative and their sum fits int64 |
| BlobListing.FolderExactly | pkg/cachemanager/modelproviders/azblobmodelprovider/azblobmodelprovider.go:145-147 | a blob is skipped if and only if its name ends in a slash and is not the prefix itself |
| BlobListing.FolderBelow | pkg/cachemanager/modelproviders/azblobmodelprovider/azblobmodelprovider.go:145-147 | below the prefix the last character decides; the prefix itself is a file |
| BlobListing.FilesMembers | pkg/cachemanager/modelproviders/azblobmodelprovider/azblobmodelprovider.go:140-154 | exactly the blobs that pass the test are kept |
| BlobListing.SumConcat | pkg/cachemanager/modelproviders/azblobmodelprovider/azblobmodelprovider.go:112-115 | each blob of a listing contributes its length to the sum |
| BlobListing.PrefixLayout | pkg/cachemanager/modelproviders/azblobmodelprovider/azblobmodelprovider.go:164-172 | a prefix is the name, a slash, the version and a slash, after the base directory and a slash if there is one |
| BlobListing.ReservationIsExact | pkg/cachemanager/cachemanager.go:116-127 | the measured and the loaded size agree on one listing however either was paged, so the reservation of a new model leaves the cache as insertion alone would |
| BlobListing.PrefixesOverlap | pkg/cachemanager/modelproviders/azblobmodelprovider/azblobmodelprovider.go:164-172 | some blob lies under the prefixes of two different models if and only if the name of one and a slash begin with the whole `name/version/` of the other |
| BlobListing.PlainNamesDisjoint | pkg/cachemanager/modelproviders/azblobmodelprovider/azblobmodelprovider.go:164-172 | names without a slash never do |
| BlobListing.DirectoryNameOverlaps | pkg/cachemanager/modelproviders/azblobmodelprovider/azblobmodelprovider.go:164-172 | a model named like the version directory of another: all its blobs are found with the other |

## Left out

- Deleting files on eviction: the path that is tested and removed lacks the base
  directory used on lookup (`pkg/cachemanager/lrucache.go:73-79`,
  `pkg/cachemanager/lrucache.go:104`), so nothing is claimed about the disk. A failed
  removal ends the process and so the run.
- What is on disk: whether a file exists is an arbitrary answer at each lookup.
- Data races inside one cache operation under the read lock, as stated above.
- The fairness of the read/write lock: the model lets readers in while writers wait,
  which allows more interleavings than the lock does.
- The hash ring: `stathat.com/c/consistent` is not part of this model, nor is the
  random choice among replicas. `ClusterConnection.FindNodeForKey` takes the ring's
  answer as given.
- URL escaping: the URL is taken in the textual form the pattern is applied to, and
  letter case is folded for ASCII letters only.
- `path.Join`: an arbitrary function of directory and name.
- The disk and S3 providers, Kubernetes and Consul membership: plumbing, or loops
  whose completeness the source does not provide for.
- Members registered before the watch began, delivery over the subscription channels,
  leases and their renewal.
- gRPC connections, request forwarding, health checks, metrics, logging and configuration.
- Wrap-around of counters of list elements and blobs, and float rounding of the poll
  timer: half-second ticks are exact, and the only timeout in use is 10 seconds.
- `GetModelStatus` as a remote call: its response is a list of state codes or an error
  (`FetchModel.GetModelStatus`).

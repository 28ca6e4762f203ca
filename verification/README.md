# QtZeroConf Avahi wrapper — Dafny model

QtZeroConf publishes and browses DNS-SD services. On desktop Linux it wraps the
Avahi client library (`avahiclient.cpp`). Between Avahi's callbacks and the
application-visible Qt signals, the wrapper keeps a small sequential state machine.
This project models that state machine as pure functions over an immutable state and
proves its properties.

The state holds:

- an optional entry group (publishing) and an optional service browser;
- `resolvers`: map key → resolver handle;
- `services`: map key → discovered service record (name, type, domain, host,
  interface, port, TXT map, IPv4 address, IPv6 address);
- the TXT list to publish, plus the name, type and domain of the last publish request.

The map key is the service name followed by the decimal interface index. It is a plain
string concatenation, and it is not injective (`Model.KeyCollision`). Each public call
and each Avahi callback is a function from a state to a `Step`: the new state plus the
sequence of signals emitted (`servicePublished`, `serviceAdded`, `serviceUpdated`,
`serviceRemoved`, `error(kind)`).

Avahi objects are opaque `Handle` tokens. Whether an Avahi call succeeds is an input
of the model: the `addOk`, `commitOk` and `ok` booleans, and the `created`/`browser`
options.

Modules:

- `Base`: the `Option` type.
- `Decimal`: `QString::number` for interface indices, with its inverse.
- `KeyOrder`: the iteration order of a `QMap<QString, …>`. `browserCleanUp` emits its
  removals in this order.
- `Txt`: `QByteArray::split`, TXT entry building and TXT parsing.
- `Model`: entities, state, events, the key, and the observer replay.
- `Browse`: browser and resolver callbacks, cleanup, `startBrowser`/`stopBrowser`.
- `Publish`: the entry-group lifecycle and the TXT list operations.
- `Session`: every input applied in sequence, with the lemmas about whole runs.

Points where the code's behaviour is easy to misread:

- **TXT parsing.** Section 6.4 of RFC 6763 keeps everything after the first `=` as
  the value. The code (avahiclient.cpp:158-162) splits an entry on every `=`. Unless
  there are exactly two parts, the first part maps to the empty value
  (`Txt.ValueWithSeparatorIsDropped`).
- **Starting a second browser.** `startBrowser` emits `browserFailed` when a browser
  is already running, and then still replaces it with the new one
  (avahiclient.cpp:321-333).
- **Browser removal.** The resolver is released whenever one exists for the key,
  whether or not a service is stored under that key.
- **Commit failure.** A failed commit emits `serviceRegistrationFailed` twice: once in
  the failure branch, and once more from the null-group check that follows it.

`PublishExists` and `BrowserExists` are the predicates `group != None` and
`browser != None`. The contracts are stated in terms of them. The browser is kept
together with the Avahi protocol `startBrowser` opened it for.

Besides the per-call contracts, three run-level results tie the calls together.
`Session.RunGroup` and `Session.RunBrowser` compare the group and the browser after
any sequence of inputs with a reading of the inputs alone. `Session.RunKeepsResolversCover`
shows that every stored service keeps its resolver, provided Avahi calls back only
resolvers the wrapper still holds.

## Model

| member | source | states |
|---|---|---|
| Decimal.RenderRoundTrip | avahiclient.cpp:88 | the decimal text appended to the name reads back as the interface index |
| Model.KeyCollision | avahiclient.cpp:88 | the key is not injective: name "a1" on interface 2 and name "a" on interface 12 share one key |
| Model.KeySameName | avahiclient.cpp:139 | for one name, different interfaces give different keys |
| Model.InitWf | avahiclient.cpp:38-45 | a new wrapper has no group, no browser, and empty maps, and it satisfies the key invariant |
| KeyOrder.Ascending | avahiclient.cpp:195-198 | the services map is walked over every key exactly once |
| KeyOrder.AscendingIsSorted | avahiclient.cpp:195-198 | the walk visits keys in ascending lexicographic order |
| Txt.Split | avahiclient.cpp:158 | splitting on '=' gives one more part than there are '=' characters; no part contains '='; joining the parts gives the entry back |
| Txt.SplitJoin | avahiclient.cpp:158 | splitting undoes joining when the parts contain no '=' |
| Txt.ParseEntry | avahiclient.cpp:158-162 | the key of a received entry is a prefix of it and never contains '=' |
| Txt.ParseEntryCases | avahiclient.cpp:158-162 | exactly one '=' gives key and value with entry == key=value; otherwise the value is empty, and the key is the whole entry or the text before its first '=' |
| Txt.ParseTxt | avahiclient.cpp:154-165 | the TXT map holds exactly the keys of the received entries |
| Txt.ParseTxtLast | avahiclient.cpp:159-162 | a later entry with the same key overwrites an earlier one: each key keeps the value of its last entry |
| Txt.EntryRoundTrip | avahiclient.cpp:293-298 | an entry built from a name and a value that contain no '=' parses back to that pair |
| Txt.NameOnlyRoundTrip | avahiclient.cpp:288-291 | a bare name with no '=' parses back with the empty value |
| Txt.ValueWithSeparatorIsDropped | avahiclient.cpp:158-162 | "a=b=c" parses to a -> "", not the RFC 6763 value "b=c" |
| Txt.TxtRoundTripKeys | avahiclient.cpp:154-165 | entries built from pairs without '=' parse back to a map whose keys are exactly the added names |
| Txt.TxtRoundTripValues | avahiclient.cpp:154-165 | entries built from pairs without '=' parse back with each name mapped to the value of its last addition |
| Browse.CleanUp | avahiclient.cpp:188-205 | without a browser nothing happens; otherwise one removal per stored service, both maps emptied, browser gone |
| Browse.CleanUpRemovesEach | avahiclient.cpp:195-198 | every stored service is the subject of a removal event carrying its stored record |
| Browse.CleanUpRemovesOnce | avahiclient.cpp:195-198 | no two removal events concern the same key |
| Browse.CleanUpReplay | avahiclient.cpp:188-205 | an observer who knew every stored key knows none after cleanup, and every removal concerned a key that was present |
| Browse.BrowseNew | avahiclient.cpp:98-101 | a resolver is inserted only when the key has none; an existing entry and the services map stay as they were; no signal |
| Browse.BrowseRemove | avahiclient.cpp:102-114 | with no resolver for the key nothing changes; otherwise the resolver is dropped, and a stored service is removed and reported once with its stored record |
| Browse.BrowseFailure | avahiclient.cpp:94-97 | the cleanup's signals, then browserFailed; the resulting state is the cleanup's |
| Browse.BrowseCallback | avahiclient.cpp:78-119 | ALL_FOR_NOW and CACHE_EXHAUSTED do nothing; only FAILURE touches the browser |
| Browse.WithAddress | avahiclient.cpp:167-173 | INET sets only the IPv4 field and INET6 sets only the IPv6 field; the other field keeps its earlier value; UNSPEC changes neither |
| Browse.ResolveFound | avahiclient.cpp:140-179 | the key becomes present with the event's fields and parsed TXT; added iff the key was absent, else updated; other keys and the resolvers map unchanged |
| Browse.ResolveFailed | avahiclient.cpp:180-185 | a stored service is removed and reported once; an absent key gives no change; the resolvers map is never touched |
| Browse.ResolveCallback | avahiclient.cpp:121-186 | a resolver callback never changes the resolvers, the browser or the group, and emits at most one signal |
| Browse.AvahiProtocolFor | avahiclient.cpp:324-329 | IPv6 gives INET6, "any" gives UNSPEC, and IPv4 and every other filter give INET |
| Browse.StartBrowser | avahiclient.cpp:317-334 | the browser becomes the one opened for the filter's Avahi protocol, even over a running one, or none when opening fails; one browserFailed for a running browser plus one for a failed opening; nothing else changes |
| Browse.StopBrowser | avahiclient.cpp:336-339 | no browser afterwards; a running browser takes both maps with it and each stored service is reported removed; without one nothing happens |
| Browse.BrowserExists | avahiclient.cpp:341-347 | true exactly when a browser is held |
| Publish.PublishExists | avahiclient.cpp:278-284 | true exactly when an entry group is held |
| Publish.StartServicePublish | avahiclient.cpp:234-268 | with a group present: one serviceRegistrationFailed and no change; otherwise the group is kept iff add and commit succeed; one error on add failure, two on commit failure |
| Publish.StartReportsFailureIffNoGroup | avahiclient.cpp:252-267 | from an idle wrapper, a publish request is silent exactly when a group remains |
| Publish.StopServicePublish | avahiclient.cpp:270-276 | no group afterwards, no signal, nothing else changes |
| Publish.GroupCallback | avahiclient.cpp:56-76 | ESTABLISHED emits only servicePublished; COLLISION and FAILURE drop the group and emit serviceNameCollision and serviceRegistrationFailed respectively; other states do nothing |
| Publish.AddServiceTxtRecord | avahiclient.cpp:288-291 | the bare name is appended to the TXT list; nothing else changes |
| Publish.AddServiceTxtRecordValue | avahiclient.cpp:293-298 | name=value is appended to the TXT list; nothing else changes |
| Publish.ClearServiceTxtRecords | avahiclient.cpp:300-304 | the TXT list is empty; nothing else changes |
| Publish.UpdateServiceTxtRecords | avahiclient.cpp:306-315 | the state is unchanged; an error is emitted iff a group exists and the update fails |
| Session.ApplyKeepsObserverInSync | avahiclient.cpp:78-205 | any single input keeps each stored service under its own key; an observer replaying the signals stays in step with the stored keys |
| Session.RunKeepsObserverInSync | avahiclient.cpp:78-205 | over any run: serviceAdded only for absent keys, serviceUpdated and serviceRemoved only for present keys, and the observer's view ends equal to the stored keys |
| Session.ApplyGroup | avahiclient.cpp:56-76 | each input leaves the group predicted from the input alone: collision and failure callbacks drop it, other group states keep it |
| Session.RunGroup | avahiclient.cpp:234-284 | over any run, the group held, and so publishExists, is what the last group-deciding input left: a created group after an accepted request with add and commit succeeding, none after a failed request, stopServicePublish, a collision or a failure; a refused request keeps the current group |
| Session.RunBrowser | avahiclient.cpp:317-347 | over any run, the browser held, and so browserExists, is the one opened by the last startBrowser for its filter's protocol, unless stopBrowser or a browser failure came later |
| Session.ApplyKeepsResolversCover | avahiclient.cpp:98-185 | each input keeps every stored service's key in the resolvers map, provided a resolver callback names a held resolver |
| Session.RunKeepsResolversCover | avahiclient.cpp:98-205 | over any run whose resolver callbacks come from held resolvers, every stored service still has its resolver |
| Session.PublishedTxtRoundTrip | avahiclient.cpp:288-304 | after clear and a series of additions, the TXT list parses to exactly the added names with their last values |
| Session.PublishEstablishedScenario | avahiclient.cpp:56-62 | a successful publish followed by ESTABLISHED emits only servicePublished, and the group exists |
| Session.PublishCollisionScenario | avahiclient.cpp:63-67 | a successful publish followed by COLLISION emits serviceNameCollision, and no group remains |
| Session.BrowseResolveRemoveScenario | avahiclient.cpp:98-114 | browse NEW, then resolve FOUND, then REMOVE: serviceAdded with exactly the resolved fields, then serviceRemoved with the same record; both maps empty afterwards |

## Left out

- The Avahi library and the transport are not modelled: the poll and client
  creation in the constructor, multicast sockets, probing, announcing, conflict
  detection, the record cache with its TTLs, and known-answer suppression. Their
  results enter the model as handle tokens and success booleans.
- Freeing Avahi objects is not modelled: `avahi_*_free`, the destructor (which runs
  the same cleanup as `stopBrowser`), and `delete`. Freeing is shown only as a handle
  leaving the state. The free-after-null ordering on commit failure leaks the group;
  the model keeps only what can be observed (no group, errors emitted).
- A null group from `avahi_entry_group_new` is not a separate input. The model covers
  only the add and commit results that follow.
- A null resolver from `avahi_service_resolver_new` is stored like any other value.
  The model's resolver token is unconstrained.
- The service type given to `startBrowser` is passed to Avahi and not kept by the
  wrapper, so the state does not hold it. The Avahi protocol is kept with the browser
  handle, because it is the only other argument that varies.
- The port given to `startServicePublish` is stored by the source but never read
  again, so the state does not hold it.
- Address formatting and parsing (`avahi_address_snprint`, `QHostAddress`) is not
  modelled: an address is opaque text, and the unset address is `None`.
- UTF-8 conversion and the QString/QByteArray distinction are not modelled: all text
  is a sequence of characters.
- KeyOrder.Ascending: keys are compared by code point. QString compares UTF-16 code
  units, which orders characters above U+FFFF differently from those in
  U+E000–U+FFFF.
- The order of entries inside Avahi's string list (`avahi_string_list_add`) is
  Avahi's concern. The model keeps the TXT list in the order of the calls, and the
  round trip assumes a resolver receives the entries in that order.
- Qt signal delivery and `qRegisterMetaType` are not modelled: a signal is an event
  appended to the step's sequence, in emission order.
- Interface indices are unbounded integers. `AvahiIfIndex` is a 32-bit `int`, and its
  rendering agrees with the model within that range.

# A verified model of Unver's stateful core

Unver is a reverse-proxy panel: a proxy engine with TLS termination, automatic
certificates, dynamic DNS and an HTTP API over SQLite. This Dafny project models
the parts of it that carry real state, parsing or protocol logic, and proves what
they keep. `dafny verify dfyconfig.toml` checks all of it.

| file | what it models |
|---|---|
| `Common.dfy` | options, results, and splitting, joining and locating sequences |
| `Sni.dfy` | the scanner that finds the server name in a raw TLS ClientHello |
| `CertCache.dfy` | the certificate cache: rebuild, runs of rebuilds, the TLS resolver |
| `ListenerReload.dfy` | port-group handlers and backup import against the proxy engine's reload loop |
| `AliyunSigning.dfy` | percent-encoding, canonical query, signature and URL of an Aliyun request |
| `Backup.dfy` | export and import of the configuration over four tables |
| `Acme.dfy` | both versions of ACME DNS-01 issuance, against any authority and DNS provider |
| `Jobs.dfy` | background certificate jobs, their logs, the worker's queue, the lock order |
| `Tunnel.dfy` | what happens to a client's bytes between the peek and the backend |
| `Ddns.dfy` | the Aliyun record upsert and the manager's passes with Cloudflare |
| `Expiry.dfy` | what comparing expiry dates as text means |
| `ZoneSearch.dfy` | finding the DNS zone of a name at Aliyun and Cloudflare |
| `TokenRefresh.dfy` | the browser client's single-flight token refresh |
| `RefreshRotation.dfy` | refresh tokens on the server |

Code that changes state step by step is written as methods and classes, each tied
by its contract to a function of the old state; what the source promises is then
proved of that function. Where the source interleaves (handlers and engine,
pollers and worker, parallel requests), every access to what they share is one step
of a state machine, and the properties are about all runs of it.

The network, the clock, randomness and foreign libraries are parameters: the
certificate authority is an arbitrary script of answers, a DNS provider an
arbitrary function, encryption and hashing are functions about which a lemma
assumes what it says in its `requires` and nothing else.

## Where the code does not do what it is for

Each of these is stated by lemmas: a concrete input or run, and the exact condition
under which the code does what it is for.

- The server-name scanner compares the length of the name list with the end of
  the extension block, not with the end of the server_name extension, and never
  compares the block with the handshake message or the message with the record
  (`Sni.OverrunAccepted`, `Sni.EmptyRecordAccepted`; `Sni.NestedExact`).
- A ClientHello that does not arrive in one read hides its name, so that its tunnel
  rule is missed (`Sni.CutHelloHidden`; `Tunnel.HelloRouted`).
- Rebuilding the certificate cache never removes an entry, although the comment at
  `backend/src/api/settings.rs:803` expects a deleted certificate to drop out
  (`CertCache.DeletedCertificateStays`; `CertCache.RunIsFresh`).
- Nothing keeps two enabled SSL rules from having one domain. Bound to two
  certificates, they are served with whichever a query without an order lists last
  (`CertCache.TwoRulesOrderMatters`; `CertCache.OrderMattersExactly`).
- If the engine's query fails, its listeners stay down until the next change
  (`ListenerReload.FailedQueryLosesListeners`; `ListenerReload.NoLostReloadExact`,
  `ListenerReload.SettlesInTime`).
- Two overlapping requests for one port both pass the port check and both write it
  (`ListenerReload.TwoCreatesClash`; `ListenerReload.PortsClashExactly`).
- The header loop before the HTTPS redirect looks for the blank line inside one
  read only, although its comment says that it reads to the end of the headers
  (`Tunnel.SplitTerminatorMissed`; `Tunnel.StopsAtHeaders`).
- Import skips rules that export wrote with an empty name, domain or target, after
  having deleted them (`Backup.UnnamedRuleIsLost`; `Backup.OwnBackup`).
- Export writes two settings that import skips, the Aliyun secret among them
  (`Backup.SkippedSettings`; `Backup.SettingTravels`).
- A setting encrypted with the local secret is exported as it is, and cannot be read
  where the secret is another, the ACME account among them
  (`Backup.AccountUnreadable`; `Backup.SecretSettingTravels`).
- Nobody looks at whether a challenge record was deleted, so refused deletes leave
  records behind while issuance goes on (`Acme.RecordsPileUp`; `Acme.TxtLedger`).
- When the renewal loop fails to validate a wildcard, it looks for the record to
  delete under the wildcard's name. At Cloudflare that is another zone exactly when
  the bare name is a zone itself (`Acme.WildcardDeleteMisses`,
  `Acme.WildcardRecordStays`; `Acme.DeleteSearchesOtherZone`). Aliyun deletes by
  record id alone. A wildcard rule comes into the table by import only.
- The last log lines of a job can stay out of reach of status polls until the worker
  takes another request (`Jobs.LastLineCanLag`; `Jobs.LogComplete`).
- An Aliyun upsert only sees the first fifty hits of its search
  (`Ddns.CrowdHidesRecord`; `Ddns.UpsertConverges`, `Ddns.SecondUpsertIsSilent`).
- A Cloudflare lookup that fails marks the name as managed, so that it is never
  created (`Ddns.FailedLookupBlocksCreation`, `Ddns.CreatedExactly`).
- Cloudflare challenge records are looked for above the name only, never in the
  zone of the name itself (`ZoneSearch.ApexHasNoTxtZone`; `ZoneSearch.TxtZoneAgrees`).
- A 401 answer to the refresh call itself queues the call behind itself, and the
  client never recovers (`TokenRefresh.RefusedRefreshSticks`;
  `TokenRefresh.SettledExactly`).
- Two refreshes of one token that overlap are both accepted
  (`RefreshRotation.OverlapAcceptsTwice`; `RefreshRotation.AcceptedAtMostOnce`).
- A refresh under way at a logout gives the session a new token
  (`RefreshRotation.RefreshOutlivesLogout`; `RefreshRotation.LogoutEndsSession`,
  `RefreshRotation.LogoutOfCurrent`).
- A login or a refresh under way when a password changes still gets a session that
  goes back to the old password (`RefreshRotation.LoginOutlivesPasswordChange`,
  `RefreshRotation.OutlivesPasswordChange`;
  `RefreshRotation.PasswordChangeEndsSessions`).

## Model

| member | source | states |
|---|---|---|
| Sni.ExtractSni | backend/src/proxy.rs:248-316 | the scanner over one cursor stays in bounds and terminates for every buffer, and returns what the specification `Sni` says |
| Sni.SkipToExtensions | backend/src/proxy.rs:249-284 | finds the bounds of the extension block, or rejects exactly where a length does not fit |
| Sni.ReadServerNames | backend/src/proxy.rs:295-311 | the inner loop over the names of one server_name list |
| Sni.SniExact | backend/src/proxy.rs:248-316 | a name is returned if and only if it is UTF-8 and the buffer, field by field, has the layout of a ClientHello up to its extension block, whose first server_name extension has it as first host name; record and message lengths only have to fit the buffer |
| Sni.HostSound | backend/src/proxy.rs:286-316 | every returned name comes with a full decomposition of the buffer into the fields that were read |
| Sni.HostComplete | backend/src/proxy.rs:286-316 | every buffer with such a decomposition yields its name |
| Sni.NestedExact | backend/src/proxy.rs:252-301 | the name lies inside nested list, extension, extension block, handshake message and record if and only if the two comparisons the code leaves out would hold |
| Sni.OverrunAccepted | backend/src/proxy.rs:297-299 | a hello whose list runs past its extension and which is accepted all the same |
| Sni.EmptyRecordAccepted | backend/src/proxy.rs:252-261 | a buffer whose record and message are empty by their lengths, and which yields a name |
| Sni.RoundTrip | backend/src/proxy.rs:248-316 | scanning the encoding of any ClientHello, whatever follows it, gives the first host name of its first server_name extension, or none |
| Sni.AsciiNameFound | backend/src/proxy.rs:248-316 | every name of bytes below 0x80 is returned for every encoded ClientHello that carries it |
| Sni.Utf8Exact | backend/src/proxy.rs:308 | bytes count as text if and only if they are a sequence of Unicode scalar values, each in its encoding of RFC 3629, with the encoder written apart |
| Sni.CutHelloHidden | backend/src/proxy.rs:252-254 | no proper prefix of an encoded ClientHello yields a name |
| Sni.ExtensionsRead | backend/src/proxy.rs:286-315 | scanning encoded extensions finds the first server_name among them |
| Sni.NamesRead | backend/src/proxy.rs:301-311 | scanning an encoded name list finds its first host_name |
| CertCache.Cache.LoadCerts | backend/src/ssl.rs:95-138 | decrypt, sort, insert certificate by certificate and rule by rule: the new cache is the overlay `Rebuild` of the old one |
| CertCache.Cache.Resolve | backend/src/proxy.rs:334-349 | the name itself, then the wildcard one label up |
| CertCache.OverlayExact | backend/src/ssl.rs:117-136 | a cache obeys the overlay law (chosen keys hold the database's choice, all others what they held) if and only if it is the rebuilt one |
| CertCache.WildcardsFirstSorts | backend/src/ssl.rs:109-110 | the sort loses and repeats no row and puts every wildcard in front |
| CertCache.WinnerIndex | backend/src/ssl.rs:118-136 | the entry a key ends up with is that of the last loadable certificate in sorted order that serves it |
| CertCache.RunExact | backend/src/ssl.rs:95-138 | after any run of rebuilds from empty, an entry is the choice of the last rebuild that had one for its key |
| CertCache.RunIsFresh | backend/src/ssl.rs:117-136 | the cache agrees with the current database if and only if no key once served has lost all its certificates |
| CertCache.DeletedCertificateStays | backend/src/api/settings.rs:796-804 | deleting a certificate, which also switches SSL off for rules bound to it, and rebuilding leaves its entry in place |
| CertCache.ChosenIsPreferred | backend/src/ssl.rs:109-136 | a rule bound to an id gets only that certificate; any other gets its exact certificate if that loads, else the wildcard, else nothing (unless a row without an id meets a rule with an empty one) |
| CertCache.OrderMattersExactly | backend/src/ssl.rs:96-136 | for any rows and rules: the order of the two queries' rows does not matter, whatever the cache held, if and only if for every key all its top rows (candidates that some order puts last) carry one certificate |
| CertCache.ChosenIsTop | backend/src/ssl.rs:109-136 | what a key is given is the certificate of a top row of it, for any rows and rules |
| CertCache.TwoRulesOrderMatters | backend/src/ssl.rs:113-134 | two rules for one domain bound to two certificates: each order of the rows serves another one |
| CertCache.OrderIndependent | backend/src/ssl.rs:96-136 | so any order of the rows gives the same cache, when ids, domains and rule domains are distinct (and no row without an id meets a rule with an empty one) |
| CertCache.CoversUpToCase | backend/src/ssl.rs:142-152 | coverage depends on a name only up to case |
| CertCache.CoversThroughWildcard | backend/src/ssl.rs:142-152 | what covers the wildcard one label up also covers the name |
| CertCache.ResolverSound | backend/src/proxy.rs:334-349 | whatever the resolver presents was bound by id to a matching rule or covers the name asked for, at some rebuild |
| CertCache.ResolverComplete | backend/src/proxy.rs:334-349 | right after a rebuild, every rule domain with a loadable certificate is answered in any case, with the database's choice; in terms of the stored columns it is `CertCache.LoadableIsServed` |
| CertCache.LoadableIsServed | backend/src/ssl.rs:102-136 | right after a rebuild, every name that a rule names is answered if the rule takes a row whose key decrypts and whose certificate parses with the decrypted key |
| CertCache.ServedIsStored | backend/src/ssl.rs:95-138 | whatever is answered after any run of rebuilds is what the certificate and the decrypted key of a row make, seen at one of them together with a rule that took it and names what was asked for |
| CertCache.UnloadableIgnored | backend/src/ssl.rs:102-119 | a row whose key does not decrypt, or whose certificate does not parse with it, makes no difference to any rebuild |
| CertCache.TakesExactly | backend/src/ssl.rs:122-131 | a rule takes the certificate it is bound to; without an id, or with an empty one, whatever names its domain or has a star for its first label, letter by letter up to case |
| CertCache.ResolvedExactly | backend/src/proxy.rs:334-349 | the resolver, in full: the lower-cased name, else the name with a star for its first label, else nothing |
| ListenerReload.NoLostReload | backend/src/proxy.rs:367-464 | in every interleaving of handlers and engine, a quiet engine whose last query went through has a listener for every enabled group and no other, each with the skip-TLS and force-HTTPS flags stored now, on the stored port if that is one; if the query failed it listens on nothing |
| ListenerReload.AllAnsweredListens | backend/src/proxy.rs:367-464 | so it does once every request is answered and every signal seen |
| ListenerReload.NoLostReloadExact | backend/src/proxy.rs:397-415 | and it listens as it should if and only if that query went through or no group is enabled |
| ListenerReload.FailedQueryLosesListeners | backend/src/proxy.rs:403-411 | one failed query leaves an enabled group without a listener and nothing pending |
| ListenerReload.ActKeepsView | backend/src/api/port_groups.rs:107-224 | no statement of any handler changes what should be listened on without leaving its handler owing a signal, and only sending settles that |
| ListenerReload.RejectedUpdateIsHarmless | backend/src/api/port_groups.rs:144-200 | in every interleaving, no statement of an update that ends rejected, its name written or not, changes what should be listened on or sends |
| ListenerReload.FailedUpdateKeepsView | backend/src/api/port_groups.rs:144-200 | an uninterrupted update that does not succeed leaves what should be listened on as it was |
| ListenerReload.PortsStayDistinct | backend/src/api/port_groups.rs:112-182 | over any run of creates, updates, deletes and engine steps, ports stay distinct and checked ports free as long as no two requests have checked one port for two groups at once |
| ListenerReload.PortsClashExactly | backend/src/api/port_groups.rs:119-182 | however the requests that are past their port check go on, ports stay distinct if and only if no two of them have checked one port for two groups |
| ListenerReload.SharedClaimClashes | backend/src/api/port_groups.rs:119-182 | two that have write it into both groups in at most four statements |
| ListenerReload.TwoCreatesClash | backend/src/api/port_groups.rs:119-135 | a run from the start: two creates, two enabled groups on one port |
| ListenerReload.StepKeepsInv | backend/src/proxy.rs:378-394 | every step of handlers, imports and engine keeps the invariant behind the reload |
| ListenerReload.EngineProgress | backend/src/proxy.rs:378-394 | without handlers, every engine step lowers the number of steps left |
| ListenerReload.EngineNotStuck | backend/src/proxy.rs:378-394 | short of rest, the engine always has a step to take, and rest is quiet |
| ListenerReload.SettlesInTime | backend/src/proxy.rs:378-394 | from any reachable state without handlers, however the engine goes on until it can go no further: it stops within a known bound, quiet, with the right listeners if its last query went through and none otherwise |
| ListenerReload.CanSettle | backend/src/proxy.rs:378-394 | and there is such a way without a failing query |
| ListenerReload.NoEndlessReload | backend/src/proxy.rs:378-394 | no schedule of the engine alone is longer than that bound, and none touches handlers or table |
| ListenerReload.PortGroups.CreateGroup | backend/src/api/port_groups.rs:107-141 | exactly when a group is created, what the table is then, and that it signals once; the same as its statements in a row |
| ListenerReload.PortGroups.UpdateGroup | backend/src/api/port_groups.rs:144-200 | either the whole patch is applied and signalled, or only the name is written and nothing signalled, decided by the port |
| ListenerReload.PortGroups.WriteFlags | backend/src/api/port_groups.rs:183-194 | the three flag statements complete the patch |
| ListenerReload.PortGroups.DeleteGroup | backend/src/api/port_groups.rs:203-227 | the group is gone and signalled, or was not there and nothing happens |
| ListenerReload.UpdateAlone | backend/src/api/port_groups.rs:144-200 | the statements of an update, uninterrupted, come to what the update method does |
| ListenerReload.UpdateMeans | backend/src/api/port_groups.rs:144-200 | an update column by column: when it succeeds, what each column is then, and that one failing at the port has written the name |
| ListenerReload.UpsertMeans | backend/src/api/settings.rs:438-456 | after an import each group is what the last row for its id says, or what it was |
| ListenerReload.ProxyEngine.Reload | backend/src/proxy.rs:386-464 | draining and inserting the rows, in any order, gives a listener for every enabled group and no other, with the group's own flags and port |
| ListenerReload.AsU16 | backend/src/proxy.rs:421 | the cast keeps the low sixteen bits, so a port in range is kept |
| AliyunSigning.PercentEncode | backend/src/ddns/providers/aliyun.rs:31-44 | the byte loop writes `Encoded`, which is pinned byte by byte by `AliyunSigning.EncodedExactly` |
| AliyunSigning.EncodedExactly | backend/src/ddns/providers/aliyun.rs:31-44 | the encoding in full: byte by byte; letters, digits and -_.~ stand for themselves, any other byte is a percent sign and its two upper-case hexadecimal digits, the high one first |
| AliyunSigning.EscapesAreUpper | backend/src/ddns/providers/aliyun.rs:31-44 | wherever encoded text holds a percent sign, two digits of 0-9 and A-F follow |
| AliyunSigning.DecodeInverts | backend/src/ddns/providers/aliyun.rs:31-44 | decoding any encoded text gives the text back |
| AliyunSigning.EncodedInjective | backend/src/ddns/providers/aliyun.rs:31-44 | different texts are encoded differently |
| AliyunSigning.EncodedHasNoSeparator | backend/src/ddns/providers/aliyun.rs:31-44 | encoded text has no '&' and no '=' in it |
| AliyunSigning.QueryReads | backend/src/ddns/providers/aliyun.rs:53-63 | splitting and decoding a query gives back its parameters in order |
| AliyunSigning.QueryExactly | backend/src/ddns/providers/aliyun.rs:53-63 | a query in full: key, = and value, both encoded, with & between the pairs |
| AliyunSigning.SortedSorts | backend/src/ddns/providers/aliyun.rs:49-50 | the sort is ordered by key, a permutation, and keeps parameters of one key in their order |
| AliyunSigning.AtMostMeans | backend/src/ddns/providers/aliyun.rs:50 | the order of keys is that of their bytes, a key before those it begins |
| AliyunSigning.SortedCanonical | backend/src/ddns/providers/aliyun.rs:49-50 | parameters with distinct keys sort to one list from any order |
| AliyunSigning.SignatureIgnoresOrder | backend/src/ddns/providers/aliyun.rs:47-79 | the signature of such parameters does not depend on their order |
| AliyunSigning.CanonicalInjective | backend/src/ddns/providers/aliyun.rs:53-63 | the canonical query determines the parameters up to order |
| AliyunSigning.StringToSignInjective | backend/src/ddns/providers/aliyun.rs:65-71 | so does the string to sign, with the verb |
| AliyunSigning.SignatureBindsParameters | backend/src/ddns/providers/aliyun.rs:47-79 | unless the hash collides, one signature fits one set of parameters |
| AliyunSigning.Sign | backend/src/ddns/providers/aliyun.rs:47-79 | sorting, writing and hashing step by step computes the signature specified |
| AliyunSigning.SignatureExactly | backend/src/ddns/providers/aliyun.rs:65-79 | what is hashed, as text: the verb, &%2F& and the encoded query of the parameters in key order, under the secret followed by & |
| AliyunSigning.WriteQuery | backend/src/ddns/providers/aliyun.rs:53-63 | the pairs, encoded and joined, are the query |
| AliyunSigning.BuildRequest | backend/src/ddns/providers/aliyun.rs:82-121 | common parameters, then the caller's, then the signature, in a URL |
| AliyunSigning.UrlExactly | backend/src/ddns/providers/aliyun.rs:110-120 | the URL as text: the endpoint, a question mark, and the query of the parameters and their signature |
| AliyunSigning.CommonExactly | backend/src/ddns/providers/aliyun.rs:96-105 | the names and fixed values of the parameters in every request |
| AliyunSigning.LookupExactly | backend/src/ddns/providers/aliyun.rs:180-232 | what the calls that look something up ask for, page sizes included |
| AliyunSigning.AddExactly | backend/src/ddns/providers/aliyun.rs:247-258 | what the call that adds a record says, challenge records with their own time to live |
| AliyunSigning.ChangeExactly | backend/src/ddns/providers/aliyun.rs:279-291 | what the calls that change or delete a record say |
| AliyunSigning.UrlReads | backend/src/ddns/providers/aliyun.rs:110-120 | taking the URL apart recovers exactly the parameters followed by the signature |
| AliyunSigning.BuiltRequestAccepted | backend/src/ddns/providers/aliyun.rs:82-121 | a server that re-signs what it reads accepts the request if and only if no caller's parameter is called Signature |
| AliyunSigning.SentRequestsAccepted | backend/src/ddns/providers/aliyun.rs:180-463 | every request the provider sends is accepted by such a server, and would be signed the same with its parameters in any other order |
| AliyunSigning.SentKeysDistinct | backend/src/ddns/providers/aliyun.rs:180-463 | the parameters of every call, with the common ones, have distinct names, none of them Signature |
| Backup.Database.Import | backend/src/api/settings.rs:420-552 | table by table in a transaction: the whole specified outcome, with its counts, or the error and every table as before |
| Backup.Database.ImportGroups | backend/src/api/settings.rs:438-456 | upsert of the accepted groups |
| Backup.Database.ImportCerts | backend/src/api/settings.rs:458-480 | INSERT OR REPLACE of the accepted certificates under re-encrypted keys; fails exactly when a key has to be encrypted without a secret |
| Backup.Database.ImportRules | backend/src/api/settings.rs:482-512 | clears, then inserts; fails exactly when two accepted rules have one id |
| Backup.Database.ImportSettings | backend/src/api/settings.rs:514-531 | upsert of the accepted settings |
| Backup.GroupsImported | backend/src/api/settings.rs:438-456 | after an import a port group is, column by column with the defaults, what the last complete entry for its id says, or what it was if there is none |
| Backup.CertsImported | backend/src/api/settings.rs:458-480 | a complete certificate entry that no later one displaces, by id or by domain, is there column by column under a newly encrypted key; rows that no entry displaces stay, and none appears without an entry |
| Backup.RulesImported | backend/src/api/settings.rs:482-512 | without a rules section the table stays; with one it holds exactly the complete entries, column by column with the defaults |
| Backup.SettingsImported | backend/src/api/settings.rs:514-531 | a setting is what the last entry that may be written says, or what it was; the keys never written are listed |
| Backup.ImportFailsExactly | backend/src/api/settings.rs:431-531 | each of the three failures, if and only if: no section at all; a certificate to encrypt and no secret; two rules under one id |
| Backup.ExportExactly | backend/src/api/settings.rs:343-381 | export lists every group, certificate and rule, each column as stored, keys decrypted where they decrypt |
| Backup.SettingsExported | backend/src/api/settings.rs:335-388 | and every setting but those under four listed prefixes |
| Backup.ImportIsSafe | backend/src/api/settings.rs:436-533 | for any backup: protected settings and the secret stay, certificate domains stay unique, exactly the accepted rules are left |
| Backup.ProtectedStays | backend/src/api/settings.rs:514-531 | no backup changes or creates a protected setting |
| Backup.ReplaceKeepsUnique | backend/src/api/settings.rs:458-480 | certificate domains stay unique under INSERT OR REPLACE |
| Backup.OwnBackup | backend/src/api/settings.rs:327-392 | importing a database's own export: when it goes through, that groups, settings and certificates (keys decrypted) are the same, and that rule configurations are the same if and only if every rule has the fields import insists on |
| Backup.RulesRoundTrip | backend/src/api/settings.rs:482-512 | the round trip of rules, with its exact condition |
| Backup.UnnamedRuleIsLost | backend/src/api/settings.rs:484-493 | a table whose only rule has no name is empty after importing its own export |
| Backup.CertsRoundTrip | backend/src/ssl.rs:587-612 | writing back exported certificates gives the same rows with keys that decrypt alike |
| Backup.RestoreElsewhere | backend/src/api/settings.rs:420-533 | restored into any other database, under another secret, every complete group and certificate of the source is there with the key it had |
| Backup.SecretSettingTravels | backend/src/state.rs:122-137 | with authenticated encryption, a travelling secret setting can be read in the new database if and only if that has the same secret; otherwise reading it fails |
| Backup.SecretSettingExactly | backend/src/state.rs:122-137 | a value is decrypted, with the secret stored beside it, if and only if it begins with enc:, and what is written comes back |
| Backup.SettingTravels | backend/src/api/settings.rs:382-388 | setting by setting, for every key: it arrives as stored exactly when the source has it and it is neither held back nor skipped, and is what it was or still missing otherwise; the secret stays that of the new database |
| Backup.SkippedSettings | backend/src/api/settings.rs:335-340 | the settings that export writes and import skips are exactly setup_complete and the Aliyun access key secret |
| Backup.AccountUnreadable | backend/src/api/settings.rs:335-388 | a restore after which the ACME credentials are there and cannot be read |
| Acme.Issuer.Authorize | backend/src/ssl.rs:432-484 | one authorization: the events it leaves and when it passes, for both versions |
| Acme.AuthorizationExactly | backend/src/ssl.rs:264-299 | one authorization by what the other side answers: no record without DNS-01 and a create that went through; the record under the name without its star; left behind by a request error; otherwise deleted, by a failed renewal under the name with its star; passed exactly when Valid is the first settled answer within 120 or 30 |
| Acme.Issuer.AuthorizeAll | backend/src/ssl.rs:260-300 | the loop over authorizations stops at the first that does not pass |
| Acme.Issuer.WaitForOrder | backend/src/ssl.rs:486-495 | the wait for the order, over any script of answers |
| Acme.Issuer.IssueCertificate | backend/src/ssl.rs:372-542 | a whole issuance: its trace, its outcome, and the certificate table: after an Ok run the first domain's row holds the certificate issued and the key encrypted in that run, its expiry and source, under the old id if there was one; otherwise, and for all other domains, nothing changes |
| Acme.PollExact | backend/src/ssl.rs:461-481 | the first settled answer within the limit decides; only silence to the end is a timeout |
| Acme.PollSucceeds | backend/src/ssl.rs:286-298 | at most 120 or 30 status requests, and success exactly when a Valid comes within them with nothing worse before |
| Acme.TxtLedger | backend/src/ssl.rs:259-300 | whatever is answered, deletes included: a record is created only when every earlier one has had its delete, every delete names the one that has not, and what is left at the end is exactly the record whose run a request error ended and those whose delete had no effect |
| Acme.RecordsPileUp | backend/src/ssl.rs:472-483 | deletes without effect leave the record of every authorization while the run issues its certificate |
| Acme.DeleteSearchesOtherZone | backend/src/ssl.rs:280-299 | given that the create found a zone at Cloudflare, the delete looks in another one if and only if the renewal loop has failed to validate a wildcard whose bare name is a zone itself |
| Acme.WildcardRecordStays | backend/src/ssl.rs:286-294 | in every run in which that happens, the record is left |
| Acme.WildcardDeleteMisses | backend/src/ddns/providers/cloudflare.rs:440-503 | such a run, for any zone below another: created in the parent, looked for in the child |
| Acme.AllValidSeen | backend/src/ssl.rs:432-484 | when all authorizations passed, each was seen Valid |
| Acme.OrderWasReady | backend/src/ssl.rs:486-495 | the order wait ends well exactly when Ready comes with nothing settled before |
| Acme.NeverFinalizedEarly | backend/src/ssl.rs:486-516 | no CSR is submitted before every authorization was seen Valid and the order Ready |
| Acme.IssuedExactly | backend/src/ssl.rs:432-541 | when a run ends Ok, if and only if, how its trace then ends, and that exactly the records whose delete had no effect are left |
| Acme.EndingsExactly | backend/src/ssl.rs:302-326 | the other endings: only the renewal loop panics, and exactly on an empty list of domains for which a certificate came; exactly when a CSR is submitted; exactly when the wait goes on |
| Acme.RenewalKeepsBinding | backend/src/ssl.rs:523-530 | storing a first or a renewed certificate: whatever is bound to the row's id gets the new certificate under its own key and no other pair; a renewed row keeps its id, ids stay unique, other rows are untouched |
| Jobs.EveryLineOnce | backend/src/api/settings.rs:764-772 | in every interleaving, the batches polled, then the buffer, then what is still to be appended, are the lines logged, each once and in order |
| Jobs.AnsweredInOrder | backend/src/ssl_worker.rs:69-84 | requests are answered in the order of submission, none skipped or repeated |
| Jobs.StatusIsFinal | backend/src/api/settings.rs:724-750 | a status that is not running any more never changes |
| Jobs.NoJobForgotten | backend/src/api/settings.rs:724-750 | once nothing is with the worker or undelivered, every job sent has an outcome, and completed ones were answered |
| Jobs.CompletedExactly | backend/src/api/settings.rs:724-750 | in every run, once the worker has a job behind it and the outcome is recorded, the job is completed if and only if the worker answered yes, and failed otherwise |
| Jobs.LogComplete | backend/src/ssl.rs:383-397 | once the worker has a job behind it, what polls return and the buffer holds is its whole log if and only if no append was left over then, or the worker took another request and all of them ran; until it does, exactly those lines are missing |
| Jobs.NoTakeNoRun | backend/src/ssl_worker.rs:69-84 | while the idle worker takes no request, no append runs |
| Jobs.LastLineCanLag | backend/src/ssl.rs:383-397 | from any idle state, a run after which a job is completed while its last line is out of reach |
| Jobs.JobBoard.Enter | backend/src/api/settings.rs:688-702 | registering a job and its buffer is that step of the machine |
| Jobs.JobBoard.Append | backend/src/ssl.rs:390-397 | an append to the buffer is that step |
| Jobs.JobBoard.Status | backend/src/api/settings.rs:756-782 | a poll hands out the whole buffer once and leaves an empty one, or finds no job and changes nothing |
| Jobs.JobBoard.Record | backend/src/api/settings.rs:724-750 | recording the worker's answer is that step |
| Jobs.Serve | backend/src/ssl_worker.rs:69-84 | the worker's loop answers each request once, in order |
| Jobs.ProgramsAreOrderly | backend/src/api/settings.rs:688-771 | every party takes its locks in the order jobs, logs, buffer and gives them back |
| Jobs.HeldTogether | backend/src/api/settings.rs:688-771 | what each party holds at its innermost point: both tables to register, all three locks to hand out a log, the buffer alone to append, the job table alone to record |
| Jobs.DisciplineIsKept | backend/src/api/settings.rs:688-771 | any step and any newcomer keep that discipline |
| Jobs.NoDeadlock | backend/src/api/settings.rs:688-771 | with any number of parties, as long as one is unfinished, one can go on |
| Tunnel.BufReader.Serve | backend/src/proxy.rs:470-619 | where a connection goes, decided by the first byte for everything but TLS; a tunnel sends exactly the client's bytes, TLS and HTTP get all of them, and the redirect and a refused backend drop exactly what is buffered |
| Tunnel.FirstByteDecides | backend/src/proxy.rs:485-604 | for every chunking: a stream that opens with byte 22 is tunnelled by some server name's rule or terminated, never redirected; any other goes by the plain rule if there is one, else is redirected if and only if the port forces HTTPS |
| Tunnel.BufReader.CopyAll | backend/src/proxy.rs:503-515 | buffered bytes first, then the stream: everything once and in order, for every chunking |
| Tunnel.BufReader.TakePiece | backend/src/proxy.rs:589-597 | one round of the header loop: what is taken plus what is left is what there was |
| Tunnel.BufReader.CollectHeaders | backend/src/proxy.rs:587-597 | collected bytes followed by unread bytes are the stream, and what is left in the buffer is the rest of the read with the blank line |
| Tunnel.BufReader.FillBuf | backend/src/proxy.rs:485-490 | peeking takes nothing from the stream |
| Tunnel.HelloRouted | backend/src/proxy.rs:526-562 | a ClientHello whose name has a tunnel rule takes the tunnel if and only if the first read brings all of it; otherwise TLS is terminated |
| Tunnel.HelloWithoutRule | backend/src/proxy.rs:526-580 | a whole hello without such a rule goes to TLS termination |
| Tunnel.CollectedIsPrefix | backend/src/proxy.rs:587-597 | what is collected is a prefix of the stream, for every chunking, and all of it or one that ends in a blank line |
| Tunnel.BlankLineStops | backend/src/proxy.rs:587-597 | collection goes no further than the first blank line that arrives in one chunk |
| Tunnel.StopsAtHeaders | backend/src/proxy.rs:587-597 | collection stops right after the first blank line if and only if it arrives in one chunk or ends the stream |
| Tunnel.SplitTerminatorMissed | backend/src/proxy.rs:591-596 | a blank line split over two reads, and a byte of the body taken with it |
| Ddns.AliyunZone.Upsert | backend/src/ddns/providers/aliyun.rs:204-303 | the zone after a successful upsert, when it writes at all, and that a failed one has only moved matching records to the address |
| Ddns.UpsertConverges | backend/src/ddns/providers/aliyun.rs:220-300 | after success a matching record exists, all others are untouched, and every matching record carries the address if and only if none outside the first page differed |
| Ddns.VisibleMeans | backend/src/ddns/providers/aliyun.rs:220-243 | the records it gets to see are those of the name and type that the search finds with fewer than fifty others in front |
| Ddns.SecondUpsertIsSilent | backend/src/ddns/providers/aliyun.rs:220-300 | a second upsert writes nothing, unless the first had to create a record beyond a full page |
| Ddns.CrowdHidesRecord | backend/src/ddns/providers/aliyun.rs:220-245 | fifty other hits in front of a stale record: the upsert succeeds, creates a second record, leaves the stale one, and would create another next time |
| Ddns.DdnsManager.UpdateOne | backend/src/ddns/providers/cloudflare.rs:226-331 | one Cloudflare upsert: its outcome, the name's records after it, and the cached address stored when it went through |
| Ddns.CloudflareConverges | backend/src/ddns/providers/cloudflare.rs:279-328 | after an upsert only records that were due have changed, to the address; it ends Ok if and only if none is due any more and no create was refused; there is then no record exactly when a managed one was deleted |
| Ddns.MovedExactly | backend/src/ddns/providers/cloudflare.rs:305-325 | the update loop changes due records up to the first refusal and no others |
| Ddns.CreateExactly | backend/src/ddns/providers/cloudflare.rs:279-303 | one upsert in full for a name without records: created if and only if the settings know no address of it and Cloudflare confirms |
| Ddns.ChangeExactly | backend/src/ddns/providers/cloudflare.rs:305-328 | and for a name with records: each that has an id and another address gets the address, up to the first that is refused; Ok if and only if none is |
| Ddns.UnansweredExactly | backend/src/ddns/providers/cloudflare.rs:241-275 | a name in no zone is refused; a failed lookup passes for success and stores the address |
| Ddns.DdnsManager.UpdateAll | backend/src/ddns/mod.rs:97-108 | a pass over all names and addresses, ended by the first failure |
| Ddns.JobsExactly | backend/src/ddns/mod.rs:97-108 | what a pass sets out to do: every domain in order, A with the IPv4 if there is one, then AAAA with the IPv6 if it has a colon |
| Ddns.PassReachesAll | backend/src/ddns/mod.rs:97-108 | a pass in which nothing is refused carries all of it out and leaves each address in the settings |
| Ddns.NoZoneEndsPass | backend/src/ddns/mod.rs:97-108 | a name without a zone ends the pass |
| Ddns.CacheKeyInjective | backend/src/ddns/mod.rs:100-105 | every name and type has a cache key of its own |
| Ddns.CreatedAtMostOnce | backend/src/ddns/providers/cloudflare.rs:279-303 | over any run of passes, a record is created at most once per name and type, and never once managed |
| Ddns.CreatedExactly | backend/src/ddns/providers/cloudflare.rs:253-303 | over any run of passes, a name not yet managed is created by Cloudflare if and only if the first of its jobs that ended Ok found nothing and had its create confirmed, and is managed if and only if one ended Ok |
| Ddns.HistoryApplied | backend/src/ddns/mod.rs:97-108 | a run of passes comes to the jobs it carried out, one after the other |
| Ddns.FailedLookupBlocksCreation | backend/src/ddns/providers/cloudflare.rs:253-275 | over any run of passes, a name with no record, not yet managed, gets one if and only if a lookup that finds nothing with a confirmed create comes before any failed lookup of it |
| Expiry.KeptExactly | backend/src/ssl.rs:97 | the text comparison holds if and only if the expiry's date is today or later |
| Expiry.ExpiryByText | backend/src/api/auth.rs:124-176 | nothing is dropped before it expires, and what has expired is kept exactly to the end of that UTC day |
| Expiry.DateOrder | backend/src/ssl.rs:97 | comparing dates by field is comparing days of the calendar, leap years included |
| Expiry.BelowDate | backend/src/ssl.rs:320 | dates written as text compare as dates, then by what follows |
| Expiry.TextsExactly | backend/src/api/auth.rs:124 | both formats read back to the moment, field by field, with the marks between them |
| ZoneSearch.ResolveDomainName | backend/src/ddns/providers/aliyun.rs:164-199 | the loop over suffixes returns the specified zone and host part |
| ZoneSearch.LongestZone | backend/src/ddns/providers/aliyun.rs:164-199 | the longest existing suffix of two labels or more, rebuilding the name with its host part; no zone exactly when there is none, an error exactly when one came first |
| ZoneSearch.HostAndZone | backend/src/ddns/providers/aliyun.rs:171-176 | host part, dot and zone make the name again |
| ZoneSearch.FindTxtZone | backend/src/ddns/providers/cloudflare.rs:440-458 | the loop that both creating and deleting a challenge record start with, so both pick one zone |
| ZoneSearch.TxtZoneFirst | backend/src/ddns/providers/cloudflare.rs:440-458 | its result, for any replies, by the first that does not say "no zone": failed and unreadable ones are errors, and a zone without an id ends the search |
| ZoneSearch.FindRecordZone | backend/src/ddns/providers/cloudflare.rs:32-75 | the lookup that record updates use |
| ZoneSearch.RecordZoneFirst | backend/src/ddns/providers/cloudflare.rs:32-75 | its result, for any replies: unreadable ones and zones without an id are passed over, and the last label is never asked about |
| ZoneSearch.TxtZoneAgrees | backend/src/ddns/providers/cloudflare.rs:440-455 | both lookups agree on a name if and only if it is not a zone itself and its last label is not its only zone |
| ZoneSearch.ApexHasNoTxtZone | backend/src/ddns/providers/cloudflare.rs:442 | for a zone's own name records are found and challenge records are not |
| ZoneSearch.WildcardTxtZone | backend/src/ddns/providers/cloudflare.rs:440-443 | the challenge search of a wildcard starts at the name below the star |
| ZoneSearch.WildcardZoneDiffers | backend/src/ddns/providers/cloudflare.rs:440-455 | where the search for a name finds a zone, that for its wildcard finds another if and only if the name is a zone itself |
| TokenRefresh.ApiClient.ProcessQueue | frontend/src/api/client.js:12-15 | everyone in the queue is settled with the outcome, in order, and the queue is empty |
| TokenRefresh.ApiClient.OnUnauthorized | frontend/src/api/client.js:22-38 | queue behind the refresh that is out, or start one |
| TokenRefresh.ApiClient.OnRefreshed | frontend/src/api/client.js:38-52 | the outcome settles the queue and lowers the flag |
| TokenRefresh.SingleFlight | frontend/src/api/client.js:9-55 | over every run: at most one refresh out, no queue without one, every waiter settled once, in order, with the outcome of the refresh it joined |
| TokenRefresh.WaitersGetOutcome | frontend/src/api/client.js:9-52 | over every run: whoever joined the n-th refresh and was settled got what the n-th refresh call that came back brought, the token of a success or the error of a failure |
| TokenRefresh.OutcomeSettlesQueue | frontend/src/api/client.js:38-52 | a token that comes back goes to everyone in the queue, and so does an error |
| TokenRefresh.SettledExactly | frontend/src/api/client.js:22-38 | everyone is settled in the end if and only if no refresh call got a 401; after one, nothing settles those who wait |
| TokenRefresh.RefusedRefreshSticks | frontend/src/api/client.js:22-38 | one request and a refused refresh call after which the client waits for itself, whatever follows |
| TokenRefresh.StuckForever | frontend/src/api/client.js:23-32 | from then on no run lowers the flag or settles anyone |
| RefreshRotation.RefreshTokens.LogIn | backend/src/api/auth.rs:107-135 | a row is added exactly for a verified user, under the password it was checked against |
| RefreshRotation.RefreshTokens.Refresh | backend/src/api/auth.rs:163-203 | accepted if and only if the token has a row that expires today or later; that row makes way for one of the same user with the new token, or nothing changes |
| RefreshRotation.RefreshTokens.LogOut | backend/src/api/auth.rs:226-237 | exactly the rows of that token go |
| RefreshRotation.RefreshTokens.ChangePassword | backend/src/api/auth.rs:249-283 | exactly the rows of that user go, if the current password was right |
| RefreshRotation.LogoutIsFinal | backend/src/api/auth.rs:230-236 | in every interleaving, a token is never accepted after a logout with it |
| RefreshRotation.LogoutEndsSession | backend/src/api/auth.rs:230-236 | from a logout on, in every run, no session goes back to its token, if and only if no row but its own already did and no refresh of such a session was under way |
| RefreshRotation.LogoutOfCurrent | backend/src/api/auth.rs:172-236 | in a reachable state where the token has its row, that is if and only if no refresh has looked the row up and not yet deleted it |
| RefreshRotation.RefreshOutlivesLogout | backend/src/api/auth.rs:183-203 | a refresh of the session under way gives it a new token in at most two statements |
| RefreshRotation.PasswordChangeIsFinal | backend/src/api/auth.rs:277-280 | nor is any token issued to a user before that user's password change |
| RefreshRotation.GoneForGood | backend/src/api/auth.rs:172-203 | an issued token without a row never comes back |
| RefreshRotation.AcceptedAtMostOnce | backend/src/api/auth.rs:172-203 | every token is accepted at most once in a run if and only if no successful lookup falls between another request's lookup of its row and the delete |
| RefreshRotation.OneAtATimeNeverOverlaps | backend/src/api/auth.rs:172-186 | requests handled one at a time are such runs |
| RefreshRotation.OverlapAcceptsTwice | backend/src/api/auth.rs:175-186 | two overlapping refreshes of one token are both accepted and one session becomes two |
| RefreshRotation.RefreshKeepsCount | backend/src/api/auth.rs:183-203 | an uninterrupted refresh is one replacement and keeps the number of rows |
| RefreshRotation.StatementsExactly | backend/src/api/auth.rs:97-280 | each statement of the machine, told of the rows that go, stay and come; a lookup lets a token pass if and only if it has a row that expires today or later |
| RefreshRotation.PasswordChangeEndsSessions | backend/src/api/auth.rs:269-280 | from the delete of a password change on, in every run, every session of the user began with a login checked after the change, if and only if no login or refresh that goes back to before it was under way |
| RefreshRotation.OutlivesPasswordChange | backend/src/api/auth.rs:107-203 | any login or refresh under way that goes back to before the change gives the user a session of that age in at most two statements |
| RefreshRotation.LoginOutlivesPasswordChange | backend/src/api/auth.rs:97-135 | a run from the start without any refresh: password checked, password changed and sessions deleted, session stored |

## Left out

- Sockets, TLS handshakes, HTTP parsing and upstream connections: foreign code; binding and connecting are answers of the environment.
- Cryptography, PEM and X.509 parsing, base64, JWT: parameters of the lemmas.
- SQL errors: queries succeed, except the engine's query, which the reload branches on, and the constraint and secret failures of import.
- NULL identifiers, which the code reads as empty strings, appear as empty strings.
- Lower-casing beyond ASCII: names are lower-cased letter by letter in the ASCII range.
- Sorting in place: the two stable sorts are functions of the list, with their permutation and order proved; aliasing is not captured.
- Listeners that fail to bind after a reload, as the second of two groups on one port does: the listener is in the engine's table either way.
- ListenerReload.PortsStayDistinct: not for backup imports, which check no port at all, and with ids of new groups that are new.
- Handler cancellation, mutex poisoning and crashes between two statements: handlers run to completion; the worker thread may die.
- Interleaved protocols are state machines on values; the classes beside them carry the same operations uninterrupted.
- Futures spawned to append log lines are taken to run in the order they were spawned, as the worker's single-threaded runtime polls them.
- RefreshRotation: the row's fields `since` and `line` and the password versions are history, not columns; a request that is turned away is no step.
- Acme.IssuedExactly: the unbounded wait for the order ends within the script or is reported as still waiting, because it depends on the authority alone.
- Acme.Issuer.IssueCertificate: opening the account, provider and order is one answer, and so are key and CSR generation, because they branch no further.
- Tunnel.BufReader.Serve: the 300-second limit, I/O errors in mid-stream and the backend's bytes to the client are not modelled.
- Ddns.DdnsManager.UpdateOne: records are those the lookup lists, at most fifty of one name and type; a create counts when Cloudflare confirms it.
- Ddns.AliyunZone.Upsert: how the provider's keyword search matches is a parameter; only its first page is requested, as in the code.
- ZoneSearch.FindRecordZone: the lookup is for one name, because the record upsert never passes more.
- TokenRefresh.ApiClient.OnUnauthorized: what a settled waiter's retry does is a new event; the rejection handler at frontend/src/api/client.js:31 is not modelled.
- Backup: the version and timestamp fields, and columns the export does not carry (time stamps, health status).
- Record deletion, zone listing, challenge clean-up, IP detection, header filtering, password rules, health checks, logs, metrics, self-update and the user interface: easy members or I/O.

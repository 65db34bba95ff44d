# Delivery platform: a verified model

The platform turns an operator's order into a delivery (a CloudFormation template or an appliance ISO, a
zip, a portal page, one mail) and sets the appliance up through a wizard of twenty pages. These Dafny files
model the parts of it that carry state or arithmetic, and prove what they promise.

- `DnsForm`, `DnsProtocol`, `DnsClient`: upserts of DNS records through an API that can only replace a whole
  zone. The numbered form the records travel in, any interleaving of any number of calls with lost and failed
  requests, and one call in place.
- `SecretsEnv`, `Percent`, `WizardSteps`, `WizardState`, `WizardInvariant`, `WizardOutcomes`, `WizardServices`,
  `HttpsRetry`: the wizard as one state machine over `secrets.env`, the broker's account file, the done markers,
  Neo4j's password, two TLS directories and sshd. Each page's apply is an atomic step; what the system commands
  answer is nondeterministic. `WizardOutcomes` says what each apply leaves, as read from the box;
  `WizardServices` holds the page services as classes that change that state in place, each proved to take
  exactly its step.
- `RateLimit`: the sliding window of accepted orders, as pruned deques against the full history.
- `UniquePath`, `Manifest`, `Bundle`: naming without collisions, grouping files into rows, codes and totals, the zip.
- `Orchestrator`, `OrderBucket`, `OrderManifest`, `OrderRun`, `OrderExamples`: an order's run with a fault possible
  at every call. The pipeline is a list of calls; playing it against any faults yields a log of what took effect.
  `OrderRun` holds the orchestrator's own methods, proved to play exactly that list; `OrderManifest` ties the run to
  the manifest and the zip it uploads; `OrderExamples` has runs of concrete orders.
- `Credentials`, `PlaceholderPasswords`, `BrokerLogins`, `HbaRules`, `SiteIdentity`, `Ndjson`, `PageStreams`,
  `AnalystProgress`: filling the broker's template and its agreement with `secrets.env`, the pg_hba check, site names
  and DNS labels, the browser's stream readers and the pages that feed them, progress read from a log.
- `Text`, `Decimal`, `Wrappers`: the Python string and number operations all of them use.

`dafny verify dfyconfig.toml` checks everything.

Where a promise turned out not to hold for every input, the model keeps the code as it is, shows an input that
breaks it, and proves exactly when it holds:

- A value with a line break does not read back from `secrets.env`, and the page's own check passes all the same
  (`SecretsEnv.ReadsBackIffBreakFree`, `SecretsEnv.BrokenValueExample`). A name then reads its own value's first line
  exactly when no earlier value overrides it (`SecretsEnv.ReadsFirstLineIff`), which decides when one role has one
  password (`WizardInvariant.RolesShareTheirPassword`): a service password the policy accepts can leave two service
  accounts with different ones (`BrokerLogins.ServiceAccountsPartExample`).
- After an HTTPS install whose probes fail the pending key is gone: every retry raises, whatever certificate is sent,
  until a new signing request (`HttpsRetry.ApplyWorksIff`, `HttpsRetry.StuckAfterFailedProbes`).
- The advertised wait of the rate limiter is rounded half to even, so it can be up to half a second short
  (`RateLimit.RetryAloneIsEnoughIff`, `RateLimit.RetryCanBeTooShort`).
- Counting a netmask's bits gives the rule's network only for contiguous masks (`HbaRules.CountingIsRightIff`). A rule
  that passes the check may let in more than it was read as (`HbaRules.AdmitsAsReadIff`, `HbaRules.StrayMaskPasses`).
- The two stream readers part on a line of white space (`Ndjson.ReadersAgreeIff`, `Ndjson.ReadersPartExample`). When a
  stream ends early but cleanly, the Ollama page reports it and the analyst page goes on applying
  (`PageStreams.AnalystPageSettlesIff`, `PageStreams.AnalystHangsExample`). A connection that is cut
  makes either page show an error.
- An order can be FAILED although its ready mail went out (`Orchestrator.FailedYetReadyIff`,
  `Orchestrator.FailedYetReadyExample`), can stay RUNNING for good (`Orchestrator.LeftRunningIff`,
  `OrderExamples.LeftRunningExample`), and fails without a word when its payload no longer validates
  (`Orchestrator.FailureMailIff`, `OrderExamples.SilentFailureExample`).
- An archived file called `manifest.json`, `index.html`, `arcnode.zip` or like the template or the ISO is
  overwritten by the delivery (`OrderBucket.ArchivedSurvivesIff`, `OrderExamples.OverwrittenExample`); the template
  and the ISO use `dtm.json` whatever the archived topology is called (`OrderBucket.DtmKeyHoldsDtmIff`,
  `OrderExamples.MissingDtmExample`).
- A stage goes back from importing to downloading when its download percentage falls below 100 again
  (`AnalystProgress.PhaseGoesBackIff`, `AnalystProgress.RestartGoesBack`). The status raises when the first and the
  newest reading of an unfinished seed share a time stamp and the percentage rose between them
  (`AnalystProgress.StageRaisesIff`, `AnalystProgress.EqualStampsRaise`); the streamed start then ends without a
  verdict (`WizardServices.Machine.StartStream`).
- Two file URLs that both end in "/" make archiving raise (`UniquePath.ArchiveFailsIff`,
  `UniquePath.ArchiveFailsExample`).
- A broker password that holds a later account's placeholder is rewritten with that account's password
  (`PlaceholderPasswords.SequentialIsSimultaneousIff`, `PlaceholderPasswords.SurvivesIff`), so the accounts' order matters
  and the cloud and the wizard may write different files (`PlaceholderPasswords.CloudAndOnPremAgreeIff`,
  `PlaceholderPasswords.OrdersPart`).
- The slug of the portal page and the slug of the site part on any alphanumeric character outside [a-z0-9] that
  the lower-cased name has (`SiteIdentity.SlugsAgreeIff`, `SiteIdentity.AccentedLetterParts`).
- The comment in `src/wizard/hivemq_service.py:28` and the docstring of `src/wizard/hivemq_credentials.py` say the
  cloud fills the template with sed; the code runs the same escape and replace in Python, and that is modelled.

## Model

| member | source | states |
|---|---|---|
| DnsForm.FieldInjective | src/dns/dns_client.py:89-94 | fields of different families or numbers never coincide (HostName1 with 1 is not HostName11) |
| DnsForm.FieldIsNotFixed | src/dns/dns_client.py:88-97 | no numbered field collides with SLD, TLD or EmailType |
| DnsForm.SetRecordsForm | src/dns/dns_client.py:87-98 | the loop that fills the dict builds exactly the encoded form |
| DnsForm.EncodeHolds | src/dns/dns_client.py:87-98 | every record has HostName{n}, RecordType{n}, Address{n}, MXPref{n} and TTL{n} under its number from 1, and no HostName follows the last |
| DnsForm.DecodeEncode | src/dns/dns_client.py:87-98 | counting up while HostName{n} is present returns exactly the encoded records, for every list |
| DnsForm.EmailTypeIffMx | src/dns/dns_client.py:95-97 | EmailType is in the form exactly when some record is MX; SLD and TLD survive the loop |
| DnsForm.SplitDomainIff | src/dns/dns_client.py:112-116 | the domain is split at its first dot |
| DnsProtocol.RunInv | src/dns/dns_client.py:78-85 | every reachable state of every interleaving keeps the lock, order, read and zone invariants |
| DnsProtocol.ZoneIsFoldInLockOrder | src/dns/dns_client.py:78-85 | every readable zone is the sequential fold of the applied upserts in lock order |
| DnsProtocol.UnreadableZoneIsUntouched | src/dns/dns_client.py:66-76 | a zone with a host the client cannot represent is never overwritten |
| DnsProtocol.OneWriterAtATime | src/dns/dns_client.py:60-62 | at most one call is between its read and its write |
| DnsProtocol.AppliedAreTheReturned | src/dns/dns_client.py:80-85 | without lost replies exactly the calls that returned were applied |
| DnsProtocol.UpsertHolds | src/dns/dns_client.py:82-85 | after an upsert the zone holds the new record, and of the old ones exactly those of another host or another type |
| DnsProtocol.KeptAreTheOthers | src/dns/dns_client.py:82-85 | the records before it are the old ones of other hosts or types, in their order |
| DnsProtocol.CallCanComplete | src/dns/dns_client.py:78-85 | whenever the lock is free a waiting call whose zone can be read may run to its return, leaving the zone it read with its record put in |
| DnsProtocol.HolderMayFail | src/dns/dns_client.py:78-85 | the lock's holder may fail at its read and at its write, with or without an effect |
| DnsProtocol.RunBegins | src/dns/dns_client.py:60-62 | a run may begin, with no call started, nothing locked and the zones as they are |
| DnsProtocol.UntouchedRecordsStay | src/dns/dns_client.py:82-85 | records no upsert names keep their values and relative order |
| DnsProtocol.LastUpsertWins | src/dns/dns_client.py:82-85 | per host and type the zone holds exactly the last upsert's record, or what it held there before |
| DnsProtocol.CompletedUpsertIsNotLost | src/dns/dns_client_test.py:196-244 | a returned upsert's host and type hold its record or that of a call that took the lock later |
| DnsClient.Client.ListRecords | src/dns/dns_client.py:64-76 | the zone's records, or the exception: exactly when the reply is lost, the domain or zone unknown, or a host unreadable |
| DnsClient.Client.SetRecords | src/dns/dns_client.py:87-98 | the server's zone becomes exactly the records sent; a refused write changes nothing |
| DnsClient.Client.UpsertRecord | src/dns/dns_client.py:78-85 | one call: the zone keeps, in order, its records of another host or type and gets the new one last; the exact failures, other zones untouched, the lock always released |
| SecretsEnv.SecretsFile.SaveSecrets | src/wizard/secrets_env.py:9-22 | the file's new text is Saved of the old one; only root reads it afterwards |
| SecretsEnv.SecretsFile.ReadSecret | src/wizard/secrets_env.py:25-33 | the scan returns the first line's value of the name, or None |
| SecretsEnv.ReadsBackIffBreakFree | src/wizard/secrets_env.py:9-33 | every saved name reads back as its value exactly when no value has a line break |
| SecretsEnv.OtherNameReadsIff | src/wizard/secrets_env.py:9-33 | whatever the values, a name that is not saved reads as before exactly when it had a line or no value speaks for it |
| SecretsEnv.OtherNamesUnchanged | src/wizard/secrets_env.py:9-33 | with break-free values every other name, present or not, reads as before |
| SecretsEnv.PresentNamesSurvive | src/wizard/secrets_env.py:9-33 | a present name that is not saved reads as before, whatever the values |
| SecretsEnv.SavedNameReadsFresh | src/wizard/secrets_env.py:13-22 | a saved name is read from the appended lines only: its older lines are gone |
| SecretsEnv.SavedNameReadsExactly | src/wizard/secrets_env.py:9-33 | whatever the values, a saved name reads what the first entry that says anything about it says, its own or an earlier one |
| SecretsEnv.EntryWithBreakSays | src/wizard/secrets_env.py:9-33 | a value whose second line reads like another name's speaks for both names |
| SecretsEnv.ReadsFirstLineIff | src/wizard/secrets_env.py:9-33 | a saved name reads its own value's first line exactly when no earlier value speaks for it with another text |
| SecretsEnv.BreakFreeNeverOverrides | src/wizard/secrets_env.py:9-33 | values without line breaks never speak for another name |
| SecretsEnv.OtherLinesKeepTheirOrder | src/wizard/secrets_env.py:13-22 | the lines of other names stay, in their order |
| SecretsEnv.SavedNamesHaveOneLine | src/wizard/secrets_env.py:13-22 | duplicates of a saved name collapse to one line |
| SecretsEnv.SavingTwiceIsSavingOnce | src/wizard/secrets_env.py:9-22 | saving the same values again leaves the same text |
| SecretsEnv.SavingNothingAddsABlankLine | src/wizard/secrets_env.py:9-22 | saving no values into no file leaves a blank line, so the laws ask for at least one value |
| SecretsEnv.SavedCheckAlwaysPasses | src/wizard/secrets_env.py:36-56 | right after a save the check passes for its names, line breaks or not |
| SecretsEnv.BrokenValueExample | src/wizard/secrets_env.py:9-56 | a value with a line break: the check passes and the read returns something else |
| Percent.UnquoteQuote | src/wizard/neo4j_service.py:112-113 | unquote undoes quote for every password |
| Percent.GraphUrlRoundTrip | src/wizard/neo4j_service.py:63-64 | the password read back from a built GRAPH_URL is the one it was built with |
| Percent.UserinfoIsRead | src/wizard/neo4j_service.py:107-110 | a URL's password is what stands between the user's colon and the host's "@" of its authority, whatever the path holds |
| Percent.UnreservedAre | src/wizard/neo4j_service.py:63-64 | the characters quote leaves alone |
| Percent.CypherLiteralRoundTrip | src/wizard/neo4j_service.py:126-128 | Cypher reads back exactly the password, then the rest of the script |
| WizardSteps.EveryStepIsListed | src/wizard/wizard_steps.py:11-38 | every page is in the install order |
| WizardSteps.StepTracker.MarkDone | src/wizard/wizard_steps.py:57-60 | exactly this page joins the done ones |
| WizardSteps.StepTracker.Completed | src/wizard/wizard_steps.py:62-64 | the done pages, each of them, in page order |
| WizardSteps.StepTracker.AllDone | src/wizard/wizard_steps.py:66-68 | finished exactly when every page is done |
| WizardInvariant.PagesShareNoName | src/wizard/hivemq_service.py:85-94 | no two pages save the same name |
| WizardInvariant.NextKeepsInv | src/wizard/wizard_steps.py:46-60 | every action of every page keeps the wizard's invariant |
| WizardInvariant.RunKeepsInv | src/wizard/wizard_steps.py:46-68 | every reachable state satisfies it, whatever the order, retries, skips and failures |
| WizardInvariant.DoneOnlyGrows | src/wizard/wizard_steps.py:53-60 | an action unmarks no page and touches no other page's marker or saved values |
| WizardInvariant.DonePagesKeepTheirSecrets | src/wizard/hivemq_service.py:52-69 | a page marked done by its apply still has all its names, holding its last values exactly when they are break-free |
| WizardInvariant.UrlsAlwaysReadBack | src/wizard/postgres_service.py:125-132 | the database URLs read back as saved for every password |
| WizardInvariant.RolesShareTheirPassword | src/wizard/hivemq_service.py:85-94 | in every reachable state the four service names read one password exactly when no submitted password's later line overrides one of the last three; the operator's two names, and the viewer's, exactly when both are overridden alike or neither is |
| WizardInvariant.BreakFreeRolesShare | src/wizard/hivemq_service.py:85-94 | with passwords free of line breaks every role has one password |
| WizardInvariant.ServiceAccountsPart | src/wizard/hivemq_service.py:85-94 | a service password whose second line names another account: the page is done and the two accounts read different passwords |
| WizardInvariant.SavedUrlDecodes | src/wizard/neo4j_service.py:63-64 | after a save the file's URL decodes to the password it was built with |
| WizardInvariant.RetryTriesTheRightPassword | src/wizard/neo4j_service.py:104-123 | the server's own password is among those a retry tries |
| WizardInvariant.Neo4jPasswordIsNeverLost | src/wizard/neo4j_service.py:53-71 | the server's password is always the default or the saved URL's, and the URL's once the page is done |
| WizardOutcomes.Neo4jRetryCompletes | src/wizard/neo4j_service.py:53-123 | in every reachable state an open page can be completed: the server's password has its turn, and if it is willing then, the new one is set and saved, and the probes decide |
| WizardOutcomes.Neo4jKeepsOtherwise | src/wizard/neo4j_service.py:53-71 | otherwise nothing is set or saved, and the page is done only when the server already had the password, its URL is there and the probes pass |
| WizardInvariant.CertificatesMatchTheirKeys | src/wizard/https_service.py:67-104 | in both directories every certificate belongs to the key beside it |
| WizardInvariant.CustomerCertificateStays | src/wizard/der_control_ingress.py:33-46 | after an HTTPS install only a later install changes the certificate either directory holds |
| WizardInvariant.NoLockoutBeforeTheKey | src/wizard/ssh_lockdown_service.py:52-75 | password logins are off, or the page done, only after the SSH key page |
| WizardOutcomes.PasswordsOffIff | src/wizard/ssh_lockdown_service.py:52-75 | in every reachable state password logins are off exactly when some apply asked for it with the key proven and the page open; the page is done exactly when such an apply kept passwords, or turned them off and sshd said so |
| WizardOutcomes.HivemqOutcome | src/wizard/hivemq_verify.py:26-51 | which of the eight names reads which of the three passwords after an apply; done exactly when the probes pass |
| WizardOutcomes.PostgresOutcome | src/wizard/postgres_service.py:125-132 | each database's name reads its URL at the gateway; without a Docker network nothing changes |
| WizardOutcomes.PostgresUrlDecodes | src/wizard/postgres_service.py:125-132 | every database URL decodes to the password, whatever the database is called |
| WizardOutcomes.DeviceApiOutcome | src/wizard/device_api_verify.py:22-26 | the key is saved; done exactly when the probes pass and both HMI logins are already there |
| WizardOutcomes.GrafanaOutcome | src/wizard/grafana_service.py:50-69 | the admin password is saved; done exactly when the probes pass |
| WizardOutcomes.AnalystServerOutcome | src/wizard/analyst_server_service.py:57-79 | each key is saved under its own name; done exactly when the probes pass |
| WizardOutcomes.DerControlOutcome | src/wizard/der_control_ingress.py:26-46 | the allowlist; a certificate only where there is none; a truststore that trusts the utility's CA, or nobody without one |
| WizardOutcomes.HttpsOutcome | src/wizard/https_service.py:67-104 | installed exactly when host and key are pending, the name fits and the certificate is the key's; done exactly when the probes pass too |
| WizardOutcomes.LeafIsFirstBlock | src/wizard/https_service.py:222-225 | the leaf is the chain up to its first end line, without white space around it |
| WizardOutcomes.RequestOutcome | src/wizard/https_service.py:53-65 | a signing request changes the pending key and host only, each exactly when its command got so far |
| WizardOutcomes.SkipOutcome | src/wizard/https_service.py:106-119 | a skip marks its page and changes nothing else |
| WizardOutcomes.OtherOutcome | src/wizard/wizard_steps.py:53-60 | every other page is done exactly when its probes passed, now or before |
| WizardOutcomes.DonePagesRefuse | src/wizard/wizard_steps.py:46-60 | a done page changes nothing, whatever it is sent |
| WizardServices.Machine.constructor | src/wizard/wizard_steps.py:49-51 | a fresh box |
| WizardServices.Machine.Save | src/wizard/secrets_env.py:9-22 | a page's save is the save step of the state machine |
| WizardServices.Machine.SavedCheckOf | src/wizard/secrets_env.py:36-56 | the check's loop is the predicate |
| WizardServices.Machine.MarkWhen | src/wizard/hivemq_service.py:66-69 | the marker is written exactly when every check passed |
| WizardServices.Machine.ApplySecrets | src/wizard/device_api_service.py:36-48 | refuse, save, verify, mark: the page's step, and what its answer tells about the marker |
| WizardServices.Machine.Hivemq | src/wizard/hivemq_service.py:52-69 | the service takes exactly the page's step |
| WizardServices.Machine.Postgres | src/wizard/postgres_service.py:64-82 | the service takes exactly the page's step, also without a Docker network |
| WizardServices.Machine.DeviceApi | src/wizard/device_api_service.py:36-48 | the service takes exactly the page's step |
| WizardServices.Machine.Grafana | src/wizard/grafana_service.py:50-69 | the service takes exactly the page's step |
| WizardServices.Machine.AnalystServer | src/wizard/analyst_server_service.py:57-79 | the service takes exactly the page's step |
| WizardServices.Machine.StartStream | src/wizard/analyst_server_service.py:86-120 | the streamed start takes the same step; it refuses, or streams a stage update per poll, then one verdict, exactly when no polled log makes a stage raise; where one does the keys are saved and the page is not marked |
| WizardServices.Machine.OldPasswords | src/wizard/neo4j_service.py:107-110 | the default, then the saved URL's password when it differs |
| WizardServices.Machine.SetPassword | src/wizard/neo4j_service.py:104-123 | the loop changes the server's password exactly when some candidate is it and the server is willing at that candidate's turn |
| WizardServices.Machine.Neo4j | src/wizard/neo4j_service.py:53-71 | the service takes exactly the page's step |
| WizardServices.Machine.RequestCertificate | src/wizard/https_service.py:53-65 | a signing request's exact effect, failed or not |
| WizardServices.Machine.InstallEverywhere | src/wizard/https_service.py:155-169 | the loop puts chain and key into both directories and uses the pending key up |
| WizardServices.Machine.Https | src/wizard/https_service.py:67-104 | the service takes exactly the page's step |
| HttpsRetry.ApplyWorksIff | src/wizard/https_service.py:67-104 | some certificate can still be installed exactly when the page is not done, a host and a key are pending and a certificate matches that key |
| HttpsRetry.StuckWithoutKey | src/wizard/https_service.py:67-104 | without a pending key no run of applies installs anything or completes the page until a request makes a key; only a skip marks it |
| HttpsRetry.StuckAfterFailedProbes | src/wizard/https_service.py:67-104 | such a box: the certificate is installed, a probe failed, every retry fails whatever is sent |
| WizardServices.Machine.StartDerIngress | src/wizard/der_control_ingress.py:26-46 | a certificate only when there is none, the truststore always |
| WizardServices.Machine.DerControl | src/wizard/der_control_service.py:66-106 | the service takes exactly the page's step |
| WizardServices.Machine.SkipPage | src/wizard/https_service.py:106-119 | a skip marks the page and changes nothing else |
| WizardServices.Machine.Lockdown | src/wizard/ssh_lockdown_service.py:52-75 | the service takes exactly the page's step |
| RateLimit.OrderRateLimiter.Check | src/orders/order_rate_limit.py:36-48 | the deque's answer is the one the client's full history of accepted orders gives, and the deques stay consistent with it |
| RateLimit.OrderRateLimiter.PopExpired | src/orders/order_rate_limit.py:40-41 | the loop drops exactly the times that left the window at the front |
| RateLimit.StepKeepsConsistent | src/orders/order_rate_limit.py:36-48 | after any call every deque is sorted, holds at most `count` times and stands for its client's history |
| RateLimit.WindowHoldsAtMostCount | src/orders/order_rate_limit.py:36-48 | with a running clock any half-open window holds at most `count` accepted orders of a client |
| RateLimit.DecisionsDependOnAcceptedOnly | src/orders/order_rate_limit.py:36-48 | deleting refused calls and other clients' calls changes no remaining decision |
| RateLimit.AllowedIff | src/orders/order_rate_limit.py:36-48 | allowed exactly when fewer than `count` accepted orders are younger than the window; a refusal waits for the oldest of them |
| RateLimit.RetryIsNearTheTrueWait | src/orders/order_rate_limit.py:45-48 | the advertised wait is within half a second of the true one, or one second |
| RateLimit.RetryIsWithinTheWindow | src/orders/order_rate_limit.py:45-48 | 1 <= retry_after_s <= max(1, window) |
| RateLimit.AllowedAgainExactlyAfterTrueWait | src/orders/order_rate_limit.py:36-48 | with none accepted in between, a later call is allowed exactly when the unrounded wait is over |
| RateLimit.RetryPlusHalfIsEnough | src/orders/order_rate_limit.py:45-48 | half a second after the advertised wait the call is allowed |
| RateLimit.RetryAloneIsEnoughIff | src/orders/order_rate_limit.py:45-48 | the advertised wait alone suffices exactly when the true wait is at most 1, whole, or has a fraction above 1/2 or of 1/2 over an odd number |
| RateLimit.RetryCanBeTooShort | src/orders/order_rate_limit.py:45-48 | an input whose advertised wait is too short |
| UniquePath.NumberedInjective | src/bundle/bundle_service.py:61-65 | the numbered candidates of a path are pairwise distinct |
| UniquePath.FreeFromIsLeast | src/bundle/bundle_service.py:57-65 | the search ends after at most as many steps as paths are taken, at the least free number |
| UniquePath.NumberGoesBeforeSuffix | src/bundle/bundle_service.py:61-65 | base.ext is numbered base-n.ext |
| UniquePath.NumberGoesLast | src/bundle/bundle_service.py:61-65 | a name without a dot is numbered at its end |
| UniquePath.NumberGoesAfterBareDots | src/bundle/bundle_service.py:61-65 | so is a name whose one dot is its first or last character |
| UniquePath.NumberStaysInFolder | src/bundle/bundle_service.py:61-65 | in a folder of the zip only the name is numbered |
| UniquePath.FindUniquePath | src/bundle/bundle_service.py:57-65 | the while loop finds that path, which is free |
| UniquePath.PathsAreNamedAfter | src/bundle/bundle_service.py:57-65 | every path is the wanted one, or that one numbered from 2 on |
| UniquePath.SecondIsNumberedTwo | src/bundle/bundle_service.py:57-65 | the first clash gets -2 |
| UniquePath.FileNameIs | src/orchestrator/orchestrator_service.py:491-494 | a URL's file name is what follows its last "/" |
| UniquePath.UniquePathsDistinct | src/bundle/bundle_service.py:50-53 | naming a list yields one path each, pairwise distinct |
| UniquePath.DistinctPathsStay | src/bundle/bundle_service.py:57-60 | paths that do not clash keep their names |
| UniquePath.ArchiveKeys | src/orchestrator/orchestrator_service.py:483-495 | the loop names the URLs' files in order |
| UniquePath.ArchiveKeysDistinct | src/orchestrator/orchestrator_service.py:483-495 | one key per URL, pairwise distinct: archiving never overwrites an earlier file of the order |
| UniquePath.ArchiveFailsIff | src/orchestrator/orchestrator_service.py:483-495 | naming raises exactly when an empty or "." file name comes a second time |
| UniquePath.ArchiveFailsExample | src/orchestrator/orchestrator_service.py:483-495 | two URLs ending in "/" |
| Manifest.GroupByKind | src/manifest/manifest_service.py:82-87 | the dict holds each kind's files in order, the kinds in order of first appearance |
| Manifest.KindsInFirstOrder | src/manifest/manifest_service.py:82-89 | rows keep first-appearance order, one per kind |
| Manifest.MakeRows | src/manifest/manifest_service.py:89-109 | one new row per kind with metadata, in its section, with its files |
| Manifest.RowsConserveFiles | src/manifest/manifest_service.py:82-116 | under any weight the rows hold exactly the archived files whose kind has metadata |
| Manifest.RowsFitSection | src/manifest/manifest_service.py:82-109 | a section's rows are, kind by kind, the archived files of that kind in order, each with its upper-cased format, size and URL; every shown kind with a file has its row |
| Manifest.KindsWithRows | src/manifest/artifact_metadata.py:32-94 | which kinds have a row, and in which section |
| Manifest.StampSection | src/manifest/manifest_service.py:160-164 | every row object gets the code of its last place |
| Manifest.AssignCodes | src/manifest/manifest_service.py:148-164 | the three sections' codes; a later section wins |
| Manifest.CodeInjective | src/manifest/manifest_service.py:160-164 | codes of different places differ, across sections, cloud or not |
| Manifest.FirstCodes | src/manifest/manifest_service.py:148-164 | the sections' letters, and numbers counting from 1 |
| Manifest.CodesAreDistinct | src/manifest/manifest_service.py:148-164 | different rows of a built manifest carry different codes |
| Manifest.CodesFollowTheRows | src/manifest/manifest_service.py:148-164 | in a section without repeats the i-th row has the i-th code |
| Manifest.Build | src/manifest/manifest_service.py:47-134 | rows, codes and totals: the bytes and the count are the system files' plus those of the archived files with a row |
| Bundle.BundleFilesFor | src/bundle/bundle_service.py:41-54 | the nested loops: the manifest's URLs in order, each under its row's code by its file's name, or that path with a number where it clashed |
| Bundle.CodedBundles | src/bundle/bundle_service.py:41-54 | bundling a built manifest never raises |
| Bundle.BuildThenBundle | src/orchestrator/orchestrator_service.py:244-257 | the zip has exactly total_file_count entries, the same URLs in order, each at a distinct path; each URL as often as the system images and the archived files with a row have it |
| OrderManifest.BuildSystemArtifacts | src/orchestrator/orchestrator_service.py:271-355 | the ISO if there is one, the app, and for the cloud the template and the gateway with its checksum |
| OrderManifest.FileCountIsManifest | src/orchestrator/orchestrator_service.py:240-254 | what a run downloads for its zip is counted exactly by the manifest of its delivery and archived files |
| OrderManifest.HeadCallsAre | src/orchestrator/orchestrator_service.py:271-355 | one size is asked per system file that was not baked here |
| OrderManifest.BuildPortal | src/orchestrator/orchestrator_service.py:228-261 | from an order's archive and delivery: manifest total, zip entries and the run's downloads are one number, the total is their bytes, and the zip's URLs are exactly the system images' and the public ones of the archived files with a row |
| SiteIdentity.SlugIsJoin | src/orchestrator/orchestrator_service.py:464-480 | the substituted and stripped slug is the ASCII words joined by "_" |
| SiteIdentity.SlugCharsAre | src/orchestrator/orchestrator_service.py:432-432 | the characters a slug keeps |
| SiteIdentity.LowerAsciiIs | src/orchestrator/orchestrator_service.py:477-477 | lower case moves a capital as far from "a" as it was from "A", and leaves the rest of ASCII |
| SiteIdentity.SlugWhenAndHow | src/orchestrator/orchestrator_service.py:464-480 | it raises exactly without an ASCII letter or digit; otherwise the slug is well formed |
| SiteIdentity.SlugIsIdempotent | src/orchestrator/orchestrator_service.py:464-480 | the slug of a slug is itself |
| SiteIdentity.SlugsAgreeOnAscii | src/manifest/manifest_service.py:136-146 | on ASCII names the manifest's slug is the site slug with hyphens for underscores |
| SiteIdentity.SlugsAgreeIff | src/manifest/manifest_service.py:136-146 | the two slugs agree exactly when every alphanumeric character of the lower-cased name is in [a-z0-9] |
| SiteIdentity.AccentedLetterParts | src/manifest/manifest_service.py:136-146 | an accented letter tells them apart |
| SiteIdentity.HostLabelIsValid | src/dns/site_identity.py:18-22 | at most 63 characters of [a-z0-9-], alphanumeric ends, no double hyphen, ending in the order prefix |
| SiteIdentity.CutSlugKeeps | src/dns/site_identity.py:18-22 | of the hyphenated slug the label keeps all, or 56 characters, or 55 when the 56th would be a hyphen |
| SiteIdentity.LabelsMeetIff | src/dns/site_identity.py:18-22 | two labels are equal exactly when order prefix and cut slug are |
| Orchestrator.EffectsArePrefix | src/orchestrator/orchestrator_service.py:118-148 | however the calls fail, what took effect is a prefix of the plan, all of it on success |
| Orchestrator.SucceedsIff | src/orchestrator/orchestrator_service.py:118-148 | a script succeeds exactly when nothing in it raises by itself and every call returns |
| Orchestrator.StopsIff | src/orchestrator/orchestrator_service.py:118-228 | calls aside, the pipeline raises exactly on an invalid payload, a name clash, an unknown format, an empty slug, no DTM, or (ISO) no dtm.json; else its exact plan |
| Orchestrator.SetupComesFirst | src/orchestrator/orchestrator_service.py:118-124 | nothing is uploaded or sent before bucket, sender and edp-api answered and the payload validated |
| Orchestrator.DeliveryUploadsLast | src/orchestrator/orchestrator_service.py:184-226 | the template or the ISO is uploaded by the last call of its step |
| Orchestrator.KnownFormat | src/edp_client/edp_artifacts.py:66-79 | the file formats whose upload does not raise |
| Orchestrator.Lifecycle | src/orchestrator/orchestrator_service.py:387-411 | saved as RUNNING, then at most once more, as COMPLETE exactly when nothing raised, else FAILED; completed_at exactly in terminal rows |
| Orchestrator.DeliveredIff | src/orchestrator/orchestrator_service.py:97-116 | nothing raises exactly when the order's own conditions hold and every call returns |
| Orchestrator.CompleteIsDelivered | src/orchestrator/orchestrator_service.py:228-261 | a COMPLETE order archived every file, a DTM among them, and uploaded template or ISO, zip, manifest and page before its one mail |
| Orchestrator.CompleteDelivery | src/orchestrator/orchestrator_service.py:184-226 | every COMPLETE row a run saves has the template's URL exactly when the run put ems-stack.yaml, the ISO's exactly when it put arcnode-ems.iso, one of the two, and the path the partition asks for |
| Orchestrator.CompleteArtifacts | src/orchestrator/orchestrator_service.py:160-182 | and one artifact per file edp-api made, of its kind and format, at the public URL of the key the run put that file under, which is named after the file |
| Orchestrator.DtmReadableIff | src/iso/iso_service.py:37-64 | the ISO finds a dtm.json exactly when it was in the bucket or this run archived something there |
| Orchestrator.ReadyMailIff | src/orchestrator/orchestrator_service.py:118-148 | the ready mail goes out at most once, exactly when everything before it returned and its call delivered |
| Orchestrator.FailedYetReadyIff | src/orchestrator/orchestrator_service.py:97-116 | FAILED with a ready mail exactly when the mail's own call raised after sending |
| Orchestrator.FailedYetReadyExample | src/orchestrator/orchestrator_service.py:97-116 | such a run |
| Orchestrator.FailureMailIff | src/orchestrator/orchestrator_service.py:102-113 | the failure mail goes out exactly when the started order's FAILED row was saved, the payload validates and the call delivered |
| Orchestrator.LeftRunningIff | src/orchestrator/orchestrator_service.py:387-411 | the row stays RUNNING exactly when the first save wrote and then raised, or the last save raised before writing |
| Orchestrator.FailedRecordsNothing | src/orchestrator/orchestrator_service.py:392-396 | every FAILED row a run saves, and the order it leaves, has no delivery and no artifacts of the run |
| Orchestrator.ReturnsIff | src/orchestrator/orchestrator_service.py:97-116 | execute returns exactly when the last row was saved and, after a failure, the contact told |
| Orchestrator.LastSaveIs | src/orchestrator/orchestrator_service.py:97-148 | which call saves the last row, from the place where the pipeline broke |
| OrderExamples.LeftRunningExample | src/orchestrator/orchestrator_service.py:387-411 | an order whose ready mail went out and whose row stays RUNNING |
| OrderExamples.SilentFailureExample | src/orchestrator/orchestrator_service.py:102-113 | an order with an invalid payload: FAILED and no mail |
| OrderBucket.ArchivedSurvivesIff | src/orchestrator/orchestrator_service.py:155-182 | after a complete order an archived file is still under its key exactly when its name is none of the delivery's own |
| OrderBucket.DtmKeyHoldsDtmIff | src/orchestrator/orchestrator_service.py:199-206 | the run put a DTM at dtm.json exactly when a DTM's file name came out so |
| OrderExamples.OverwrittenExample | src/orchestrator/orchestrator_service.py:155-182 | a COMPLETE order whose file manifest.json was overwritten |
| OrderExamples.MissingDtmExample | src/orchestrator/orchestrator_service.py:199-206 | a COMPLETE order with a topology, and none at dtm.json |
| OrderRun.World.AttemptQuietly | src/orchestrator/orchestrator_service.py:150-153 | calls without effect, until one raises |
| OrderRun.OrchestratorService.Archive | src/orchestrator/orchestrator_service.py:155-182 | the archiving loop plays exactly its part of the script |
| OrderRun.OrchestratorService.FindDtm | src/orchestrator/orchestrator_service.py:423-429 | the first DTM's URL, exactly when some ref is a DTM |
| OrderRun.OrchestratorService.Bake | src/iso/iso_service.py:37-64 | base image, archived topology, xorriso, upload, in this order |
| OrderRun.OrchestratorService.BuildDelivery | src/orchestrator/orchestrator_service.py:184-226 | slug first, then the DTM, then ISO or template |
| OrderRun.OrchestratorService.PublishPortal | src/orchestrator/orchestrator_service.py:228-261 | sizes, render, downloads, the three uploads, the signed link |
| OrderRun.OrchestratorService.RunPipeline | src/orchestrator/orchestrator_service.py:118-148 | plays exactly the pipeline's script |
| OrderRun.OrchestratorService.MarkRunning | src/orchestrator/orchestrator_service.py:387-390 | status set and saved |
| OrderRun.OrchestratorService.MarkFailed | src/orchestrator/orchestrator_service.py:392-396 | status and completed_at set and saved |
| OrderRun.OrchestratorService.MarkComplete | src/orchestrator/orchestrator_service.py:398-405 | every field of the complete row set and saved |
| OrderRun.OrchestratorService.Execute | src/orchestrator/orchestrator_service.py:97-116 | the order, the log and whether it raises are those of the run |
| Credentials.ReadEscaped | src/wizard/hivemq_credentials.py:13-13 | XML reads back exactly the escaped password, then the tag after it |
| Credentials.PlaceholdersApart | src/wizard/hivemq_credentials.py:12-13 | no placeholder contains another |
| Credentials.RenderCredentials | src/wizard/hivemq_credentials.py:9-14 | the loop of whole-string replaces |
| Credentials.SequentialIsPerHole | src/wizard/hivemq_credentials.py:9-14 | whatever the passwords, sequential replaces fill each hole on its own |
| Credentials.SequentialIsSimultaneous | src/wizard/hivemq_credentials.py:9-14 | when no account in use has a later account's placeholder in its password, they equal one simultaneous fill |
| Credentials.EscapeAddsNoPlaceholder | src/wizard/hivemq_credentials.py:12-13 | a placeholder in the escaped password was in the password |
| Credentials.OrderDoesNotMatter | src/wizard/hivemq_credentials.py:9-14 | then the accounts' order does not matter |
| Credentials.CloudAndOnPremAgree | src/cfn/cfn_resources.py:605-615 | cloud and wizard write the same file when neither order rewrites a password |
| PlaceholderPasswords.StaysIff | src/wizard/hivemq_credentials.py:9-14 | at given passwords, each with a character no placeholder has: a text comes out of some accounts as it went in exactly when it holds none of their placeholders |
| PlaceholderPasswords.SequentialIsSimultaneousIff | src/wizard/hivemq_credentials.py:9-14 | for such passwords the sequential fill of a file is the simultaneous one exactly when no account with a hole has a later account's placeholder in its password |
| PlaceholderPasswords.CloudAndOnPremAgreeIff | src/cfn/cfn_resources.py:605-615 | for such passwords cloud and wizard write the same file exactly when no hole, where the two orders part, holds a placeholder one of them has yet to replace |
| PlaceholderPasswords.SurvivesIff | src/wizard/hivemq_credentials.py:9-14 | a filled-in password survives every accepted choice of the later accounts' passwords exactly when it holds none of their placeholders |
| PlaceholderPasswords.EscapeKeepsPlaceholder | src/wizard/hivemq_credentials.py:12-13 | a placeholder in the password is still one after escaping |
| PlaceholderPasswords.TrickyIsAccepted | src/wizard/wizard_record.py:100-108 | "1" before a placeholder meets the password policy |
| PlaceholderPasswords.OrdersPart | src/cfn/cfn_resources.py:605-615 | the accepted operator password 1__DEVICE_API_PASSWORD__: whatever the others chose, the wizard and the cloud write different files |
| BrokerLogins.AccountNamesFit | src/wizard/hivemq_verify.py:26-43 | each account of the file has its name in secrets.env and the same password there |
| BrokerLogins.BrokerAcceptsSavedPasswords | src/wizard/hivemq_service.py:52-94 | right after a save the password a container reads from secrets.env is the one the broker reads for its account |
| BrokerLogins.BrokerLoginsAgree | src/wizard/hivemq_service.py:52-94 | in every reachable state the broker's file is the template filled with the last saved passwords, and each account reads the same password from both files |
| BrokerLogins.ServiceAccountsPartExample | src/wizard/wizard_record.py:100-108 | an accepted service password after which two service accounts read different passwords |
| Credentials.PasswordReadsBack | src/wizard/hivemq_credentials.py:9-14 | the broker reads back each account's own password |
| HbaRules.CountingIsRightIff | src/wizard/postgres_access_verify.py:65-68 | the counted prefix's network is the rule's own exactly for contiguous netmasks |
| HbaRules.RuleIsItsNet | src/wizard/postgres_access_verify.py:65-68 | a rule with a contiguous mask admits exactly its network, IPv4 and IPv6 |
| HbaRules.AddressRange | src/wizard/postgres_access_verify.py:65-68 | addresses have 32 or 128 bits |
| HbaRules.CheckHba | src/wizard/postgres_access_verify.py:57-79 | the loop passes exactly when Docker's network is among the nets and nothing is outside |
| HbaRules.LoopbackThroughout | src/wizard/postgres_access_verify.py:70-71 | a network whose ends are loopback is loopback throughout |
| HbaRules.PassingCheckBoundsAccess | src/wizard/postgres_access_verify.py:49-79 | a passing check: the rules admit all of Docker's network and nothing but it and loopback |
| HbaRules.OnlyItsNetIff | src/wizard/postgres_access_verify.py:65-68 | a rule admits nothing outside the network it was read as exactly when its mask is contiguous |
| HbaRules.OnlyLoopbackIff | src/wizard/postgres_access_verify.py:70-71 | a rule read as loopback admits only loopback exactly when its mask fixes all but the last 24 bits |
| HbaRules.AdmitsAsReadIff | src/wizard/postgres_access_verify.py:65-71 | the two together: when a rule admits only what the check read it as |
| HbaRules.TightRulesBoundAccess | src/wizard/postgres_access_verify.py:49-79 | a passing check over such rules admits nothing but loopback and Docker's network |
| HbaRules.StrayMaskPasses | src/wizard/postgres_access_verify.py:65-71 | 127.0.0.0 with the mask 127.0.0.1 passes beside any Docker network and admits 255.0.0.2 |
| Ndjson.ReadBySplit | src/wizard/static/ollama-page.jsx:19-30 | however the stream is cut, exactly the complete lines of the whole are handled, empty ones skipped |
| Ndjson.ReadBySlicing | src/wizard/static/setup-wizard.jsx:673-692 | the same for the second reader, which skips blank lines |
| Ndjson.ReadersAgreeIff | src/wizard/static/setup-wizard.jsx:673-692 | the readers do the same exactly when no white-space line comes before a line that does not parse |
| Ndjson.ReadersPartExample | src/wizard/static/setup-wizard.jsx:673-692 | a line of one space: one reader throws, the other goes on |
| Ndjson.ReadersSeeCompleteEvents | src/wizard/wizard_controller.py:235-235 | of a server's stream, cut anywhere, both readers have handled exactly the events whose lines are complete |
| PageStreams.Pull | src/wizard/ollama_service.py:115-135 | the generator's events and its result |
| PageStreams.PullStopsAtError | src/wizard/ollama_service.py:115-135 | each line reported in order, with its own status and sizes or its error, up to and including the first error |
| PageStreams.OllamaService.Apply | src/wizard/ollama_service.py:62-85 | the whole event stream; marked done exactly when verified, prepared exactly when both models were pulled |
| PageStreams.PageEndsInOneResult | src/wizard/ollama_service.py:69-85 | progress events, then exactly one result; nothing of the second model after an error of the first |
| PageStreams.PreparedIff | src/wizard/ollama_service.py:69-85 | the models are set up for good exactly when the API opens and neither download meets an error |
| PageStreams.BrowserSeesThePage | src/wizard/static/ollama-page.jsx:12-34 | the browser has seen the page's first events in order, and resolves exactly when all arrived, with its result |
| PageStreams.PollStages | src/wizard/analyst_server_service.py:102-110 | the polling loop yields a stage update per poll up to the one it ends on, and raises where a log cannot be read |
| PageStreams.VerdictIff | src/wizard/analyst_server_service.py:102-120 | the stream carries a verdict exactly when every polled log could be read |
| PageStreams.UpdatesShowPolls | src/wizard/analyst_server_service.py:102-110 | while the logs can be read, the stream shows the stages of each poll in order |
| PageStreams.PollEndsIff | src/wizard/analyst_server_service.py:102-110 | a poll ends the loop when its log cannot be read, holds the ready line, or the container is gone |
| PageStreams.PolledUpToTheEnd | src/wizard/analyst_server_service.py:102-110 | polled is everything up to and including the first poll that is ready, dead or raises |
| PageStreams.AnalystPageSettlesIff | src/wizard/static/setup-wizard.jsx:673-692 | wherever a stream that ends cleanly is cut short, the page settles exactly when all of it arrived and no poll raised, on the server's verdict; else it goes on applying |
| PageStreams.AnalystHangsWhenCut | src/wizard/static/setup-wizard.jsx:673-692 | any such stream without its last newline: the page goes on applying |
| PageStreams.AnalystHangsExample | src/wizard/static/setup-wizard.jsx:673-692 | a successful stream without its last newline: the page goes on applying |
| PageStreams.OllamaRejectsWhenCut | src/wizard/static/ollama-page.jsx:12-34 | any stream of the Ollama page without its last newline: the page rejects |
| AnalystProgress.CollectSamples | src/wizard/analyst_server_progress.py:56-68 | the loop collects exactly the seed's samples, in order |
| AnalystProgress.StageStatus | src/wizard/analyst_server_progress.py:116-128 | the four stages; it raises exactly when some stage does, read off the log's lines |
| AnalystProgress.StageRaisesIff | src/wizard/analyst_server_progress.py:71-128 | a stage raises exactly when its seed is unfinished and its first and newest stamped readings have one stamp and a risen percentage |
| AnalystProgress.DoneIff | src/wizard/analyst_server_progress.py:116-121 | a stage is done exactly when some line holds its finish text |
| AnalystProgress.ImportIsShown | src/wizard/analyst_server_progress.py:84-94 | an importing seed shows its newest import's percentage |
| AnalystProgress.DownloadIsShown | src/wizard/analyst_server_progress.py:95-112 | without an import the newest download decides: finished, an import without numbers; else its percentage and sizes |
| AnalystProgress.WaitingIsShown | src/wizard/analyst_server_progress.py:113-113 | without any reading the seed waits |
| AnalystProgress.PhaseIsShown | src/wizard/analyst_server_progress.py:84-113 | the phase shown is the one the order of stages is about |
| AnalystProgress.PhaseGoesBackIff | src/wizard/analyst_server_progress.py:84-128 | as the log grows a phase goes back exactly when the download slips below 100 again |
| AnalystProgress.PhasesMoveForward | src/wizard/analyst_server_progress.py:84-128 | with non-decreasing download percentages every phase only moves forward |
| AnalystProgress.RestartGoesBack | src/wizard/analyst_server_progress.py:95-98 | a restarted download |
| AnalystProgress.EtaIsNonNegative | src/wizard/analyst_server_progress.py:71-81 | with increasing stamps and percentages at most 100 an estimate is never negative and never divides by zero |
| AnalystProgress.EtaIsExactWhenLinear | src/wizard/analyst_server_progress.py:71-81 | with linear progress it is the time left, rounded |
| AnalystProgress.EqualStampsRaise | src/wizard/analyst_server_progress.py:71-81 | two readings in one clock tick make the status raise |

## Left out

- DnsProtocol.ZoneIsFoldInLockOrder: covers one client object; writers in another process, and a request the server carries out only after its caller has given up, are not part of this model.
- DnsForm.DecodeEncode: how the server reads the form is its documented rule (count up while HostName{n} is there); its own validation is not part of this model.
- Percent.GraphUrlRoundTrip: GRAPH_URL values this wizard did not write (non-ASCII text, bracketed hosts) are read as "no password to try" where Python might find one.
- WizardInvariant.RunKeepsInv: a page's apply is one atomic step; a crash in the middle of writing its files and two applies of the same page at once are left out.
- WizardServices.Machine.Hivemq: config.env and the compose override, written with fixed texts, and file modes are left out; the template is the same file at every apply.
- WizardServices.Machine.Postgres: the server's listen address, its pg_hba rules, its password and its databases are not in the state; their checks enter as results (HbaRules has the access check itself).
- WizardServices.Machine.SetPassword: an ALTER that exits non-zero is taken to have changed nothing; one that changed the password and then lost its answer is not part of this model.
- WizardServices.Machine.Neo4j: neo4j.conf is left out, and a failed ALTER changes nothing, as in SetPassword.
- WizardServices.Machine.Https: openssl is two functions from text to a public key; file modes, the reload of the ingress and the served-certificate probe enter only as check results.
- WizardServices.Machine.DerControl: the per-site overlay and the utility identity files are left out; their checks enter as results.
- RateLimit.OrderRateLimiter.Check: the clock is a real number; floating-point rounding of clock readings is left out.
- UniquePath.FindUniquePath: paths follow Python 3.13's PurePosixPath.
- Manifest.Build: the built_at time, the bundle URL, subtitles and the site slug's place in the record are left out; `upper` stands for Python's.
- Bundle.BundleFilesFor: `pathOf` stands for the path component urlparse finds.
- OrderRun.OrchestratorService.Execute: what S3, the mail service, edp-api and xorriso do inside is one call each, which may raise before or after its effect; downloads and renderings are calls without effect; cancellation (not an Exception) is left out.
- Orchestrator.StopsIff: edp-api's answer is given (a failed job is a submit call that raises); head_size never raises on HTTP errors, and here may still raise on anything else.
- Credentials.ReadEscaped: XML's end-of-line normalization and the characters XML forbids are left out.
- Credentials.SequentialIsSimultaneous: asks of the template that the text between holes starts and ends on a character no placeholder has, as in the shipped file where it is ">" and "<".
- BrokerLogins.BrokerLoginsAgree: asks that no password holds a line break and none in use a later account's placeholder; WizardInvariant.RolesShareTheirPassword and PlaceholderPasswords.SequentialIsSimultaneousIff say what happens otherwise.
- PlaceholderPasswords.CloudAndOnPremAgreeIff: asks that every hole of the template is followed by a tag and every account has one, as in the shipped file.
- PageStreams.AnalystPageSettlesIff: only a stream whose end reads as `done` is modelled; a cut connection, also the one the server closes when its generator raises, makes `reader.read()` reject and the page show that error.
- PlaceholderPasswords.TrickyIsAccepted: Python's \d also matches digits outside ASCII; the policy here accepts ASCII digits only. StaysIff and the results from it ask only for a character no placeholder has, which any digit is.
- HbaRules.AdmitsAsReadIff: is about what each rule was read as; a loopback rule whose strays all fall into Docker's own network would still be bounded by the two together.
- HbaRules.CheckHba: the text of a rule is already parsed into an address and a mask of one family; what a keyword rule admits is left open, since one such rule fails the check.
- Ndjson.ReadBySplit: TextDecoder is left out; chunks are already text.
- PageStreams.OllamaService.Apply: a browser that closes the stream early is left out.
- WizardServices.Machine.StartStream: asks that some poll is ready, dead or raises; the source's loop has no other end. Its events come as one sequence, so what a container does between two polls is only what the polls say. A container command that raises inside the loop is not part of this model.
- AnalystProgress.StageStatus: the regular expressions and time stamps are abstracted into what each line says; time is a real number.
- SiteIdentity.SlugWhenAndHow: Python's lower case outside ASCII is a parameter, taken character by character.
- The HMAC of the site callback and its comparison.
- CloudFormation resources, compose files, UserData text, Jinja templates, React rendering, log formatting.
- The pages without shared state (Prometheus, MLflow, HMI, gateway, telemetry) appear only as done markers: they would add easy members.
- The garbage collector, the configuration loaders, the order API's controllers and the edp-api client's polling.

# SAP Host Agent Salt extension — verified model

This project models the SaltStack extension for the SAP Host Agent in Dafny.
The execution module talks SOAP to the host agent. It builds a client over
HTTPS on port 1129 and can fall back to HTTP on port 1128. It lists SAP
systems, instances and database systems, reads a database's status,
starts and stops databases, and configures and runs the SLD "outside
discovery". The state module builds three convergent states on top of it:
`system_installed`, `outside_discovery_executed` and `sda_installed`.
Each state returns a report with `name`, `changes`, `result` and `comment`,
and honours dry-run (test) mode.

The model takes the program's own form. Loops become methods with
invariants. Each method is proved against a specification function, and
the promised properties are lemmas about those functions. The SOAP
replies, the existence of a client, the host's files, the output of
`sldreg -showconnect`, the log file and the answers of the remote calls
are all inputs. What a state does to the host comes back as a trace of
actions.

Modules:

- `Optional`, `Sequences`: an option type, duplicate-freedom and the first position of an element.
- `Text`: Python's `str.find`, `replace(old, new, 1)`, `split`, `strip`.
- `HostAgentClient`: `_get_client` and the `localhost` rewrite of the service address.
- `Listings`: `list_systems`, `list_instances`, `list_database_systems`, `get_database_status`.
- `Operations`: `start_database`, `stop_database`, `configure_outside_discovery`, `execute_outside_discovery`.
- `Showconnect`: the `sldreg -showconnect` output parser and the configuration comparison.
- `DiscoveryLog`: the `Return code: NNN` scan of the outside-discovery log.
- `StateReports`: the report record.
- `OutsideDiscovery`: the `outside_discovery_executed` state.
- `States`: `system_installed` and `sda_installed`.

The two execution-module files `_modules/sap_hostctrl.py` and
`modules/sap_hostctrl.py` are identical, so one model serves both. The
table cites whichever copy is clearer.

## Model

| member | source | states |
|---|---|---|
| Text.IndexOf | src/saltext/sap_hostctrl/_states/sap_hostctrl.py:189-190 | `find` gives the first position where the pattern occurs, or no position when it occurs nowhere |
| Text.ReplaceFirstAt | src/saltext/sap_hostctrl/_modules/sap_hostctrl.py:112-114 | `replace(old, new, 1)` substitutes only the first occurrence and leaves the text around it unchanged |
| Text.Split | src/saltext/sap_hostctrl/_states/sap_hostctrl.py:185 | `split("\n")` yields at least one piece and no piece contains the separator |
| Text.JoinSplit | src/saltext/sap_hostctrl/_states/sap_hostctrl.py:185 | joining the pieces of a split with the separator gives back the original text |
| Text.SplitJoin | src/saltext/sap_hostctrl/_states/sap_hostctrl.py:185 | splitting the join of separator-free pieces gives back those pieces |
| Text.ReplaceFirst | src/saltext/sap_hostctrl/_modules/sap_hostctrl.py:112-114 | the text comes back unchanged exactly when the pattern does not occur or the replacement equals it |
| Text.Strip | src/saltext/sap_hostctrl/_states/sap_hostctrl.py:192 | what `strip("'")` returns neither starts nor ends with a quote |
| Text.StripKeepsMiddle | src/saltext/sap_hostctrl/_states/sap_hostctrl.py:192 | what `strip("'")` returns is one contiguous piece of the text, with only quotes before and after it |
| Text.StripWrapped | src/saltext/sap_hostctrl/_states/sap_hostctrl.py:192 | `strip("'")` removes any run of quotes on both sides and keeps a value that has none at its ends |
| HostAgentClient.GetClient | src/saltext/sap_hostctrl/_modules/sap_hostctrl.py:69-115 | HTTPS is tried first on the given or grain FQDN. A built HTTPS client is verified. Without fallback the result is falsy: `False` on any SSL error, `None` otherwise. With fallback, HTTP is tried and gives an unverified client or `False`. Any client's address has its first `localhost` replaced by the FQDN |
| HostAgentClient.ServiceAddressRewritesFirstOnly | src/saltext/sap_hostctrl/_modules/sap_hostctrl.py:110-114 | only the first `localhost` in the advertised address is replaced by the FQDN |
| HostAgentClient.RewriteAfterScheme | src/saltext/sap_hostctrl/_modules/sap_hostctrl.py:110-114 | an address `scheme + localhost + rest` becomes `scheme + fqdn + rest` |
| HostAgentClient.DatabaseEndpointAsWritten | src/saltext/sap_hostctrl/_modules/sap_hostctrl.py:239-247 | the second rewrite leaves the client's address unchanged exactly when that address no longer contains `localhost` or the FQDN is `localhost` itself |
| HostAgentClient.DoubleRewriteCorruptsEndpoint | src/saltext/sap_hostctrl/_modules/sap_hostctrl.py:239-247 | the second rewrite repeats the FQDN's suffix when the FQDN extends `localhost`, so the address differs from the one the client uses |
| Listings.ListSystems | src/saltext/sap_hostctrl/_modules/sap_hostctrl.py:146-160 | `False` without a client and `[]` for a non-list reply. Otherwise each SID appears once, every SID of the reply appears, and the order is that of first appearance |
| Listings.FirstAppearanceUnique | src/saltext/sap_hostctrl/_modules/sap_hostctrl.py:156-159 | at most one list satisfies that description, so the listing is determined by the reply |
| Listings.ListInstances | src/saltext/sap_hostctrl/_modules/sap_hostctrl.py:193-208 | `False` without a client, `[]` for a non-list reply, otherwise the host and system number of the matching instances in reply order |
| Listings.EntriesForSound | src/saltext/sap_hostctrl/_modules/sap_hostctrl.py:204-206 | every entry listed comes from an instance with the requested SID |
| Listings.EntriesForComplete | src/saltext/sap_hostctrl/_modules/sap_hostctrl.py:204-206 | every instance with the requested SID is listed |
| Listings.EntriesForOtherSid | src/saltext/sap_hostctrl/_modules/sap_hostctrl.py:204-206 | instances of other SIDs contribute nothing |
| Listings.EntriesForAppend | src/saltext/sap_hostctrl/_modules/sap_hostctrl.py:204-206 | the listing of two concatenated replies is the concatenation of their listings |
| Listings.LastValueAt | src/saltext/sap_hostctrl/_modules/sap_hostctrl.py:258-267 | when a key occurs several times among the properties, the value of its last occurrence is kept |
| Listings.LastValueAbsent | src/saltext/sap_hostctrl/_modules/sap_hostctrl.py:258-267 | a key that never occurs leaves the field unset |
| Listings.LastValuePresent | src/saltext/sap_hostctrl/_modules/sap_hostctrl.py:258-267 | a key that occurs sets the field |
| Listings.InstanceEntry | src/saltext/sap_hostctrl/_modules/sap_hostctrl.py:269-274 | the loop over one instance's properties equals `InstanceOf`: the last `Database/InstanceName` and `Database/Host` values, or no entry when neither key occurs |
| Listings.InstanceListedIffKeyed | src/saltext/sap_hostctrl/_modules/sap_hostctrl.py:275-276 | an instance is listed exactly when it carries an instance-name or host key |
| Listings.InstancesNonEmpty | src/saltext/sap_hostctrl/_modules/sap_hostctrl.py:275-276 | no listed instance is empty |
| Listings.DatabaseRecord | src/saltext/sap_hostctrl/_modules/sap_hostctrl.py:257-276 | the loops over one database's properties equal `RecordOf`: no record without `Database/Name`, otherwise the last name, type and release, the last `ConnectAddress` and the instances that have a name or host |
| Listings.DatabaseListedIffNamed | src/saltext/sap_hostctrl/_modules/sap_hostctrl.py:277-278 | a database is listed exactly when its properties carry `Database/Name` |
| Listings.RecordsOfAppend | src/saltext/sap_hostctrl/_modules/sap_hostctrl.py:256-278 | the records of two concatenated replies are the concatenation of their records |
| Listings.ListDatabaseSystems | src/saltext/sap_hostctrl/_modules/sap_hostctrl.py:241-280 | `False` without a client, `[]` for a non-list reply, otherwise the records of the named databases in reply order |
| Listings.GetDatabaseStatus | src/saltext/sap_hostctrl/modules/sap_hostctrl.py:318-339 | the status is returned exactly when there is a client and a reply carrying one, and it is the reply's status |
| Operations.FindMarker | src/saltext/sap_hostctrl/modules/sap_hostctrl.py:396-402 | the scan succeeds exactly when some message has key `LogMsg/Text` and the expected text |
| Operations.StartDatabase | src/saltext/sap_hostctrl/modules/sap_hostctrl.py:378-402 | `True` exactly when there is a client, the reply has operation results, and one of them reports "StartDatabase successfully executed" |
| Operations.StopDatabase | src/saltext/sap_hostctrl/modules/sap_hostctrl.py:438-462 | the same, with "StopDatabase successfully executed" |
| Operations.FirstNamed | src/saltext/sap_hostctrl/modules/sap_hostctrl.py:544-547 | the inner loop stops at the first property with the wanted name, or finds none |
| Operations.ScanStatus | src/saltext/sap_hostctrl/modules/sap_hostctrl.py:541-548 | the nested loop with `break` computes the verdict of the deciding status property |
| Operations.DecidingStatusAt | src/saltext/sap_hostctrl/modules/sap_hostctrl.py:542-547 | the deciding property is the one from the last member that has one |
| Operations.DecidingStatusAbsent | src/saltext/sap_hostctrl/modules/sap_hostctrl.py:541-548 | with no member carrying the property there is no deciding property |
| Operations.LastWithStatusExists | src/saltext/sap_hostctrl/modules/sap_hostctrl.py:542-547 | if any member carries the property, there is a last one that does |
| Operations.VerdictOfLastMember | src/saltext/sap_hostctrl/modules/sap_hostctrl.py:541-548 | success exactly when the last member carrying the property gives it the expected value. A value-less property counts as `ERROR` |
| Operations.ConfigureOutsideDiscovery | src/saltext/sap_hostctrl/modules/sap_hostctrl.py:514-548 | `False` without a client or with a falsy reply. Otherwise success exactly when the deciding `SLDRegistration` value is `Enabled` |
| Operations.ExecuteOutsideDiscovery | src/saltext/sap_hostctrl/modules/sap_hostctrl.py:578-603 | `False` without a client or with a falsy reply. Otherwise success exactly when the deciding `SLDREGStatus` value is `OK` |
| Showconnect.ParamEntry | src/saltext/sap_hostctrl/_states/sap_hostctrl.py:189-192 | a line contributes nothing for a parameter exactly when the parameter does not occur in it. A key has no `=` and starts with the parameter. A value has no quote at either end |
| Showconnect.ParamEntryText | src/saltext/sap_hostctrl/_states/sap_hostctrl.py:189-192 | when the first occurrence of the parameter is at `i` and the first `=` after it at `i + j`, the key is the text from `i` up to that `=` and the value is the rest of the line with the quotes stripped from both ends |
| Showconnect.ParamEntryMalformed | src/saltext/sap_hostctrl/_states/sap_hostctrl.py:189-191 | the unpacking raises exactly when the parameter occurs and no `=` follows its first occurrence |
| Showconnect.ApplyEntriesOver | src/saltext/sap_hostctrl/_states/sap_hostctrl.py:187-192 | what one line assigns does not depend on the keys already parsed, and it overrides them |
| Showconnect.ApplyLine | src/saltext/sap_hostctrl/_states/sap_hostctrl.py:187-192 | a line fails or succeeds independently of the current configuration, and on success its assignments override it |
| Showconnect.UntouchedKeyKept | src/saltext/sap_hostctrl/_states/sap_hostctrl.py:185-192 | a key that no later line assigns keeps its value |
| Showconnect.LastLineWins | src/saltext/sap_hostctrl/_states/sap_hostctrl.py:185-192 | a key ends with the value the last line assigning it gave |
| Showconnect.RenderedEntry | src/saltext/sap_hostctrl/_states/sap_hostctrl.py:189-192 | a line `param='value'` parses to that parameter with the unquoted value |
| Showconnect.RenderedParse | src/saltext/sap_hostctrl/_states/sap_hostctrl.py:185-192 | the lines `host_param='h'`, `https_param='y'`, `port_param='p'` and `user_param='u'` parse to exactly those four keys with the unquoted values, for values in which no parameter name occurs and that have no line break and no quote at either end (the documented user `SLD_DS_USER` is one) |
| Showconnect.RenderedOutputMatches | src/saltext/sap_hostctrl/_states/sap_hostctrl.py:185-200 | the configuration read back from such output matches the printed destination (host, port, user, HTTPS on) and no other |
| Showconnect.ParseOutput | src/saltext/sap_hostctrl/_states/sap_hostctrl.py:183-192 | the nested loops compute the parsed configuration, and fail when a line raises |
| Showconnect.ParseFailsIff | src/saltext/sap_hostctrl/_states/sap_hostctrl.py:185-192 | the parse fails exactly when some line of the output has some parameter with no `=` after its first occurrence, where the unpacking raises `ValueError` |
| DiscoveryLog.ReturnCodes | src/saltext/sap_hostctrl/_states/sap_hostctrl.py:226-235 | every capture of `Return code: ([0-9]{3})` is three ASCII digits |
| DiscoveryLog.CodesAreMatches | src/saltext/sap_hostctrl/_states/sap_hostctrl.py:235 | the `k`-th capture is the code of a match at the `k`-th match start, and every start is a match of the pattern |
| DiscoveryLog.StartsIncrease | src/saltext/sap_hostctrl/_states/sap_hostctrl.py:235 | the matches are taken left to right and never overlap |
| DiscoveryLog.MatchCovered | src/saltext/sap_hostctrl/_states/sap_hostctrl.py:235 | and nothing else: every match of the pattern is a captured match or overlaps one that starts before it |
| DiscoveryLog.NoCodesIff | src/saltext/sap_hostctrl/_states/sap_hostctrl.py:235-237 | the capture list is empty exactly when the pattern matches nowhere in the log |
| DiscoveryLog.AlreadyExecuted | src/saltext/sap_hostctrl/_states/sap_hostctrl.py:226-243 | success is recorded exactly when the log could be read, it holds a capture, and the last capture is the text `200` |
| DiscoveryLog.ThreeDigitsAre200 | src/saltext/sap_hostctrl/_states/sap_hostctrl.py:237 | `int(code) != 200` fails exactly when the capture is the text `200` |
| DiscoveryLog.ScanEndsWithRecord | src/saltext/sap_hostctrl/_states/sap_hostctrl.py:235 | the scan ends with the capture of a record `Return code: NNN` that only record-free text follows |
| DiscoveryLog.LastRecordDecides | src/saltext/sap_hostctrl/_states/sap_hostctrl.py:226-243 | in a log whose last record is `Return code: NNN`, "already executed" holds exactly when `NNN` is `200`, whatever precedes the record and whatever record-free text follows it |
| OutsideDiscovery.RemoveFirst | src/saltext/sap_hostctrl/_states/sap_hostctrl.py:163-164 | on a duplicate-free listing, removing the target keeps every other file and nothing else |
| OutsideDiscovery.RemoveFirstSplices | src/saltext/sap_hostctrl/_states/sap_hostctrl.py:163-164 | `remove` drops exactly the first occurrence of the target and keeps the other files in their order; an absent target leaves the list as it is |
| OutsideDiscovery.RemoveConfigs | src/saltext/sap_hostctrl/_states/sap_hostctrl.py:165-170 | one note per file ("Would remove" in a dry run, "Removed" otherwise), with deletions only outside a dry run |
| OutsideDiscovery.InspectExisting | src/saltext/sap_hostctrl/_states/sap_hostctrl.py:173-200 | the state returns `False` when showconnect fails and raises when parsing fails. Otherwise an update is needed exactly when the destination is missing or differs |
| OutsideDiscovery.RemoveLogAndExecute | src/saltext/sap_hostctrl/_states/sap_hostctrl.py:254-278 | the log notes, the result, the comment and the actions of the last two steps, in and out of a dry run |
| OutsideDiscovery.Reconfigure | src/saltext/sap_hostctrl/_states/sap_hostctrl.py:207-221 | when the destination is missing, differs or `overwrite` is set, the outcome equals `OutcomeAfter` and the actions `StepsAfter`: a rewrite, or its announcement in a dry run, then the last steps. A failed rewrite stops with "Cannot configure SAP Host Agent to use outside discovery" |
| OutsideDiscovery.RecheckLog | src/saltext/sap_hostctrl/_states/sap_hostctrl.py:222-252 | when the destination is right and `overwrite` is off, the outcome equals `OutcomeAfter` and the actions `StepsAfter` for an unchanged destination: the log read, then the no-op when the log shows success, otherwise the note "was not yet executed sucessfully" (sic) and the last steps |
| OutsideDiscovery.OutsideDiscoveryExecuted | src/saltext/sap_hostctrl/_states/sap_hostctrl.py:155-280 | the outcome equals `Outcome`: a bare `False` when showconnect fails, `ValueError` when the parse fails, otherwise `OutcomeAfter` on the removal notes and the comparison. The actions equal `Trace`: the removals, the showconnect read, then `StepsAfter` |
| OutsideDiscovery.DryRunChangesNothing | src/saltext/sap_hostctrl/_states/sap_hostctrl.py:166-266 | a dry run removes, configures and executes nothing. Its result is `None` (or the bare `False`). Its `new` notes only say what would happen |
| OutsideDiscovery.OnlyOtherDestinationsRemoved | src/saltext/sap_hostctrl/_states/sap_hostctrl.py:158-170 | a file is removed exactly when it is another `slddest_*.cfg`, outside a dry run, without `keep_other_config`. The target is never removed, and removals come before every other action |
| OutsideDiscovery.ConfigureWhenNeeded | src/saltext/sap_hostctrl/_states/sap_hostctrl.py:207-214 | the destination is rewritten exactly when it is missing or differs or `overwrite` is set, outside a dry run, once the read succeeded |
| OutsideDiscovery.ExecuteWhenNeeded | src/saltext/sap_hostctrl/_states/sap_hostctrl.py:207-268 | discovery runs after a successful rewrite, or when nothing was rewritten and the log shows no successful run |
| OutsideDiscovery.SuccessMeansExecuted | src/saltext/sap_hostctrl/_states/sap_hostctrl.py:267-278 | the result is `True` exactly when discovery ran and succeeded |
| OutsideDiscovery.NothingToDo | src/saltext/sap_hostctrl/_states/sap_hostctrl.py:222-249 | the no-op report (no changes, result `None`, "No changes required") comes exactly when the destination is right, `overwrite` is off and the log's last code is 200 |
| OutsideDiscovery.ConvergedHostLeftAlone | src/saltext/sap_hostctrl/_states/sap_hostctrl.py:173-249 | on a converged host the state only reads the destination and the log, and reports the no-op |
| OutsideDiscovery.OldNotesStatus | src/saltext/sap_hostctrl/_states/sap_hostctrl.py:202-205 | the `old` notes hold exactly one "configured correctly" or "not configured correctly" note |
| OutsideDiscovery.OneStatusNote | src/saltext/sap_hostctrl/_states/sap_hostctrl.py:158-205 | the `old` notes start with the removal notes and carry exactly one status note, the one matching the comparison |
| States.SystemInstalledAsWritten | src/saltext/sap_hostctrl/_states/sap_hostctrl.py:69-81 | with a client, the result is whether the name is listed, with the matching comment and no changes. Without one, the membership test raises |
| States.SystemInstalled | src/saltext/sap_hostctrl/_states/sap_hostctrl.py:69-81 | the result is `True` exactly when a client exists and the name is listed, and `False` otherwise. No changes either way |
| States.SdaSteps | src/saltext/sap_hostctrl/_states/sap_hostctrl.py:336-393 | the agent is pinged only without `overwrite`. A ping that raises ends the run. An installed agent leads to no upload and no changes. A dry run only announces the install. Opening an archive or posting the upload can raise and end the run; an archive that fails to open means nothing is posted. A failed upload clears the changes |
| States.SdaInstalledAsWritten | src/saltext/sap_hostctrl/_states/sap_hostctrl.py:341-395 | an exception from the ping, the archives or the upload propagates. Otherwise the final result is `True` whenever this is not a dry run, including after a failed upload. In a dry run it is `None` when there are changes |
| States.SdaInstalled | src/saltext/sap_hostctrl/_states/sap_hostctrl.py:336-397 | the run raises exactly when the ping, an archive or the upload raises. Otherwise the result is `True` exactly when the agent is installed or the upload succeeded, `None` exactly for a dry run that would install, and `False` exactly when the upload failed. Nothing is posted in a dry run or for an installed agent |

## Left out

- Building the SOAP client (the WSDL download, transport, session and certificate checks) is not modelled. Each attempt is an input that says whether it built a client and how it failed.
- Timeouts (`timeout`, `mTimeout`, `mSoftTimeout`), credentials and `int(sld_port)` are not modelled. They are passed through to the remote side.
- Logging is not modelled. The log messages are built eagerly, and the trace messages after each SOAP call read the reply's `text` attribute; the members below assume that every truthy reply has one.
- Listings.ListSystems: assumes that a list reply has a `text` attribute. A plain Python list has none, so as written the trace message at `_modules/sap_hostctrl.py` lines 151-152 would raise `AttributeError`.
- Listings.ListInstances: the same assumption for the trace message at lines 198-199.
- Listings.ListDatabaseSystems: the same assumption for the trace message at lines 250-251.
- Listings.GetDatabaseStatus: assumes that a truthy reply has a `text` attribute, read at lines 334-335.
- Operations.StartDatabase: the same assumption for lines 391-392.
- Operations.StopDatabase: the same assumption for lines 451-452.
- Operations.ConfigureOutsideDiscovery: the same assumption for lines 535-536.
- Operations.ExecuteOutsideDiscovery: the same assumption for lines 590-591.
- The SOAP service calls raise on a SOAP fault or a transport error, and nothing catches the exception. The members below model only calls that return a reply:
- Listings.ListSystems: the exception from the `ListInstances` call at `_modules/sap_hostctrl.py` line 150 is not modelled.
- Listings.ListInstances: the same for the `ListInstances` call at line 197.
- Listings.ListDatabaseSystems: the same for the `ListDatabaseSystems` call at line 249.
- Listings.GetDatabaseStatus: the same for the `GetDatabaseStatus` call at line 326.
- Operations.StartDatabase: the same for the `StartDatabase` call at line 382.
- Operations.StopDatabase: the same for the `StopDatabase` call at line 442.
- Operations.ConfigureOutsideDiscovery: the same for the `ConfigureOutsideDiscovery` call at line 518.
- Operations.ExecuteOutsideDiscovery: the same for the `ExecuteOutsideDiscovery` call at line 582.
- A `None` reply to `StartDatabase`/`StopDatabase` makes the source raise when it indexes the reply. The model treats a reply without operation results as "no results".
- `getattr(response, "mMembers", {})` in `configure_outside_discovery` is modelled as a sequence of members that may be empty. A member without `mProperties.item` is a member with no properties.
- Filesystem and command effects are modelled as inputs plus a trace of actions:
  - the `glob` listing is a sequence of paths, and `file.file_exists(conf)` is membership in it;
  - `sldreg -showconnect` is a return code and its output;
  - the log is its contents, or nothing when it does not exist;
  - the remote calls are their boolean answers.
  Exceptions from these effects, other than a missing log, are not modelled.
- OutsideDiscovery.OnlyOtherDestinationsRemoved: assumes that the `glob` listing holds each path once, as a directory listing does.
- The result of `file.remove` on the log is taken to be whether the log existed.
- `response.json()` and `version.parse` in `sda_installed` are one input: whether the ping answer's version parses; their exceptions are caught. The ping request, opening each archive and the multipart upload are inputs that either raise (the exception is an opaque message) or answer. Which of the two archives failed to open is not distinguished.
- Salt's loader checks (`__virtual__`) are not modelled.

## Findings

| source | as written | input that shows it | evidently intended | confidence | as-written member | corrected member |
|---|---|---|---|---|---|---|
| src/saltext/sap_hostctrl/_states/sap_hostctrl.py:374-395 | a failed upload sets result `False`, and the final line then sets it to `True` whenever this is not a dry run | not a dry run, agent not installed, upload response not `ok` | result `False` with comment "Could not install SDA" | high; not executed | States.SdaInstalledAsWritten | States.SdaInstalled |
| src/saltext/sap_hostctrl/_states/sap_hostctrl.py:75-80 | `name in list_systems(...)`, where `list_systems` returns `False` when no client can be built, so the test raises `TypeError` | the host agent cannot be reached | a report with result `False` ("is not installed") | medium; not executed | States.SystemInstalledAsWritten | States.SystemInstalled |
| src/saltext/sap_hostctrl/_modules/sap_hostctrl.py:239-247 | `list_database_systems` (and likewise `get_database_status`, lines 316-324) replaces `localhost` by the FQDN a second time, on an address `_get_client` already rewrote | FQDN `localhost.lan` and advertised address `http://localhost:1128/SAPHostControl/`, which becomes `http://localhost.lan.lan:1128/SAPHostControl/` | one rewrite, giving `http://localhost.lan:1128/SAPHostControl/` | medium; not executed | HostAgentClient.DoubleRewriteCorruptsEndpoint | HostAgentClient.ServiceAddressRewritesFirstOnly |

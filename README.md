# axo_vpn_bot reconciliation core, in Dafny

This project models the server-side core of axo_vpn_bot, a Telegram bot that rents
WireGuard VPN connections. Each rented connection is a row in the `vpn_connections`
table and a client file `wg0-client-<n>.conf` in `/root` on a VPN server.

The model covers the parts of the bot that keep those two sides in agreement:

- **Config parsing and canonicalisation.** This is the WireGuard client configuration
  parser (`Config`, `_parse_config`) and the canonical re-emitter (`create_config`,
  `add_allowed_ips`). Both the newer `ConfigBuilder` and the older `ConfigManager` are
  modelled.
- **Remote host.** The SSH session (`ServerConnection`) is modelled against an explicit
  host state: routes used as a freeze list, server peer configs (written and live),
  files in `/root`, `/etc/wireguard/params`, a key generator and a command log.
- **Operations on one remote host.** Collect client configs, freeze and unfreeze a
  client address, and rotate a client's keys (`regenerate_config`). Both the newer and
  the older code are modelled.
- **Three reconciliation passes**, each in its newer (`managers/`) and its older form:
  - **config pass:** server files to database rows;
  - **lease lifecycle pass:** freeze an expired lease; recreate and release a slot
    five days after expiry;
  - **payment pass:** reject, or activate and extend, from the payment gateway's bill
    status.
- **Bot handlers:**
  - bill creation with slot reservation;
  - the 13:00 expiration notifier;
  - the price table and device-count stepper;
  - the Russian plural helpers.

The database is a `Store` class whose methods update maps of connection and bill
records. A pass is a method over the `Store` and a map of hosts. Each method is proved
equal to a pure specification function of the old state, and the lemmas state what the
source promises about those functions.

Time is integer seconds. A day is 86400 s. The grace period is five days. The remote
side's failures (a dropped connection, a non-zero exit status) are inputs, attached to
positions in the host's command log.

## Model

| member | source | states |
|---|---|---|
| Text.Split | server_manager/configuration/base.py:63 | `str.split` on one character yields at least one piece, and no piece contains the separator |
| Text.JoinSplit | server_manager/configuration/base.py:17-19 | joining the split rows with newlines gives back the original text (`config_text` is lossless) |
| Text.SplitJoin | server_manager/configuration/base.py:63 | splitting a join of separator-free pieces gives back exactly those pieces |
| Text.Strip | server_manager/configuration/manager.py:25 | `strip()` leaves no whitespace at either end (CPython's whitespace set) |
| Text.RStrip | server_manager/configuration/manager.py:25 | the result is a prefix of the input, does not end in whitespace, and only whitespace was removed |
| Text.LStrip | server_manager/configuration/manager.py:25 | the result is a suffix of the input, does not start with whitespace, and only whitespace was removed |
| Text.RStripIdempotent | server_manager/configuration/manager.py:25 | stripping twice equals stripping once |
| WgConfig.ClientNameMatch | server_manager/configuration/base.py:65-66 | a captured client name is a digit run d with the file name starting `wg0-client-` d `.conf` |
| WgConfig.ClientNameMatchComplete | server_manager/configuration/base.py:65-66 | whenever some digit run matches the file-name pattern, the match yields it (with `ParseClientName`, the capture is exact) |
| WgConfig.ParseClientName | server_manager/configuration/base.py:65-66 | the parsed client name is non-empty iff the file name matches the pattern, and then it is the captured digits |
| WgConfig.AddressSearchMax | server_manager/configuration/base.py:70 | the greedy `(\S+)/32,(\S+)/128` search picks the rightmost split points, as backtracking does |
| WgConfig.MatchAddressSound | server_manager/configuration/base.py:70 | a matched Address line starts with `Address = a/32,b/128`, where a and b are non-empty and contain no whitespace |
| WgConfig.MatchAddressRow | server_manager/configuration/base.py:70 | re-emitting a matched address row and matching it again gives the same pair |
| WgConfig.EmptyAddressRowNoMatch | server_manager/configuration/base.py:70 | the row `Address = /32,/128` does not match, so empty addresses are not re-read |
| WgConfig.EndpointSearchMax | server_manager/configuration/base.py:74 | the greedy `(\S+):(\S+)` split is at the last colon that leaves a non-empty port |
| WgConfig.MatchEndpointLastColon | server_manager/configuration/base.py:74 | a matched Endpoint line has a non-empty host and port without whitespace, and no colon in the port before its last character |
| WgConfig.EndpointGroupsAt | server_manager/configuration/base.py:74 | the split is at colon i whenever no later colon leaves a non-empty port |
| WgConfig.MatchDnsRow | server_manager/configuration/base.py:77-79 | re-emitting a matched DNS list and matching it again gives the same list |
| WgConfig.LastHit | server_manager/configuration/base.py:68-79 | a found value is the match of some row |
| WgConfig.LastHitIsLast | server_manager/configuration/base.py:68-79 | the value found is the match of the last matching row |
| WgConfig.LastMatchWins | server_manager/configuration/base.py:68-79 | parsing keeps rows, name and client name; each field holds its last matching row's groups, or keeps its old value when no row matches |
| WgConfig.ParseKeepsText | server_manager/configuration/base.py:62-64 | the parsed rows are the newline split, and `config_text` gives the input back |
| WgConfig.ParseLastAddress | server_manager/configuration/base.py:69-72 | when row k is the last matching Address row, the parsed v4/v6 are its groups |
| WgConfig.ParseConfig | server_manager/configuration/base.py:68-81 | the loop over rows computes the parse, and the config text round-trips |
| WgTypes.Endpoint | server_manager/server/types.py:21-23 | the endpoint is the public IP, a colon and the port |
| WgTypes.EndpointRoundTrip | server_manager/server/types.py:21-23 | the Endpoint regex reads back an endpoint's IP and port when the port has no colon |
| WgTypes.MatchPair | server_manager/server/connection.py:72 | one `KEY=value` match consumes at least one character and stays within the text |
| WgTypes.FindPairsLines | server_manager/server/connection.py:72 | `findall` over `KEY=value` lines returns exactly those pairs in order |
| WgTypes.Lookup | server_manager/server/connection.py:73 | a key is found iff it is among the pair keys |
| WgTypes.BuildParams | server_manager/server/types.py:4-19 | `WGParams(**dict)` succeeds iff the keys are exactly the ten field names, and then every field is found |
| WgTypes.ParamsRoundTrip | server_manager/server/connection.py:68-73 | reading a well-formed params file back gives the same `WGParams` |
| WgTypes.ParamsMissingKey | server_manager/server/connection.py:73 | a params file missing any field name fails to build `WGParams` |
| WgTypes.FieldNamesDistinct | server_manager/server/types.py:4-19 | the ten field names are pairwise distinct |
| Builder.Rendered | server_manager/configuration/manager.py:12-23 | one output row per input row |
| Builder.AccumulatedLines | server_manager/configuration/manager.py:11-23 | the accumulated string is the rendered rows each followed by a newline |
| Builder.RenderKeepsKind | server_manager/configuration/manager.py:13-23 | rewriting a row (and right-stripping it) keeps its kind: Address, DNS, AllowedIPs or other |
| Builder.StripLines | server_manager/configuration/manager.py:25 | `strip()` of the accumulated text drops the trailing blank rows and right-strips the last content row |
| Builder.CanonicalIsRows | server_manager/configuration/manager.py:10-25 | the canonical text is a newline join of the canonical rows, with at least one row |
| Builder.ParsedAddressRow | server_manager/configuration/manager.py:13-14 | the re-emitted Address row matches with the parsed pair, which is the last matching row's pair |
| Builder.CanonicalAddressKept | server_manager/configuration/manager.py:13-14 | every matching Address row is still in the canonical rows, and still matches |
| Builder.CanonicalAddressValue | server_manager/configuration/manager.py:13-14 | every matching Address row of the canonical output carries the parsed address |
| Builder.CanonicalDnsKept | server_manager/configuration/manager.py:16-17 | every matching DNS row is still in the canonical rows, and still matches |
| Builder.CanonicalDnsValue | server_manager/configuration/manager.py:16-17 | every matching DNS row of the canonical output carries the parsed DNS list |
| Builder.ReparseSameAddress | server_manager/configuration/manager.py:13-14 | parsing the canonical rows gives back the same client v4 and v6 |
| Builder.ReparseSameDns | server_manager/configuration/manager.py:16-17 | parsing the canonical rows gives back the same DNS list |
| Builder.CanonicalFixpoint | server_manager/configuration/manager.py:10-25 | re-canonicalising the canonical rows reproduces the same text |
| Builder.CanonicalIdempotent | server_manager/configuration/manager.py:10-25 | parse-then-`create_config` is idempotent on texts that do not start with whitespace |
| Builder.AllowedRowAfterAdd | server_manager/configuration/manager.py:27-28 | after `add_allowed_ips`, the AllowedIPs row lists the old networks followed by the added ones |
| Builder.AllowedIps.constructor | server_manager/configuration/base.py:23-56 | the shared allowed list starts as the 32 default networks |
| Builder.DefaultAllowedIpsShape | server_manager/configuration/base.py:23-56 | the default list has 32 networks, ending with the tunnel host `10.66.66.1/32` and the whole IPv6 space `::/0` |
| Builder.ConfigBuilder.constructor | server_manager/configuration/base.py:58-59 | the builder holds the parse of its text, which round-trips, and shares the given allowed list |
| Builder.ConfigBuilder.CreateConfig | server_manager/configuration/manager.py:10-25 | the loop returns the canonical text |
| Builder.ConfigBuilder.AddAllowedIps | server_manager/configuration/manager.py:27-28 | the shared list grows by the given networks, in place, for every builder sharing it |
| Remote.Listed | server_manager/server/connection.py:19-21 | the listing names only files in `/root` whose names contain `wg0-client` |
| Remote.ClientFiles | server_manager/server/connection.py:22 | one `wg0-client-<d>.conf` name per digit run, in order |
| Remote.FindClientFilesSound | server_manager/server/connection.py:22 | every name `findall` returns is `wg0-client-` + a non-empty digit run + `.conf` |
| Remote.FindClientFilesListing | server_manager/server/connection.py:22 | on a listing of client-file names, `findall` returns exactly those names in order |
| Remote.FindClientFilesHead | server_manager/server/connection.py:22 | a listing line that is a client-file name is found first, then the rest of the listing is searched |
| Remote.SedRemovesHeader | server_manager/server/connection.py:135 | after `sed /^### Client n$/,/^$/d` no line equals the header |
| Remote.SedKeepsOthers | server_manager/server/connection.py:135 | a file without the header is left unchanged |
| Remote.SedAppend | server_manager/server/connection.py:135 | sed works line by line: on a concatenation it continues from the range state left after the first part |
| Remote.SedOpenToEnd | server_manager/server/connection.py:135 | an open range with no blank line deletes to the end of the file |
| Remote.Exec | server_manager/server/connection.py:21-24 | every command is appended to the log, and the faults are unchanged |
| Remote.Run | server_manager/server/connection.py:134-139 | a lost connection always raises; a non-zero exit raises iff `check=True` |
| Remote.RunQuiet | server_manager/server/connection.py:134-139 | with no fault at this step, the result is the command's natural effect and reply |
| Remote.RunPopKey | server_manager/server/connection.py:78-84 | `wg genkey`/`wg genpsk` return the next generated key followed by a newline |
| Remote.RunPubKey | server_manager/server/connection.py:80-83 | `wg pubkey` returns the public key of the given private key |
| Store.Released | server_manager/managers/payment_control.py:66 | the slot has no owner, no lease end and is unavailable; server, address, config and file name are kept |
| Store.Unassigned | server_manager/managers/config_manager.py:57-73 | a new record has no owner, is unavailable, has no lease end, and carries the file's server, address, text and name |
| Store.TheMember | db/models.py:46 | the value of a one-row result is its single member |
| Store.LookupSpec | db/models.py:40-50 | `get` finds nothing iff no row matches, returns the id iff exactly one row matches, and raises iff several match |
| Store.Linked | db/models.py:169-171 | the bill's linked connections are existing records with their current values |
| Store.Store.constructor | db/models.py:130-139 | the store holds the given tables, and every id is below the next id |
| Store.Store.Get | db/models.py:40-50 | the lookup result is `LookupSpec` of the current table |
| Store.Store.All | db/models.py:64-75 | the rows listed are exactly the table's records, each once |
| Store.Store.AllBills | server_manager/managers/payment_control.py:28-30 | every bill listed once, with its linked connections loaded |
| Store.Store.GetFree | db/models.py:142-152 | at most `limit` ids of free slots on the server, distinct |
| Store.Store.Find | db/models.py:40-50 | a record is found iff its id exists, and it is that record |
| Store.Store.CreateConn | db/models.py:20-24 | a fresh id is allocated and only that record is added |
| Store.Store.UpdateConn | server_manager/managers/config_manager.py:75-83 | only the given record is replaced |
| Store.Store.AddBill | db/models.py:27-30 | a fresh id is allocated and only that bill is added |
| Store.Store.DeleteBill | server_manager/managers/payment_control.py:68 | only that bill is removed |
| Connection.Raise | server_manager/server/connection.py:29-46 | a lost connection becomes ConnectionLost, and exit status s becomes ProcessError(s) |
| Connection.Swallow2 | server_manager/server/connection.py:33-36 | a route command succeeds, or fails only with exit status 2, iff no exception escapes |
| Connection.PeerBlockLines | server_manager/server/connection.py:117-122 | `echo -e` of the peer block writes exactly the expected lines |
| Connection.PeerBlockShape | server_manager/server/connection.py:117-122 | the block starts with a blank line and the header, and has no later blank or header line |
| Connection.RemoveAppendedPeer | server_manager/server/connection.py:135 | deleting a peer that was just appended leaves the file as before plus one blank line |
| Connection.ReplacedPeerOnce | server_manager/server/connection.py:114-139 | delete-then-append leaves exactly one header for the client |
| Connection.CatAllNext | server_manager/server/connection.py:23-26 | a successful `cat` appends the parsed file to the collected list; a failed one stops collection |
| Connection.CatAllStops | server_manager/server/connection.py:23-26 | after a raise, the remaining files are not read |
| Connection.StripKeyLine | server_manager/server/connection.py:79 | stripping a key's output line gives back the key |
| Connection.ParamsSpecRun | server_manager/server/connection.py:68-73 | reading params logs one command, and yields the parsed params or a mismatch error |
| Connection.KeyPairRun | server_manager/server/connection.py:75-90 | the key pair is the stripped private key, its stripped public key and the stripped preshared key |
| Connection.ClientLinesSplit | server_manager/server/connection.py:96-105 | the new client file is the ten template lines |
| Connection.RegenerateClean | server_manager/server/connection.py:48-66 | without faults the rotation logs the ten commands in order and replaces the peer in the server config, which is live; the old client file is replaced by the new text |
| Connection.RegenerateKeepsAddress | server_manager/server/connection.py:96-112 | the regenerated file reparses to the same client v4, v6 and client name |
| Connection.RegenerateSameName | server_manager/server/connection.py:112 | the new builder keeps the file name and the client name |
| Connection.RegeneratedFile | server_manager/server/connection.py:48-66 | after rotation the server config has exactly one peer for the client and is live, and the client file holds the new text |
| Connection.RegenerateOnePeer | server_manager/server/connection.py:48-66 | on any parsed config, rotation succeeds and leaves one live peer for that client |
| Connection.MissingKeyChangesNothing | server_manager/server/connection.py:50 | a params file missing a field stops rotation before anything on the server changes |
| Connection.FreezeClean | server_manager/server/connection.py:38-46 | freezing adds the address to the route list |
| Connection.UnfreezeClean | server_manager/server/connection.py:28-36 | unfreezing removes the address from the route list |
| Connection.FreezeIdempotent | server_manager/server/connection.py:38-46 | a second freeze succeeds (exit status 2 is swallowed) and changes nothing; unfreezing undoes a fresh freeze |
| Connection.ServerConnection.constructor | server_manager/server/base.py:14-24 | a session on the host with no collected configs |
| Connection.ServerConnection.Run | server_manager/server/connection.py:21 | one remote command, as `Remote.Run` |
| Connection.ServerConnection.CollectConfigs | server_manager/server/connection.py:18-26 | the collected configs grow by `CollectSpec` of the host |
| Connection.ServerConnection.FreezeConnection | server_manager/server/connection.py:38-46 | host and result are `FreezeSpec` |
| Connection.ServerConnection.UnfreezeConnection | server_manager/server/connection.py:28-36 | host and result are `UnfreezeSpec` |
| Connection.ServerConnection.GetWgParams | server_manager/server/connection.py:68-73 | host and result are `ParamsSpec` |
| Connection.ServerConnection.GetKeyPair | server_manager/server/connection.py:75-90 | host and result are `KeyPairSpec` |
| Connection.ServerConnection.RemoveClient | server_manager/server/connection.py:127-139 | host and result are `RemoveClientSpec` |
| Connection.ServerConnection.RestartWireguard | server_manager/server/connection.py:141-147 | host and result are `RestartSpec` |
| Connection.ServerConnection.CreateClientFile | server_manager/server/connection.py:92-112 | host and result are `CreateFileSpec` |
| Connection.ServerConnection.AddClient | server_manager/server/connection.py:114-125 | host and result are `AddClientSpec` |
| Connection.ServerConnection.RegenerateConfig | server_manager/server/connection.py:48-66 | host and result are `RegenerateSpec` |
| LegacyBase.Shown | server_manager/base.py:76-91 | an unset field is shown as the text `None`; a set field is shown as itself |
| LegacyBase.ParsedUnset | server_manager/base.py:76-91 | the address fields are unset iff no Address row matches, and the client name is unset iff the file name does not match |
| LegacyBase.LegacyCanonicalAgrees | server_manager/base.py:76-91 | when address and client name are set, the older `create_config` equals the newer one |
| LegacyBase.LegacyUnsetAddress | server_manager/base.py:76-91 | with no address parsed, the older code writes `Address = None/32,None/128` |
| LegacyBase.LegacyConfigManager.constructor | server_manager/base.py:46-70 | the manager holds the parse of its text and shares the allowed list |
| LegacyBase.LegacyConfigManager.CreateConfig | server_manager/base.py:76-91 | the loop returns the older canonical text |
| LegacyBase.LegacyConfigManager.AddAllowedIps | server_manager/base.py:93-94 | the shared list grows by the given networks |
| LegacyBase.FirstMissing | server_manager/base.py:150-194 | nothing is missing iff every key is present; otherwise the first missing key in order is reported |
| LegacyBase.DictAgrees | server_manager/base.py:150-155 | when `WGParams` would build, the dictionary reads the same values and no key read later is missing |
| LegacyBase.LegacyInstallAgrees | server_manager/base.py:185-212 | the older install steps equal the newer ones |
| LegacyBase.LegacyReplaceAgrees | server_manager/base.py:158-218 | on well-formed params, the older rotation after reading keys equals the newer one |
| LegacyBase.LegacyRegenerateSteps | server_manager/base.py:148-220 | the older rotation reads params and keys, then replaces |
| LegacyBase.LegacyRegenerateAgrees | server_manager/base.py:148-220 | on a parsed config with address and client name, the older rotation equals the newer one |
| LegacyBase.LegacyMissingDnsHalfDone | server_manager/base.py:188 | without `CLIENT_DNS_1` the older rotation raises after deleting the peer and the client file and reloading the server |
| LegacyBase.HalfDoneRotate | server_manager/base.py:168-188 | the deletion, `rm` and reload happen before the missing key is read |
| LegacyBase.LegacyServerConnection.constructor | server_manager/base.py:100-113 | a session on the host with no collected configs |
| LegacyBase.LegacyServerConnection.Run | server_manager/base.py:115-124 | one remote command, as `Remote.Run` |
| LegacyBase.LegacyServerConnection.CollectConfigs | server_manager/base.py:115-124 | the collected configs grow by `CollectSpec` of the host |
| LegacyBase.LegacyServerConnection.FreezeConnection | server_manager/base.py:137-146 | host and result are `FreezeSpec` |
| LegacyBase.LegacyServerConnection.UnfreezeConnection | server_manager/base.py:126-135 | host and result are `UnfreezeSpec` |
| LegacyBase.LegacyServerConnection.RegenerateConfig | server_manager/base.py:148-220 | host and result are `LegacyRegenerateSpec` |
| LegacyBase.LegacyServerConnection.ReplaceFrom | server_manager/base.py:168-220 | host and result are `LegacyReplace` |
| ConfigSync.FileSync | server_manager/managers/config_manager.py:30-46 | one file raises iff several records match its server and v4, and the database stays well-formed |
| ConfigSync.FilesSync | server_manager/managers/config_manager.py:29-46 | the database stays well-formed |
| ConfigSync.ServerSync | server_manager/managers/config_manager.py:20-46 | the database stays well-formed |
| ConfigSync.TaskSpec | server_manager/managers/config_manager.py:20-46 | the database stays well-formed |
| ConfigSync.Task | server_manager/managers/config_manager.py:20-46 | the pass computes `TaskSpec`, and bills are untouched |
| ConfigSync.SyncServer | server_manager/managers/config_manager.py:22-46 | one server's pass computes `ServerSync` |
| ConfigSync.SyncFiles | server_manager/managers/config_manager.py:29-46 | the file loop computes `FilesSync` |
| ConfigSync.SyncFile | server_manager/managers/config_manager.py:30-40 | one file computes `FileSync`, and raises iff `FileSync` does |
| ConfigSync.CreateNewConnection | server_manager/managers/config_manager.py:57-73 | exactly one unassigned record is added, carrying the canonical text |
| ConfigSync.UpdateConnection | server_manager/managers/config_manager.py:75-83 | only the record's text changes, to the raw file text |
| ConfigSync.NewFileCreatesOne | server_manager/managers/config_manager.py:33-34 | an unknown file adds one fresh unassigned record with its server, address, canonical text and name |
| ConfigSync.DriftUpdatesText | server_manager/managers/config_manager.py:37-40 | a known file whose record differs has the record's text set to the file text and nothing else changed |
| ConfigSync.InSyncNoWrite | server_manager/managers/config_manager.py:37-40 | a record equal to its file text is not written |
| ConfigSync.SettlesAfterTwoPasses | server_manager/managers/config_manager.py:33-40 | a new file is stored canonically, rewritten to the raw text at most once, and then stable |
| ConfigSync.FilesKeepOwnership | server_manager/managers/config_manager.py:29-46 | the pass never changes a record's owner, availability, lease end, server or address |
| ConfigSync.FailedServerUnchanged | server_manager/managers/config_manager.py:42-46 | a server whose collection raises changes nothing |
| ConfigSync.LaterServersStillRun | server_manager/managers/config_manager.py:42-46 | one server's exception does not stop the later servers |
| ConfigSync.TaskSplit | server_manager/managers/config_manager.py:23 | the pass over the servers is a left fold |
| ConfigSync.FilesStop | server_manager/managers/config_manager.py:29-46 | after a file raises, the rest of that server's files are skipped |
| ConfigSync.SameMatches | server_manager/managers/config_manager.py:75-83 | updating a record's text does not change which records match |
| ConfigSync.OnlyNewMatches | server_manager/managers/config_manager.py:57-73 | after creation the new record is the only match |
| LegacyConfigSync.LegacyFileSync | server_manager/config_manager.py:33-55 | one file raises iff several records match, and the database stays well-formed |
| LegacyConfigSync.LegacyFilesSync | server_manager/config_manager.py:25-58 | the database stays well-formed |
| LegacyConfigSync.LegacyServerSync | server_manager/config_manager.py:15-58 | the database stays well-formed |
| LegacyConfigSync.LegacyTaskSpec | server_manager/config_manager.py:15-58 | the database stays well-formed |
| LegacyConfigSync.LegacyTask | server_manager/config_manager.py:15-58 | the pass computes `LegacyTaskSpec`, and bills are untouched |
| LegacyConfigSync.LegacySyncServer | server_manager/config_manager.py:15-58 | one server's pass computes `LegacyServerSync` |
| LegacyConfigSync.LegacySyncFiles | server_manager/config_manager.py:25-58 | the file loop computes `LegacyFilesSync` |
| LegacyConfigSync.LegacySyncFile | server_manager/config_manager.py:33-55 | one file computes `LegacyFileSync`, and raises iff it does |
| LegacyConfigSync.LegacyFilesStop | server_manager/config_manager.py:57-58 | after a raise the server's remaining files are skipped |
| LegacyConfigSync.SettledNoWrite | server_manager/config_manager.py:50-55 | a record already holding the canonical text is not written |
| LegacyConfigSync.SyncSettles | server_manager/config_manager.py:33-55 | after one file is handled, its record holds the canonical text |
| LegacyConfigSync.SyncKeepsSettled | server_manager/config_manager.py:33-55 | handling one file keeps another address's record settled |
| LegacyConfigSync.FilesSettle | server_manager/config_manager.py:25-55 | after a full pass over distinct addresses, every record holds its canonical text |
| LegacyConfigSync.SettledFilesNoWrite | server_manager/config_manager.py:25-55 | a pass over settled files writes nothing |
| LegacyConfigSync.SecondPassWritesNothing | server_manager/config_manager.py:15-58 | over an unchanged host, a second pass writes nothing |
| LegacyConfigSync.LegacyLaterServersStillRun | server_manager/config_manager.py:57-58 | one server's exception does not stop the later servers |
| LegacyConfigSync.LegacyTaskSplit | server_manager/config_manager.py:15 | the pass over the servers is a left fold |
| Lifecycle.Task | server_manager/managers/vpn_control_manager.py:53-67 | the rows listed are the table's records, and the pass computes `TaskSpec` over them |
| Lifecycle.ProcessConnection | server_manager/managers/vpn_control_manager.py:69-89 | one row computes `Process` |
| Lifecycle.RecreateConnection | server_manager/managers/vpn_control_manager.py:91-137 | one recreation computes `Recreate` |
| Lifecycle.RegenerateRecord | server_manager/managers/vpn_control_manager.py:109-137 | the steps after the freeze compute `AfterFreeze` |
| Lifecycle.StoreRegenerated | server_manager/managers/vpn_control_manager.py:121-137 | the record gets the new text and is released |
| Lifecycle.FreezeConnection | server_manager/managers/vpn_control_manager.py:139-155 | one freeze computes `Freeze` |
| Lifecycle.NotDueUnchanged | server_manager/managers/vpn_control_manager.py:71-73 | a row without lease end, or with one in the future, changes nothing |
| Lifecycle.ProcessCases | server_manager/managers/vpn_control_manager.py:76-82 | more than five days past due recreates; past due within five days freezes; not yet past due changes nothing |
| Lifecycle.FreezeOnlyAvailability | server_manager/managers/vpn_control_manager.py:139-155 | a freeze either changes no record or only sets the row's availability to false after the route was added |
| Lifecycle.FreezeClean | server_manager/managers/vpn_control_manager.py:139-155 | without faults the record becomes unavailable and the address is frozen on its server |
| Lifecycle.RecreateOnlyOnSuccess | server_manager/managers/vpn_control_manager.py:91-137 | records change only when freeze and rotation both succeed |
| Lifecycle.FrozenStillReady | server_manager/managers/vpn_control_manager.py:107-121 | freezing does not disturb what the rotation needs |
| Lifecycle.RecreateReleases | server_manager/managers/vpn_control_manager.py:91-137 | without faults the record holds the new canonical text and is released, and the client is frozen with a fresh peer |
| Lifecycle.ProcessFrame | server_manager/managers/vpn_control_manager.py:69-89 | one row touches only its own record and its own server |
| Lifecycle.TaskKeepsRecords | server_manager/managers/vpn_control_manager.py:53-67 | the pass never creates or deletes records |
| Lifecycle.StepsKeepRecords | server_manager/managers/vpn_control_manager.py:53-67 | a fold of record-preserving steps preserves the record ids |
| Lifecycle.FailedFreezeKeepsRecords | server_manager/managers/vpn_control_manager.py:126-133 | a failed freeze leaves every record unchanged |
| Lifecycle.LaterRowsStillRun | server_manager/managers/vpn_control_manager.py:84-89 | one row's exception does not stop the later rows |
| Lifecycle.TaskSplit | server_manager/managers/vpn_control_manager.py:66-67 | the pass over the rows is a left fold |
| LegacyLifecycle.LegacyTask | server_manager/vpn_control.py:18-98 | the rows listed are the table's records, and the pass computes `TaskSpec` with the older handler |
| LegacyLifecycle.HandleRow | server_manager/vpn_control.py:34-98 | one row computes `LegacyProcess` |
| LegacyLifecycle.LegacyRegenerateRecord | server_manager/vpn_control.py:42-79 | the steps after the freeze compute `AfterFreeze` with the older rotation |
| LegacyLifecycle.LegacyNotDueUnchanged | server_manager/vpn_control.py:34-39 | a row with no lease end, or one in the future, changes nothing |
| LegacyLifecycle.LegacyCases | server_manager/vpn_control.py:42-92 | more than five days past due recreates; otherwise, once the lease end is at or before now, freezes |
| LegacyLifecycle.EndingNowDiffers | server_manager/vpn_control.py:81-92 | a lease ending exactly now is frozen by the older pass and left alone by the newer one |
| LegacyLifecycle.LegacyRecreateAgrees | server_manager/vpn_control.py:42-79 | on a parsed record, the older recreation equals the newer one |
| LegacyLifecycle.LegacyFailedFreezeKeepsRecords | server_manager/vpn_control.py:94-98 | a failed freeze leaves every record unchanged |
| LegacyLifecycle.LegacyTaskKeepsRecords | server_manager/vpn_control.py:18-98 | the pass never creates or deletes records |
| Payments.ReleaseLinked | server_manager/managers/payment_control.py:61-68 | linked slots are released; every other record is kept |
| Payments.Task | server_manager/managers/payment_control.py:27-40 | the bills listed are the table's, and the pass computes `TaskSpec` over them |
| Payments.ProcessingBill | server_manager/managers/payment_control.py:42-59 | one bill computes `ProcessBill` |
| Payments.RejectBill | server_manager/managers/payment_control.py:61-68 | linked slots are released and the bill is deleted |
| Payments.ActivateConnections | server_manager/managers/payment_control.py:70-113 | the loop computes `Activate` |
| Payments.ActivateLink | server_manager/managers/payment_control.py:77-113 | one connection computes `ActivateOne` |
| Payments.ActivateStops | server_manager/managers/payment_control.py:74-113 | after an exception the remaining connections are skipped |
| Payments.NoStatusUntouched | server_manager/managers/payment_control.py:45-47 | with no status from the gateway nothing changes |
| Payments.LapsedNewReleases | server_manager/managers/payment_control.py:50-51 | a rejected or expired new-slot bill releases exactly its linked slots and is deleted |
| Payments.OtherStatusUntouched | server_manager/managers/payment_control.py:49-59 | any other status, or a lapsed extend bill, changes nothing |
| Payments.PaidDeletesOnlyAfterAll | server_manager/managers/payment_control.py:54-56 | a paid bill is deleted iff every activation finished |
| Payments.ActivateKeeps | server_manager/managers/payment_control.py:70-113 | activation never touches bills and never adds or removes records |
| Payments.ActivateOneClean | server_manager/managers/payment_control.py:83-113 | without faults the slot is unfrozen, owned by the payer and available until its old end (or now) plus 31 days per month |
| Payments.MissingServerSkipped | server_manager/managers/payment_control.py:78-81 | a connection whose server is gone is skipped without change |
| Payments.AllServersGoneDeletes | server_manager/managers/payment_control.py:54-56 | a paid bill whose servers are all gone is deleted, and nothing else changes |
| Payments.SkippedAll | server_manager/managers/payment_control.py:74-81 | skipping every connection finishes the loop with no change |
| Payments.ActivateOneAsWritten | server_manager/managers/payment_control.py:78-85 | as written, a missing server raises with no change; otherwise the step is the intended one |
| Payments.MissingServerKeepsBill | server_manager/managers/payment_control.py:78-81 | as written, a paid bill whose first server is gone is never deleted, where the intended pass deletes it |
| Payments.UnknownKindNoUpdate | server_manager/managers/payment_control.py:95-96 | a bill of unknown kind updates no record |
| Payments.FailedUnfreezeRaises | server_manager/managers/payment_control.py:85 | a failed unfreeze raises before the record is updated |
| Payments.LeaseEndLater | server_manager/managers/payment_control.py:99-102 | the new end is at least 31 days after the base, and later than now when the old end was not in the past |
| Payments.TaskSplit | server_manager/managers/payment_control.py:32 | the pass over the bills is a left fold |
| Payments.LaterBillsStillRun | server_manager/managers/payment_control.py:33-40 | a failing paid bill is kept, and the pass continues |
| LegacyPayments.Dropped | server_manager/payment_control.py:32-36 | a rejected slot has no owner and is unavailable, and its lease end is kept |
| LegacyPayments.DropLinked | server_manager/payment_control.py:32-36 | linked slots are dropped; every other record is kept |
| LegacyPayments.LegacyTask | server_manager/payment_control.py:15-69 | the bills listed are the table's (the intended listing), and the pass computes `LegacyTaskSpec` |
| LegacyPayments.LegacyBill | server_manager/payment_control.py:25-69 | one bill computes `LegacyProcessBill` |
| LegacyPayments.LegacyActivate | server_manager/payment_control.py:38-62 | the loop computes `Activate` with the older step |
| LegacyPayments.LegacyActivateLink | server_manager/payment_control.py:40-62 | one connection computes `LegacyActivateOne` |
| LegacyPayments.BillsNeverDeleted | server_manager/payment_control.py:15-69 | the older pass never deletes a bill |
| LegacyPayments.LegacyActivateKeepsBills | server_manager/payment_control.py:38-62 | activation never touches bills |
| LegacyPayments.LegacyLapsedKeepsLease | server_manager/payment_control.py:32-36 | rejection drops the owner but keeps the lease end, where the newer pass clears it |
| LegacyPayments.LegacyPaidBase | server_manager/payment_control.py:48-55 | a new slot's lease starts now; an extension starts from the old lease end |
| LegacyPayments.LegacyMissingServerRaises | server_manager/payment_control.py:40-47 | the older step raises on a missing server, where the newer one skips it |
| Billing.Each | handlers/create_bill.py:78-86 | a batch update keeps every record id and leaves records outside the batch unchanged |
| Billing.EachOnce | handlers/create_bill.py:78-86 | each listed record gets the update exactly once |
| Billing.CreateBillForNewRent | handlers/create_bill.py:33-123 | the ids fetched are free slots on the chosen server, and the store ends as `NewRent` |
| Billing.CreateBillForExistRent | handlers/create_bill.py:127-174 | the store ends as `ExtendRent` |
| Billing.UpdateEach | handlers/create_bill.py:78-86 | the loop computes `Each` |
| Billing.ShortSupplyNothing | handlers/create_bill.py:45-75 | with no server chosen, or too few free slots, nothing changes |
| Billing.NewRentBills | handlers/create_bill.py:78-102 | with a payment form, exactly the fetched slots are reserved and one "new" bill is added for them, with the form expiry and month count |
| Billing.NoFormGivesBack | handlers/create_bill.py:107-117 | without a form, the reserved slots are given back and no bill is added |
| Billing.ExtendNeverTouchesSlot | handlers/create_bill.py:143-162 | extension never changes a record; it adds one "extend" bill for the chosen connection, or nothing |
| Billing.ExtendNoFormNothing | handlers/create_bill.py:167-174 | extension without a form changes nothing |
| Expiration.TimeOfDay | expiration_notifier/manager.py:26-30 | the clock time is within one day |
| Expiration.IsDue | expiration_notifier/manager.py:23-30 | due iff not yet checked today and 13:00 is within five minutes of now |
| Expiration.ShiftedTime | expiration_notifier/manager.py:27-29 | shifting by up to a day wraps the clock time around midnight |
| Expiration.AlertFor | expiration_notifier/manager.py:36-52 | owned slots with a lease end alert iff unavailable or ending within five days; an expiry alert iff unavailable |
| Expiration.AlertDays | expiration_notifier/manager.py:41-50 | the day counts are the floor of the remaining time in days; days left is at most five |
| Expiration.Fanout | expiration_notifier/manager.py:61-71 | one notice per notifier, in order |
| Expiration.NoticesSound | expiration_notifier/manager.py:32-52 | every notice sent is for a listed connection, a real notifier and that connection's alert |
| Expiration.NoticesComplete | expiration_notifier/manager.py:32-52 | every alerting connection is notified by every notifier |
| Expiration.NoticesSkip | expiration_notifier/manager.py:36-37 | a connection without an alert gets no notice |
| Expiration.NoticesStep | expiration_notifier/manager.py:33-52 | the check loop adds each connection's notices in order |
| Expiration.OncePerDay | expiration_notifier/manager.py:24-25 | after a check, no other check is due the same day |
| Expiration.DueEachDay | expiration_notifier/manager.py:26-30 | on a day not yet checked, the check is due exactly from 12:55 to 13:05 |
| Expiration.ExpirationManager.constructor | expiration_notifier/manager.py:12-14 | the manager starts as if yesterday was checked |
| Expiration.ExpirationManager.Notify | expiration_notifier/manager.py:61-71 | the notices sent are `Fanout` |
| Expiration.ExpirationManager.CheckVpnConnections | expiration_notifier/manager.py:32-52 | the notices sent are `Notices` |
| Expiration.ExpirationManager.Tick | expiration_notifier/manager.py:17-20 | when due, the notices are sent and today is recorded; otherwise nothing |
| Pricing.BaseCost | handlers/buy_service.py:40-47 | 50 + 100 per device for new slots, 150 for an extension |
| Pricing.Offers | handlers/buy_service.py:49-137 | seven offers |
| Pricing.BaseMultipleOfFifty | handlers/buy_service.py:40-47 | the base is a multiple of 50, so the 6- and 12-month prices are whole roubles |
| Pricing.OfferedPeriods | handlers/buy_service.py:49-137 | the periods are 1-6 and 12 months, each once |
| Pricing.OfferPrices | handlers/buy_service.py:49-137 | up to five months costs base times months; six and twelve months are discounted |
| Pricing.NextCounts | handlers/buy_service.py:147-164 | decrement offered iff count > 1, increment iff count < 4 |
| Pricing.StepperKeepsRange | handlers/buy_service.py:147-164 | the stepper keeps the device count within 1..4 |
| Pricing.Reachable | handlers/buy_service.py:147-164 | one device is always reachable |
| Pricing.ReachableBounded | handlers/buy_service.py:147-164 | any number of steps stays within 1..4 |
| Pricing.ReachableGrows | handlers/buy_service.py:147-164 | n steps reach every count up to n + 1 |
| Pricing.ReachableRange | handlers/buy_service.py:147-164 | three steps reach exactly 1..4 |
| VerboseNumbers.Reduce | helpers/verbose_numbers.py:2-3 | numbers above 20 reduce to their last digit |
| VerboseNumbers.DaysVerbose | helpers/verbose_numbers.py:1-8 | one of the three forms of "day" |
| VerboseNumbers.MonthVerbose | helpers/verbose_numbers.py:11-19 | one of the three forms of "month" |
| VerboseNumbers.DaysUpToTwenty | helpers/verbose_numbers.py:1-8 | up to 20: 1 is "день", other values ≤ 4 are "дня", 5-20 are "дней" |
| VerboseNumbers.DaysAboveTwenty | helpers/verbose_numbers.py:1-8 | above 20 the last digit decides |
| VerboseNumbers.DaysExamples | helpers/verbose_numbers.py:1-8 | 1, 21, 31 → день; 0, 30, -3 → дня; 11, 25 → дней |
| VerboseNumbers.MonthSameTable | helpers/verbose_numbers.py:11-19 | the month helper follows the day helper's table |
| VerboseNumbers.BuyMonthVerbose | handlers/buy_service.py:191-196 | 1 is "месяц", other values ≤ 4 are "месяца", the rest "месяцев", with no reduction |
| VerboseNumbers.BuyMonthDiffers | handlers/buy_service.py:191-196 | the two month helpers agree up to 20 and disagree at 21 |

## Left out

- `\d` is ASCII only. Python 3's `re` also matches other Unicode decimal digits in file names and params keys.
- `ls -l /root | grep wg0-client` is reduced to the list of matching bare names. Long-listing columns (permissions, size, date) are not modelled; the regex scan of the listing is.
- A `timeout=3` expiry can only be injected as a lost connection or as a non-zero exit. On unchecked commands (`ls`, `cat`, `rm`) an expiry raises in the source, but in the model only a lost connection raises there.
- Several records matching one (server, v4) are modelled as an exception, as `results.one()` raises (db/models.py:46). Which exception is raised is not modelled.
- The notifiers are reduced to a count. `get_user_and_server` and a notifier's own failure are not modelled.
- The older code opens an SSH connection per operation. A failure of that connect step is not modelled separately from a failed command.
- `ConfigBuilder.raw_config` joins a `Config` object, which is not iterable, and raises whenever used. Nothing in the core calls it, so it is not modelled.
- SSH transport, the `run()` polling loops, asyncio sleeps and timeouts, concurrency and races between the passes are not modelled. Each pass is one `task()` call with no concurrent writer.
- A record deleted between `all()` and the per-row `get` in the same pass is not modelled.
- The 6- and 12-month prices use floating point in the source: `round(base_cost * 6 * 0.8)` and `round(base_cost * 12 * 0.7)` (handlers/buy_service.py:118, 132). They are modelled as the exact values `base * 24 / 5` and `base * 42 / 5`, stated multiplied by 5. `BaseMultipleOfFifty` shows that these exact values are whole numbers, so the float product lies within rounding error of a whole number and `round` returns that number; binary floating point itself is not modelled.
- Real dates and times become integer seconds, and local time of day is `now % 86400`. Time zones and daylight saving are not modelled.
- The payment gateway's HTTP client is left out. A bill's status is an input (`None`, or a string). A non-200 reply, which the client turns into the string "None", is modelled as a status that is neither PAID nor lapsed.
- The form expiry (`available_to`, now plus 10 minutes) is modelled as a constant; the form's pay URL and the gateway's bill id are inputs.
- LegacyPayments.Dropped: the older reject writes `available=None` into a non-null boolean column; it is modelled as false.
- Builder.CanonicalIdempotent: requires a text that does not start with whitespace and allowed networks without newlines. The final `strip()` would turn a first row starting with whitespace into a row of a different kind, so the second pass is not a fixpoint there.
- Chat and UI presentation (keyboards, message texts, callback data packing) is not modelled; only the prices, periods, stepper and plural forms that reach the user are.
- `ModelAdmin.update` is a classmethod `update(cls, id_, **kwargs)` whose query always targets the `users` table (db/models.py:32-37). Every instance call passes only keyword arguments, so each one raises TypeError for the missing `id_` before any query is built:
  - server_manager/managers/payment_control.py:66, 109;
  - server_manager/managers/vpn_control_manager.py:121, 137, 155;
  - server_manager/managers/config_manager.py:83;
  - server_manager/vpn_control.py:65, 77, 92;
  - server_manager/payment_control.py:36, 57;
  - server_manager/config_manager.py:55.
  `bill.delete()` calls a method not shown in db/models.py. The model gives every record update and deletion its evident intent: the named record's fields change, or the named bill is removed.
- LegacyPayments.LegacyTask: models the intended listing of bills. As written, the older pass iterates `session.execute(select(ActiveBills)...)` without `.scalars()` (server_manager/payment_control.py:16-21), so each item is a result row, not a bill. `bill.bill_id` then raises AttributeError on every row (line 26). The `except Exception` at line 67 catches it, so the pass as written changes no record and contacts no host. The model's lemmas about this pass (`LegacyPaidBase`, `LegacyLapsedKeepsLease`, `LegacyMissingServerRaises`) describe what it intends.
- `User.get_or_create` (handlers/create_bill.py:43, 89, 141) creates a users row when the Telegram id is new. The users table is not modelled: Billing takes the user's id as an input, and this side effect is left out.
- `ActiveBills.all` is declared as `all(cls, values=None)` (db/models.py:64), but the newer payment pass calls it as `all(select_in_load="vpn_connections")` (server_manager/managers/payment_control.py:28-30). As written, that call raises TypeError outside the pass's `try`. The newer lifecycle pass asks `VPNConnection.all(values=[..., "client_name"])` (server_manager/managers/vpn_control_manager.py:55-62), and the config sync calls `VPNConnection.create(client_name=...)` (server_manager/managers/config_manager.py:65-72); `VPNConnection` has no `client_name` column (db/models.py:130-139). `Store.Store.AllBills`, `Payments.Task`, `Lifecycle.Task` and `Store.Unassigned` model the intended listing and record (bills with their linked connections; a connection record that carries its client name), not these failures.
- Billing.NewRent: models the gateway's answer only as a form or none. `qiwi_payment.create_bill` can also raise on a transport error (qiwi_payment.py:18-30). That happens after the reservation commit (handlers/create_bill.py:78-86), so the rollback in the `else` branch (handlers/create_bill.py:107-117) never runs, and the slots stay held by the user with no bill. The model does not cover this outcome.
- `Server.DoesNotExists` is not defined, and `Server.get` returns None for a missing server. The newer payment pass is modelled as its handler intends, skipping that connection. The as-written behaviour is kept as a finding below. In the lifecycle passes a missing server or record also ends in an exception, and the model gives the same outcome: nothing changes.
- Lifecycle and payment activation use `Connection.RegenerateSpec`/`UnfreezeSpec` on the server's host state. The SSH session's own connect step is not modelled.

## Findings

| source | as written | input that shows it | evidently intended | confidence | as-written member | corrected member |
|---|---|---|---|---|---|---|
| server_manager/managers/payment_control.py:78-81 | `Server.get` returns None for a missing server, `ServerConnection(None)` raises AttributeError, and `except Server.DoesNotExists` does not catch it, so the paid bill is never deleted and fails again on every pass | a PAID bill whose only linked connection's server row has been deleted | skip that connection (`continue`), then delete the bill | high, not executed | Payments.MissingServerKeepsBill | Payments.AllServersGoneDeletes |
| server_manager/base.py:188 | `CLIENT_DNS_1` is read only after the old peer was deleted, the client file removed and the server reloaded (lines 168-182); a params file without that key raises KeyError with the client half-removed | a params file with SERVER_PUB_IP, SERVER_PORT and SERVER_WG_NIC but no CLIENT_DNS_1 | check the params before changing anything, as the newer code does by building `WGParams` first | medium, not executed | LegacyBase.LegacyMissingDnsHalfDone | Connection.MissingKeyChangesNothing |

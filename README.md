# ESP32 captive-portal firmware core, in Dafny

This project models the logic core of an ESP32 firmware. The firmware opens a Wi-Fi access point with a captive portal. It joins a home network as a station, keeps a list of saved places and fetches their weather from Open-Meteo. The model covers:

- **DNS hijack** (`DnsHijack`): the bounded parser and in-place encoder that answers every IN/A question with the portal's address. The wire layout follows RFC 1035: the header of section 4.1.1, the question of section 4.1.2, the resource record of section 4.1.3, the name pointer `0xC00C` of section 4.1.4, TYPE A (section 3.2.2) and CLASS IN (section 3.2.4). Receive and send buffers are 512 and 544 octets (section 2.3.4). The responder's start and stop flags are modelled as a small class.
- **Station state machine** (`WifiSta`): `s_status` as a class with one method per event. It covers connect, the disconnect and got-IP handlers, the retry timer guard and the back-off delay, connecting from the saved credentials, and the two status getters.
- **Locations domain model** (`LocationsModel`, `KccLocationsModel`): add, remove and get-active on a fixed array of 8 places with a count, in place.
- **Storage decoders** (`JsonValue`, `LocationsStorage`, `SettingsStorage`): the saved-places and saved-credentials JSON documents, and the size rule of their encoders. Each parsed JSON object is seen through the keys the code looks up.
- **NVS JSON helpers** (`NvsHelpers`): the error mapping of `nvs_load_json`, `nvs_save_json` and `nvs_erase_key_cfg` over the `cfg` namespace, which the `/api/locations` routes load through.
- **NVS location store** (`StorageLocations`): the id-keyed list kept as a JSON array in NVS, and the active location id beside it.
- **HTTP helpers and routes** (`HttpServer`, `HttpHelpers`, `RoutesApiLocations`):
  - the form-body `key=value` parser and the station-state names;
  - the scan `max` clamp;
  - the body reader and status lines;
  - the decisions of the `/api/locations` POST, DELETE and set-active routes.
- **Open-Meteo client** (`OpenMeteoClient`): the body accumulator with its sticky overflow flag, the outcome precedence of a GET and the forecast-days clamp.
- **Credential persistence** (`AppSettingsPersistence`): load, save and clear of `sta_ssid` / `sta_pass` in the `cfg` NVS namespace.

Integers are unbounded. Where the C code relies on a width (the 16-bit DNS fields, byte values), the model bounds the value explicitly. Coordinates are opaque (`Number`). ESP-IDF error codes are the `EspErr` datatype. Every outcome of a driver, NVS, socket or HTTP-client call is an input of the operation that makes it.

Where a source comment and the code disagree, the model follows the code:

- **DNS flags.** The flags field is always written as `0x81 0x80`, so both RD and RA are set. The comment at `src/dns_hijack.c:88` says RA is 0. The request's own RD bit is not kept.
- **Reply length.** The reply ends at the end of the first question. Any later request bytes are dropped.
- **Station connect.** `wifi_sta_connect` sets CONNECTING before the radio-mode check. A wrong mode therefore returns INVALID_STATE while the status already reads CONNECTING.
- **Retry count.** A disconnect in IDLE still counts a retry and arms the timer.
- **Driver SSID length.** The driver's SSID copy is cut to 31 characters, while the status keeps up to 32.
- **Read-back errors.** `storage_locations_get_first` answers NOT_FOUND for a stored value that is not an array, while `storage_locations_get_by_id` answers FAIL for the same value.
- **Country.** `country` is written by `storage_locations_add` but never read back.
- **Missing namespace.** `nvs_load_json` turns only the read's ESP_ERR_NVS_NOT_FOUND into ESP_ERR_NOT_FOUND. The read-only open of a `cfg` namespace that was never written passes its ESP_ERR_NVS_NOT_FOUND through, and the routes answer that with 500 (see "## Findings").
- **Active id on delete.** `storage_locations_delete_by_id` clears the active id whenever it matched, even when writing the shortened list failed.

## Model

| member | source | states |
|---|---|---|
| DnsHijack.Rd16 | src/dns_hijack.c:37-40 | the value is below 2^16 and its high and low bytes are the two bytes read |
| DnsHijack.Be16OfRd16 | src/dns_hijack.c:37-46 | the two bytes written for a value read back are the bytes it was read from |
| DnsHijack.Rd16OfBe16 | src/dns_hijack.c:37-46 | rd16 of what wr16 stores is the value stored |
| DnsHijack.Wr16 | src/dns_hijack.c:42-46 | stores high byte then low byte at the offset and changes no other byte |
| DnsHijack.SkipName | src/dns_hijack.c:66-77 | the QNAME walk never passes the end of the request; a walk that stops inside it stops just past a zero byte |
| DnsHijack.ParseQuestion | src/dns_hijack.c:50-85 | the question is accepted iff the header has 12 bytes, QDCOUNT is not 0, every label fits and 4 bytes follow the name; QTYPE and QCLASS are the big-endian words there |
| DnsHijack.Reply | src/dns_hijack.c:48-134 | a reply exists exactly when the question parses |
| DnsHijack.CopyRequest | src/dns_hijack.c:58 | the buffer starts with the request and its tail is unchanged |
| DnsHijack.WalkQName | src/dns_hijack.c:66-77 | the in-place label loop ends where SkipName ends, and fails exactly when SkipName fails |
| DnsHijack.WriteReplyHeader | src/dns_hijack.c:87-95 | bytes 0..11 become the request's ID, flags 0x8180, QDCOUNT 1, the given ANCOUNT and zero NSCOUNT/ARCOUNT; the rest is unchanged |
| DnsHijack.WriteAnswer | src/dns_hijack.c:114-133 | the 16 bytes at the offset are the answer record and nothing before it changes |
| DnsHijack.BuildDnsAReply | src/dns_hijack.c:48-134 | returns -1 exactly when the buffer lacks 16 bytes of headroom or the question does not parse; otherwise the reply bytes are Reply's; early rejects leave the buffer untouched |
| DnsHijack.WriteReply | src/dns_hijack.c:87-133 | once the question has parsed, the buffer's first n bytes are exactly Reply: header patched, question echoed, answer appended for IN/A only |
| DnsHijack.ReplyLayout | src/dns_hijack.c:58-133 | ID and question are echoed; flags 81 80, QDCOUNT 1, NSCOUNT = ARCOUNT = 0; IN/A gets ANCOUNT 1 and `C0 0C 00 01 00 01 00 00 00 3C 00 04` plus the IP; any other type or class gets ANCOUNT 0 and ends at the question |
| DnsHijack.ReplyLengthBound | src/dns_hijack.c:54-55 | a reply is at most the request plus 16 bytes, so once the headroom check passes the answer-space check at lines 111-112 cannot fail |
| DnsHijack.SkipNameAgrees | src/dns_hijack.c:66-77 | the walk depends only on the bytes it crosses |
| DnsHijack.ReplyParsesAsRequest | src/dns_hijack.c:58-95 | parsing the reply finds the same question as the request |
| DnsHijack.DnsServer.Start | src/dns_hijack.c:171-215 | starting is a no-op success when running; otherwise it succeeds iff socket, bind and task creation all succeed, and a failure leaves no socket open |
| DnsHijack.DnsServer.Stop | src/dns_hijack.c:217-234 | stop is idempotent and closes the socket of a running responder |
| DnsHijack.DnsServer.ServePacket | src/dns_hijack.c:136-169 | a datagram of at most 512 bytes is answered with exactly Reply, since 544 bytes leave room for the answer |
| WifiSta.InitialStatus | src/wifi_sta.c:19-24 | the boot status is IDLE with no retries and satisfies the invariant |
| WifiSta.RetryDelayMs | src/wifi_sta.c:41-53 | the delay is 1000·(n+1) ms up to n = 9 and 10000 ms from there on |
| WifiSta.StartAttempt | src/wifi_sta.c:258-267 | a fresh attempt is CONNECTING with address 0.0.0.0, no retries and the SSID cut to 32 chars |
| WifiSta.AfterDisconnect | src/wifi_sta.c:78-99 | CONNECTED falls back to CONNECTING with the address cleared; below 10 retries one is counted, at 10 the state becomes FAILED with the count kept |
| WifiSta.DisconnectRetryDelay | src/wifi_sta.c:89-98 | a disconnect arms the timer iff fewer than 10 retries were counted, with the delay of the incremented count |
| WifiSta.AfterGotIp | src/wifi_sta.c:106-132 | got-IP from any state gives CONNECTED with the address recorded and the count reset |
| WifiSta.ApplyAndConnect | src/wifi_sta.c:134-179 | a missing SSID or password is INVALID_ARG; only AP+STA mode reaches the driver, another mode is INVALID_STATE; then disconnect, set_config with a 31/63-char bounded copy and connect, each failure returned |
| WifiSta.EventsKeepInvariant | src/wifi_sta.c:78-132 | every event keeps a 4-byte address, an SSID of at most 32 chars and a count of at most 10 |
| WifiSta.RetryRun | src/wifi_sta.c:78-99 | the first k ≤ 10 disconnects after an attempt leave it CONNECTING with k retries |
| WifiSta.FailsOnEleventhDisconnect | src/wifi_sta.c:89-98 | the 10th disconnect still leaves it CONNECTING; the 11th gives FAILED with count 10 |
| WifiSta.FailedIsSticky | src/wifi_sta.c:94-98 | further disconnects leave a FAILED status unchanged |
| WifiSta.RetryBackoff | src/wifi_sta.c:44-46 | the k-th disconnect arms RetryDelayMs(k) (the count is incremented before scheduling), and the 11th arms nothing |
| WifiSta.BackoffSchedule | src/wifi_sta.c:44-46 | the schedule is 2000, 3000, …, 10000, 10000 ms |
| WifiSta.StaManager.constructor | src/wifi_sta.c:19-24 | the manager starts in the initial status with no timer armed |
| WifiSta.StaManager.ScheduleRetry | src/wifi_sta.c:41-53 | the timer is re-armed with RetryDelayMs(n) only if it exists |
| WifiSta.StaManager.Connect | src/wifi_sta.c:242-268 | an empty or missing SSID is INVALID_ARG with nothing changed; otherwise the pending retry is cancelled, the status becomes StartAttempt before any driver call, and the result and driver calls are ApplyAndConnect's |
| WifiSta.StaManager.OnDisconnected | src/wifi_sta.c:78-99 | the status becomes AfterDisconnect and the timer is armed with DisconnectRetryDelay |
| WifiSta.StaManager.OnGotIp | src/wifi_sta.c:106-132 | the status becomes AfterGotIp; the timer and driver are untouched |
| WifiSta.StaManager.RetryTimerFired | src/wifi_sta.c:28-39 | the timer reconnects iff the state is CONNECTING |
| WifiSta.StaManager.ConnectFromNvs | src/wifi_sta.c:221-240 | NOT_FOUND or an empty SSID sets IDLE and returns NOT_FOUND; another load error is passed on with nothing changed; otherwise it connects as Connect does |
| WifiSta.StaManager.GetStatus | src/wifi_sta.c:270-273 | the copy is the status and satisfies the invariant |
| WifiSta.StaManager.IsConnected | src/wifi_sta.c:275-278 | true iff the state is CONNECTED |
| LocationsModel.IndexOfName | lib/domain/src/locations_model.c:57-65 | the first slot holding the name, or none iff the name is not stored |
| LocationsModel.ClearActive | lib/domain/src/locations_model.c:87-93 | every place keeps everything but its active flag, which is cleared |
| LocationsModel.AfterRemove | lib/domain/src/locations_model.c:42-100 | removal succeeds iff the name is given, non-empty and stored, and removes exactly one place |
| LocationsModel.AfterRemoveAt | lib/domain/src/locations_model.c:73-93 | with the first match at slot i, the result is the list without slot i, flags cleared if that place was active |
| LocationsModel.RemoveActiveClearsAll | lib/domain/src/locations_model.c:87-93 | removing the active place leaves no place active |
| LocationsModel.RemoveInactiveKeepsOthers | lib/domain/src/locations_model.c:75-84 | removing an inactive place keeps the others in order with their flags |
| LocationsModel.CutKeepsInvariants | lib/domain/src/locations_model.c:75-84 | the shift-left cut keeps order, unique names and at most one active place |
| LocationsModel.RemoveKeepsInvariants | lib/domain/src/locations_model.c:42-100 | removal keeps names unique and at most one place active, and the removed name is gone |
| LocationsModel.AppendKeepsInvariants | lib/domain/src/locations_model.c:23-36 | appending a new, inactive name keeps both invariants |
| LocationsModel.Model.constructor | lib/domain/include/locations_model.h:16-20 | an empty model whose 8 slots are zeroed |
| LocationsModel.Model.Add | lib/domain/src/locations_model.c:7-40 | succeeds iff the place is given, the model is below 8 and the name is new; on success the place is copied verbatim into slot count and nothing else changes, otherwise nothing changes |
| LocationsModel.Model.FindName | lib/domain/src/locations_model.c:57-65 | the search loop finds IndexOfName |
| LocationsModel.Model.ShiftLeft | lib/domain/src/locations_model.c:76-79 | slots after the index move down one; slots before it and from count-1 on are unchanged |
| LocationsModel.Model.ClearFlags | lib/domain/src/locations_model.c:89-92 | the places in use become ClearActive of themselves; unused slots are unchanged |
| LocationsModel.Model.CutAt | lib/domain/src/locations_model.c:75-84 | the slot is cut out, the count drops by one and the vacated slot is zeroed |
| LocationsModel.Model.RemoveAt | lib/domain/src/locations_model.c:73-93 | the places become the old ones without the cut slot, with every flag cleared when the cut place was active; the vacated slot is zeroed and later slots keep their contents |
| LocationsModel.Model.Remove | lib/domain/src/locations_model.c:42-100 | succeeds iff AfterRemove does; the places become AfterRemove's and the vacated slot is zeroed; a refusal changes nothing |
| LocationsModel.Model.GetActive | lib/domain/src/locations_model.c:102-119 | the lowest active slot, or none iff no place is active |
| KccLocationsModel.Add | lib/kcc_domain/src/locations_model.c:5-38 | a null model or place is refused; otherwise it succeeds iff below LOCATIONS_MAX (8) with a new name, copying the place into slot count; a refusal changes nothing |
| JsonValue.CopyPrinted | lib/storage/src/locations_storage.c:194-268 | output is produced iff the arguments are present, printing worked and strlen + 1 ≤ out_len, and it is the printed text |
| LocationsStorage.ReadLocationSpec | lib/storage/src/locations_storage.c:17-49 | an element is accepted iff its name is a string, lat/lon are numbers and is_active is a boolean or absent; the name is cut to 31 chars and an absent is_active is false |
| LocationsStorage.ReadAll | lib/storage/src/locations_storage.c:82-95 | all elements are read, in order, or none if one is rejected |
| LocationsStorage.KeepFirstActiveAt | lib/storage/src/locations_storage.c:97-108 | a place stays active only if it was and no earlier place was |
| LocationsStorage.Decode | lib/storage/src/locations_storage.c:82-116 | decoding succeeds iff there are at most 8 elements and all are accepted, one place per element |
| LocationsStorage.DecodeKeepsOrder | lib/storage/src/locations_storage.c:114-115 | decoded places keep stored order, names and coordinates; only active flags may be cleared |
| LocationsStorage.DecodeAtMostOneActive | lib/storage/src/locations_storage.c:97-108 | after decoding at most one place is active |
| LocationsStorage.DecodeKeepsFirstActive | lib/storage/src/locations_storage.c:97-108 | the first stored active place stays active |
| LocationsStorage.Append | lib/storage/src/locations_storage.c:98-115 | one accepted place fills slot count, active only if none was seen, and the seen flag is updated |
| LocationsStorage.DecodeInto | lib/storage/src/locations_storage.c:75-116 | the loop over a zeroed scratch model succeeds iff Decode does and then holds Decode's places |
| LocationsStorage.FromJson | lib/storage/src/locations_storage.c:51-129 | null text or model, malformed text or a missing or non-array "locations" fail; otherwise success iff Decode succeeds; the output is written only on success |
| SettingsStorage.WifiFromJson | lib/storage/src/settings_storage.c:20-59 | succeeds iff text and output are present, the text parses and ssid is a non-empty string; the result fits the buffers and its strings are prefixes of the stored ones |
| SettingsStorage.WifiFromJsonCopies | lib/storage/src/settings_storage.c:43-52 | ssid is cut to 32 chars and pass to 64; a missing or non-string pass reads as "" |
| SettingsStorage.WifiJsonMembers | lib/storage/src/settings_storage.c:112-120 | the encoder writes "ssid", then "pass" or only "pass_len" = strlen(pass) |
| SettingsStorage.WifiRoundTrip | lib/storage/src/settings_storage.c:20-137 | decoding what was encoded gives the credentials back, with an empty password when only its length was written |
| StorageLocations.SaveErr | src/storage_locations.c:45-51 | a save succeeds iff printing, set and commit all succeed; a failed print is NO_MEM |
| StorageLocations.IndexOfId | src/storage_locations.c:92-100 | the first object whose string "id" equals the id, or none iff there is no such object |
| StorageLocations.UpsertShape | src/storage_locations.c:90-141 | an existing id is updated in place with no cap check; a new id is appended unless the list already has max entries |
| StorageLocations.UpsertKeepsUniqueIds | src/storage_locations.c:90-141 | upserting keeps ids unique and never grows a list at the cap |
| StorageLocations.UpdateEntry | src/storage_locations.c:102-106 | the updated entry is still an object with the same id |
| StorageLocations.RemoveAt | src/storage_locations.c:239 | deleting an array item keeps the others in order |
| StorageLocations.RemoveFirstMatchLeavesNone | src/storage_locations.c:220-239 | with unique ids, deleting the first match leaves no entry with that id |
| StorageLocations.AddedReadsBack | src/storage_locations.c:133-139 | a location added and read back keeps lat/lon, has id, name and timezone bounded, and loses its country |
| StorageLocations.FindId | src/storage_locations.c:92-100 | the search loop returns IndexOfId, or -1 iff there is no match |
| StorageLocations.LocationStore.constructor | src/storage_locations.c:53-57 | an empty store with no active id |
| StorageLocations.LocationStore.Save | src/storage_locations.c:109-120 | the result is SaveErr and the list is replaced once set succeeded |
| StorageLocations.LocationStore.Add | src/storage_locations.c:59-156 | open and read errors pass through; a missing or non-array value is an empty list; the saved list is Upsert's, or INVALID_SIZE with nothing stored |
| StorageLocations.LocationStore.GetAll | src/storage_locations.c:158-180 | the stored value or the open/read error |
| StorageLocations.LocationStore.GetActiveId | src/storage_locations.c:493-520 | a null buffer or zero length is INVALID_ARG; an unset id is NVS_NOT_FOUND; an id that does not fit with its NUL is NVS_INVALID_LENGTH |
| StorageLocations.LocationStore.ClearActiveId | src/storage_locations.c:522-534 | the active id is erased and the commit's result returned |
| StorageLocations.LocationStore.DeleteById | src/storage_locations.c:182-265 | an empty id is INVALID_ARG; no list or no match is NOT_FOUND; a non-array is INVALID_STATE; the first match is removed and the active id cleared if it was that id |
| StorageLocations.LocationStore.RemoveById | src/storage_locations.c:286-352 | as delete, but a non-array is FAIL and the active id is never touched |
| StorageLocations.LocationStore.ClearAll | src/storage_locations.c:267-284 | the list is erased; an already-missing key counts as success and the commit's result is returned |
| StorageLocations.LocationStore.GetById | src/storage_locations.c:354-413 | the first object with a matching string id is read back, else NOT_FOUND; a missing list reads as empty; a stored value that is not an array is FAIL |
| StorageLocations.GetByIdErr | src/storage_locations.c:354-413 | get_by_id answers OK iff the open and read succeed (or the list is missing) and the stored array holds the id; FAIL only for a non-array value or a FAIL from NVS |
| StorageLocations.LocationStore.GetFirst | src/storage_locations.c:415-468 | a missing, empty or non-array list is NOT_FOUND; a first element that is not an object or lacks a string id is FAIL |
| StorageLocations.LocationStore.SetActiveId | src/storage_locations.c:470-491 | the active id is set only when get_by_id finds it; get_by_id's error (GetByIdErr) is returned unchanged, then the first failing open, set or commit |
| HttpServer.AmpFrom | src/http_server.c:60 | the first '&' at or after the start, or none iff there is none |
| HttpServer.RawValue | src/http_server.c:59-61 | the value runs from after "key=" up to the next '&' or the end of the body and holds no '&' |
| HttpServer.PlusToSpace | src/http_server.c:70-73 | each '+' becomes a space and nothing else changes |
| HttpServer.FindKvValueSpec | src/http_server.c:47-82 | a value is found iff some token at the body start or after a '&' is the key followed by '='; the first such token wins; the value is cut to out_len-1 chars with '+' as space |
| HttpServer.FindKvFirstField | src/http_server.c:47-82 | a body beginning with "key=value&" yields that value |
| HttpServer.FirstMatchSkip | src/http_server.c:76-80 | a token that does not match moves the search to just past the next '&' |
| HttpServer.NoTokenBefore | src/http_server.c:76-80 | with no '&' between two offsets, no token starts strictly between them, so the jump past the next '&' skips no candidate |
| HttpServer.ScanTokens | src/http_server.c:52-81 | the token loop stops at exactly the first matching token, or finds none iff none matches |
| HttpServer.CopyLen | src/http_server.c:58-63 | the copied length is below out_len and stays inside the body |
| HttpServer.MatchValue | src/http_server.c:58-73 | for the first match, the looked-up value is the '+'-decoded slice of CopyLen chars after the '=' |
| HttpServer.CopyMatch | src/http_server.c:58-73 | out's first CopyLen chars become the '+'-decoded value, followed by a NUL, with the rest of out unchanged |
| HttpServer.CopiedIsValue | src/http_server.c:58-73 | a buffer left as the copy leaves it holds FindKvValue followed by a NUL |
| HttpServer.FindKv | src/http_server.c:47-82 | returns 1 iff FindKvValue finds a value, which is copied NUL-terminated into out with the rest of out unchanged; out is untouched on 0 |
| HttpServer.CopyValue | src/http_server.c:65-66 | the value is copied and NUL-terminated, the rest of out unchanged |
| HttpServer.ReplacePlus | src/http_server.c:70-73 | the copied value becomes PlusToSpace of itself in place |
| HttpServer.StaStateToStr | src/http_server.c:246-261 | codes outside 0..3 are "unknown" and the four states have their names |
| HttpServer.StateNamesDistinct | src/http_server.c:246-261 | distinct states get distinct names, none of them "unknown" |
| HttpServer.ScanMax | src/http_server.c:540-550 | the result is always 1..20; a missing value gives 10; atoi in 1..20 is taken; anything else gives 10 |
| HttpServer.ScanMaxOfDecimal | src/http_server.c:540-550 | a decimal query value n is taken iff 1 ≤ n ≤ 20 |
| HttpHelpers.RecvCount | src/http/http_helpers.c:18-27 | one receive never delivers more than asked or than the peer has left |
| HttpHelpers.CollectsNeedsData | src/http/http_helpers.c:18-27 | a body that is collected was all sent by the peer |
| HttpHelpers.OneChunkCollects | src/http/http_helpers.c:18-27 | a body handed over in one call is collected |
| HttpHelpers.ReadBody | src/http/http_helpers.c:5-34 | succeeds iff request and buffer are present, the buffer has 2+ bytes, 0 < content_len < buf_len and the receives deliver everything; then buf holds the body and a NUL and out_len = content_len |
| HttpHelpers.SetStatusReadsBack | src/http/http_helpers.c:36-62 | the status line of 200/201/400/404/409 reads back as that code and any other code reads back as 500, so a 502 (src/http/routes_api_weather.c:46) is sent as 500 |
| HttpHelpers.KnownStatusReadsBack | src/http/http_helpers.c:38-57 | each of the five named codes gets a status line that reads back as the code |
| HttpHelpers.StatusLineReadsBack | src/http/http_helpers.c:36-62 | a line made of a code's three digits and a space-led reason reads back as the code |
| HttpHelpers.SendJson | src/http/http_helpers.c:64-71 | a null body is sent as "{}" |
| HttpHelpers.SendErrShape | src/http/http_helpers.c:73-82 | the error body starts with `{"ok":false,"error":"`, fits 159 chars, is complete iff the message has at most 136 chars, and a null message reads "error" |
| RoutesApiLocations.Load | src/app/app_locations_persistence.c:11-27 | loading succeeds iff nvs_load_json and decoding succeed; nvs_load_json's error passes through; any failure leaves no places; at most 8 places and one active |
| RoutesApiLocations.LoadInto | src/app/app_locations_persistence.c:11-27 | the model ends holding Load's places and the error is Load's |
| NvsHelpers.LoadJsonErr | src/app/nvs_helpers.c:10-28 | OK iff the arguments, open and read all succeed; INVALID_ARG for bad arguments; a failed open passes through; a read answering NVS_NOT_FOUND (or NOT_FOUND) gives NOT_FOUND; NVS_NOT_FOUND comes back iff the open gave it |
| NvsHelpers.LoadJsonErrIntended | src/app/app_locations_persistence.c:21-26 | the mapping callers rely on: OK as before, never NVS_NOT_FOUND, and NOT_FOUND for a missing namespace as for a missing key |
| NvsHelpers.LoadJsonErrsAgree | src/app/nvs_helpers.c:16-25 | the two mappings differ exactly when the read-only open reports a missing namespace |
| NvsHelpers.SaveJsonErr | src/app/nvs_helpers.c:30-50 | OK iff arguments, open, set and commit succeed; otherwise INVALID_ARG or the first failing call's error |
| NvsHelpers.EraseKeyErr | src/app/nvs_helpers.c:52-66 | INVALID_ARG without a key, a failed open passes through, and once open the commit's answer is returned whatever the erase answered |
| RoutesApiLocations.MissingNamespaceFailsLoad | src/app/nvs_helpers.c:16-18 | a never-written namespace makes the load answer NVS_NOT_FOUND, which is not NOT_FOUND, with no places, so POST, DELETE and PUT take their 500 "load_failed" branch |
| RoutesApiLocations.MissingNamespaceIntendedEmpty | src/app/app_locations_persistence.c:21-26 | with the intended mapping the same namespace loads as NOT_FOUND with no places, the empty-list case of POST and the 404 of DELETE and PUT |
| RoutesApiLocations.NewLocation | src/http/routes_api_locations.c:86-91 | the new place has its name cut to 31 chars and is never active |
| RoutesApiLocations.Post | src/http/routes_api_locations.c:57-120 | 400 for an unreadable body, bad JSON or missing fields; 500 for a load error other than NOT_FOUND, the load error being LoadJsonErr of the NVS open and read; 409 with no save when full or duplicate; otherwise the list plus the new place is saved, answering 201 or 500 |
| RoutesApiLocations.AppendKeepsAtMostOneActive | src/http/routes_api_locations.c:102-107 | adding an inactive place keeps at most one place active |
| RoutesApiLocations.Delete | src/http/routes_api_locations.c:123-169 | 400 without a query or name; 404 when the load answers NOT_FOUND or the name is absent, 500 for another load error, with no save; otherwise AfterRemove's list is saved, answering 200 or 500 |
| RoutesApiLocations.Activate | src/http/routes_api_locations.c:201-214 | only active flags change, and a place is active iff its name equals the one asked for |
| RoutesApiLocations.ActivateSelectsNamed | src/http/routes_api_locations.c:201-214 | with unique names the named place is the one active place; with no match none is active |
| RoutesApiLocations.ActivateInModel | src/http/routes_api_locations.c:201-214 | the in-place loop reports found iff the name is stored and leaves Activate's list |
| RoutesApiLocations.SetActive | src/http/routes_api_locations.c:172-233 | 400 without a query or name; load errors as for DELETE; 404 with no save when the name is absent; otherwise Activate's list is saved, answering 200 or 500 |
| OpenMeteoClient.OverflowSticky | src/openmeteo_client.c:29-30 | once overflow is set no later event changes anything |
| OpenMeteoClient.RunGathersPayload | src/openmeteo_client.c:20-45 | the events overflow iff the whole payload plus NUL exceeds the buffer; otherwise the body is the payload in order; the length stays below the capacity |
| OpenMeteoClient.Accumulator.constructor | src/openmeteo_client.c:49-56 | the body starts empty and NUL-terminated with no overflow |
| OpenMeteoClient.Accumulator.OnData | src/openmeteo_client.c:20-45 | one event does what Step says: non-data or empty chunks and anything after overflow are ignored; a chunk without room sets overflow and leaves the buffer; otherwise it is appended and NUL-terminated |
| OpenMeteoClient.GetStatus | src/openmeteo_client.c:74-90 | overflow is BUF_TOO_SMALL before any transport error; OK iff no overflow, no error and a 2xx status |
| OpenMeteoClient.HttpGet | src/openmeteo_client.c:47-91 | a client that cannot be made is OOM; otherwise the result is GetStatus of the whole transfer, and on OK the buffer holds the whole payload and a NUL |
| OpenMeteoClient.ForecastDays | src/openmeteo_client.c:116-119 | days ≤ 0 become 7, days > 16 become 16, others are kept |
| OpenMeteoClient.FetchCurrent | src/openmeteo_client.c:93-109 | a null or empty buffer is INVALID_ARG; otherwise HttpGet's result |
| OpenMeteoClient.FetchForecast | src/openmeteo_client.c:111-132 | a null or empty buffer is INVALID_ARG and asks nothing; otherwise ForecastDays(days) days are asked |
| AppSettingsPersistence.GetStr | src/app/app_settings_persistence.c:28-32 | nvs_get_str gives NVS_NOT_FOUND iff the key is missing, NVS_INVALID_LENGTH when the value and NUL do not fit, else the value |
| AppSettingsPersistence.LoadAsWritten | src/app/app_settings_persistence.c:28-59 | the password always comes back empty; a missing ssid is NOT_FOUND; OK iff the ssid was read and a password key exists; NVS_NOT_FOUND iff the ssid was read and the password key is missing |
| AppSettingsPersistence.LoadIntended | src/app/app_settings_persistence.c:36-59 | a read password is kept, a missing one is "" with OK, a missing ssid is NOT_FOUND |
| AppSettingsPersistence.SaveLoadLosesPassword | src/app/app_settings_persistence.c:49-52 | saving then loading, as written, returns the ssid with an empty password |
| AppSettingsPersistence.SaveLoadCounterexample | src/app/app_settings_persistence.c:49-52 | "Home"/"pw" saved does not load back as "Home"/"pw" |
| AppSettingsPersistence.SaveLoadIntendedRoundTrip | src/app/app_settings_persistence.c:62-89 | with the intended mapping what is saved is what is loaded |
| AppSettingsPersistence.ClearLoadNotFound | src/app/app_settings_persistence.c:91-106 | after a clear, loading finds NOT_FOUND with empty credentials |
| AppSettingsPersistence.SettingsStore.LoadWifi | src/app/app_settings_persistence.c:12-60 | a null output is INVALID_ARG; a failed open returns its error with zeroed credentials; otherwise the result is LoadAsWritten's and nothing is written |
| AppSettingsPersistence.SettingsStore.SaveWifi | src/app/app_settings_persistence.c:62-89 | a null input or empty ssid is INVALID_ARG; then open, set ssid, set pass and commit, stopping at the first error with the writes made so far |
| AppSettingsPersistence.SettingsStore.ClearWifi | src/app/app_settings_persistence.c:91-106 | once open, both keys are erased and the commit's result is returned |

## Left out

- The DNS responder's socket and task side: the UDP socket, `recvfrom`/`sendto`, errno retries and the FreeRTOS task. Only their success flags and the per-packet build are modelled.
- `wifi_sta_init`, `src/wifi_ap.c`, `src/main.c` and the `esp_timer` itself: driver plumbing. The timer is a pending-delay field. The event handlers run in other contexts without locking; the model treats them as sequential calls.
- Radio outcomes: the radio mode and the results of `esp_wifi_disconnect`, `esp_wifi_set_config` and `esp_wifi_connect` are inputs (`Radio`).
- cJSON parsing and printing, and exact JSON text: a document is modelled by what the code's key lookups find, so `cJSON_GetObjectItem` (case-insensitive) and `cJSON_GetObjectItemCaseSensitive` are both treated as exact-key lookups. The printed size that `to_json` compares is an input of `JsonValue.CopyPrinted`.
- The `measure_json` functions and `lib/storage/src/weather_storage.c`: they only print JSON.
- `GET /api/locations` (src/http/routes_api_locations.c:19-53): it answers 200 with `{"locations":[]}` when the load gives NOT_FOUND, 500 "load_failed" on another load error, 500 "oom" or "json_failed" when the buffer or the printing fails, and otherwise 200 with the printed list. These decisions are not modelled, because the body it sends is the printed JSON.
- Floating point: latitude and longitude are opaque `Number`s; `make_location_id` and the `%.5f` URL formatting of the Open-Meteo requests are not modelled.
- The save path of the routes: `saveErr` is an input. `nvs_save_json`'s own mapping is NvsHelpers.SaveJsonErr, and `app_locations_save` answers ESP_FAIL before it when printing fails.
- NVS commit semantics: a successful `nvs_set_str` or erase is visible at once, and a failed commit does not roll it back. `StorageLocations.Io` bundles the answers of all NVS calls of one operation, so every `nvs_open` of one operation gets the same answer.
- StorageLocations.LocationStore.SetActiveId: its read-write open gets the answer of get_by_id's open, so a failure of only the second open is not modelled.
- `esp_http_client` internals: a GET is the list of events it delivers plus the perform error and status code. `httpd_req_recv` is a list of reported sizes, clipped to what was asked and what the peer sent.
- `httpd_req_get_url_query_str` and `httpd_query_key_value` are inputs: whether the query fitted, and the parameter value or None.
- Bytes and C strings: each `char` of a model string stands for one byte of a C string, and every length cap (the 31, 32, 47 and 64 of `Truncate`, the 159 of `snprintf` in `http_send_err`) counts those bytes. Multi-byte UTF-8 text is a sequence of byte-valued chars, so a cut may fall inside a character as in C. Model strings hold no NUL: a C string ends at its first NUL, which the model does not represent (`find_kv` stops there, `FindKv` sees only the text before it).
- HttpHelpers.SendErr: the message is not JSON-escaped by the source; the model keeps the same text and says nothing about JSON validity.
- HttpServer.FindKv: requires out_len ≥ 1. The C code computes `out_len - 1` and would underflow for 0; every caller passes a fixed, non-empty buffer.
- The `strdup` failure path of `storage_locations_get_all_json` is not modelled, and the optional `out_len` pointer of `http_read_body` is always present.
- src/http/routes_api_wifi.c, src/http/routes_portal.c, src/ui and the HTTP route registration: response wiring only.
- LocationsStorage decoding does not reject duplicate names, as in the source; RoutesApiLocations.Post rejects them, because its add goes through the domain model.

## Findings

| source | as written | input that shows it | evidently intended | confidence | as-written member | corrected member |
|---|---|---|---|---|---|---|
| src/app/app_settings_persistence.c:49-57 | a password that was read is cleared and ESP_OK returned; a missing password returns ESP_ERR_NVS_NOT_FOUND, so `wifi_sta_connect_from_nvs` (src/wifi_sta.c:221-240) never connects without one | save ssid "Home", pass "pw", then load: the result is "Home" / "" with ESP_OK | keep a read password; a missing password reads as "" with ESP_OK | not executed | AppSettingsPersistence.SaveLoadCounterexample | AppSettingsPersistence.SaveLoadIntendedRoundTrip |
| src/app/nvs_helpers.c:16-18 | the read-only open's ESP_ERR_NVS_NOT_FOUND for a `cfg` namespace that was never written is returned as is; only the read's NVS_NOT_FOUND becomes ESP_ERR_NOT_FOUND, so POST /api/locations answers 500 "load_failed" and DELETE and PUT answer 500 instead of 404 | first POST of a place on a device that has never saved credentials or places | a missing namespace reads as NOT_FOUND like a missing key, so the first POST adds to an empty list | not executed | RoutesApiLocations.MissingNamespaceFailsLoad | RoutesApiLocations.MissingNamespaceIntendedEmpty |

# NODE-EMBARQUES core, modelled in Dafny

NODE-EMBARQUES is a bridge between Impinj RFID readers and a shipping front end. Tag
identifiers (EPCs) arrive over an MQTT bus. The bridge looks them up in a small in-memory
catalogue of pallets and re-emits what it found to the browser over socket.io. It also drives
the reader's general-purpose outputs (GPOs 1 and 3, a light or a buzzer), polls each reader's
status, and configures readers through their REST interface.

This project models the deterministic part of the bridge:

- **Epc** (`models/epc.js`): the seed catalogue and the identifier table. Every record is
  stored under five spellings of its `rfid`:
  - the identifier itself;
  - without leading zeros;
  - with a `00` prefix toggled;
  - upper-cased;
  - prefixed with `E2`.

  Permissive mode is on, and the template record is the first catalogue entry.
- **EpcService** (`services/epcService.js`):
  - the resolver `procesarEpc`: an exact lookup, or a fabricated record in permissive mode;
  - `normalizarEpc`;
  - `agregarEpc` and `eliminarEpc` on the shared catalogue and table (class `EpcStore`).
  The last two are modelled as written, next to their corrected versions.
- **Topics** (`config/mqtt.js`): the topic templates and `getTopic`, including the JavaScript
  `replace` semantics of the substituted id.
- **Mqtt** (`services/mqttService.js`):
  - the topic-to-reader parser;
  - the depth-bounded recursive EPC walk;
  - the priority of inventory payload shapes;
  - `processEpcHex`'s three events;
  - the `publish*` envelope builders;
  - the routing of the `'message'` handler.
  Everything is a pure function returning the ordered list of emitted events.
- **Gpo** (`services/gpoService.js`): the single process-wide auto-deactivation timer.
  Class `GpoService` has an abstract clock and an ordered trace of timer calls, PUTs and bus
  messages.
- **GpoController** (`controllers/gpoController.js`): request validation, output-list
  construction and the duration default.
- **Polling** (`services/statusPollingService.js`): the per-reader interval table (class
  `StatusPoller`) and what a status query emits and how its promise settles.
- **Lector** (`services/lectorService.js`, with the response interceptor of
  `utils/httpClient.js`):
  - the reader registry with its fallback;
  - the request each operation sends;
  - the error object each operation throws.

The HTTP transport is a parameter (`send`, or a `fault` argument saying whether the reader
accepted a PUT). socket.io and the bus are event lists. A bus client is a boolean: whether
`connectMqtt` has run. Wall-clock timestamps are dropped from every payload. JSON values are a
datatype with ordered object members, as `JSON.parse` would produce them.

The model follows the code as written, including:

- a hex string under an `epc…` key is reported twice by the walk;
- an `epcHex` object with its own `toString` member (or an array holding one) cannot be
  logged, so the message ends in `message_processing_error` instead of a report;
- a payload that is not JSON is reported only when the whole text looks like an identifier;
- `desactivarGpos` does not cancel a pending auto-deactivation;
- `agregarEpc` never registers the new record's spellings (see Findings);
- every service error has status 500. The interceptor replaces the HTTP library's error with
  an object that has no `response` field, so `error.response?.status` is always absent.

## Model

| member | source | states |
|---|---|---|
| Strings.Prefix | services/epcService.js:28 | `substring(0, n)` yields the first `min(n, length)` characters of the string |
| Strings.StripLeadingZerosSpec | models/epc.js:49 | `replace(/^0+/, '')` removes exactly the leading run of zeros: the result is a suffix that does not start with `0`, and everything before it is `0` |
| Strings.ToUpperSpec | models/epc.js:60 | upper-casing keeps the length, maps each character independently and leaves no lower-case letter |
| Strings.SplitOn | services/mqttService.js:237 | `split('/')` yields at least one part and no part contains the separator |
| Strings.SplitAtFirst | services/mqttService.js:237 | splitting `a + "/" + b` with no `/` in `a` gives `a` followed by the parts of `b` |
| Strings.IndexOfAfter | config/mqtt.js:20 | a pattern whose first character does not occur in the text before it is first found right after that text, which is where `{reader_id}` sits in every template |
| Strings.IntToDecimal | controllers/gpoController.js:47 | a rendered integer is non-empty and starts with `-` exactly when it is negative |
| Strings.NatToDecimal | controllers/gpoController.js:47 | the decimal rendering of a number is a non-empty string of digits without a leading zero |
| Strings.DecimalRoundTrip | controllers/gpoController.js:47 | reading back the decimal rendering of `n` gives `n` |
| Json.Get | services/mqttService.js:185 | a property read is present exactly when the key is present, and then it is that member's value |
| Json.ConversionExamples | services/mqttService.js:312 | `${v}` throws for an object with its own `toString` member and for an array holding one, and converts an object with only `valueOf` and an array of `null`s |
| Json.SpreadGet | services/mqttService.js:420 | after `{...base, ...extra}` a key reads as its last value in `extra` if there is one, otherwise as in `base` |
| Topics.ParseTopicType | config/mqtt.js:7-14 | only the six template names are topic types |
| Topics.TopicFor | config/mqtt.js:20 | for an id without `$`, the topic is `readers/` + id + the type's suffix |
| Topics.Substitution | config/mqtt.js:20 | without `$` in the replacement, `replace` inserts the replacement verbatim |
| Topics.ReplaceFirst | config/mqtt.js:20 | a string pattern that does not occur leaves the text unchanged; otherwise only its first occurrence is replaced, by the replacement itself when that holds no `$` |
| Topics.GetTopic | config/mqtt.js:16-21 | an unknown type throws `Tipo de topic '…' no definido`; a known type gives the template with the id, `reader1` by default |
| Topics.GetTopicExamples | config/mqtt.js:8-13 | `status`, `gpos` and `all` become `readers/id/status`, `readers/id/gpos/events` and `readers/id/#` |
| Epc.Toggle00 | models/epc.js:53-57 | a `00` prefix is dropped when present and added otherwise |
| Epc.Variants | models/epc.js:44-63 | five spellings per record, the first being `rfid` itself |
| Epc.Register | models/epc.js:44-64 | registering a record keeps every existing key and maps the record's own `rfid` to it |
| Epc.RegisterSpec | models/epc.js:44-64 | registering a record adds exactly its spellings, maps each to the record, and keeps every other key |
| Epc.TableOf | models/epc.js:41-64 | the last record of the catalogue always owns its own `rfid` in the table |
| Epc.BuildMapa | models/epc.js:41-64 | the loop over the catalogue builds the table `TableOf(catalogue)`, and every value is a catalogue record |
| Epc.TableValues | models/epc.js:44-64 | every value in the table is a catalogue record |
| Epc.TableCoversVariants | models/epc.js:44-64 | every spelling of every catalogue record is a key |
| Epc.TableKeys | models/epc.js:44-64 | a key is in the table exactly when it is a spelling of some catalogue record |
| Epc.TableValuesInCatalog | models/epc.js:44-64 | whatever a key resolves to is in the catalogue |
| Epc.TableLastWriterWins | models/epc.js:44-64 | a key shared by several records resolves to the last of them in catalogue order |
| EpcCatalogue.StripZerosPrefix | models/epc.js:49 | stripping a run of zeros in front of a tail that does not start with `0` gives the tail |
| EpcCatalogue.PaddedVariants | models/epc.js:44-63 | for a `000`-padded all-digit identifier, the five spellings are four keys (upper-casing changes nothing) |
| EpcCatalogue.PaddedKeysCount | models/epc.js:44-63 | those four keys are distinct |
| EpcCatalogue.PaddedKeysDisjoint | models/epc.js:44-63 | two different padded identifiers share no key |
| EpcCatalogue.ThreeRecordKeys | models/epc.js:44-64 | a three-record catalogue's keys are the union of its records' four keys |
| EpcCatalogue.ThreeRecordOwners | models/epc.js:44-64 | with distinct identifiers, each of a record's keys resolves to that record |
| EpcCatalogue.SeedPadded | models/epc.js:4-38 | the three shipped records have distinct `000`-padded all-digit identifiers |
| EpcCatalogue.SeedKeys | models/epc.js:4-64 | the shipped table's keys are the three records' four keys each |
| EpcCatalogue.SeedKeyCount | models/epc.js:4-64 | the shipped table holds exactly 12 keys |
| EpcCatalogue.SeedOwners | models/epc.js:4-64 | each of the 12 shipped keys resolves to its own record |
| EpcService.ProcesarEpc | services/epcService.js:6-44 | valid exactly when the key is in the table or permissive mode is on; a known key yields its record; otherwise the result is fabricated; `info` is present exactly when valid; `epc` echoes the input |
| EpcService.FabricatedRecord | services/epcService.js:21-35 | a fabricated record is the template with `rfid` and `rfidOriginal` set to the input and `claveProducto` set to `AUTO-` followed by a prefix of the input of at most six characters; the other fields are the template's |
| EpcService.ProcesarVariant | services/epcService.js:11-18 | any spelling of a catalogue record that no later record shares resolves to that record, without fabrication |
| EpcService.ProcesarPermisivoAlwaysValid | services/epcService.js:21-35 | in permissive mode every identifier is valid and carries a record |
| EpcService.KeepAlnum | services/epcService.js:49 | the filtered string keeps only ASCII letters and digits, taken from the input; a single character is kept exactly when it is one |
| EpcService.KeepAlnumAppend | services/epcService.js:49 | the global replace works character by character: filtering `a + b` is filtering `a`, then `b` |
| EpcService.NormalizarEpc | services/epcService.js:47-55 | a normalised identifier is no longer than the input and holds only `[A-Z0-9]` |
| EpcService.NormalizarFixes | services/epcService.js:47-55 | a string of `[A-Z0-9]` is its own normal form |
| EpcService.NormalizarIdempotent | services/epcService.js:47-55 | normalising twice is normalising once |
| EpcService.Agregar | services/epcService.js:63-95 | a missing field or a known `rfid` throws and changes nothing; otherwise the record is pushed and the call throws a `ReferenceError` with the table unchanged |
| EpcService.AgregarLeavesTableStale | services/epcService.js:75-78 | after such an add the new record is in the catalogue but its `rfid` does not resolve: catalogue and table disagree |
| EpcService.AgregarCorregido | services/epcService.js:63-95 | corrected add: succeeds exactly when the fields are present and the `rfid` is new; appends the record and maps all its spellings to it |
| EpcService.AgregarCorregidoConsistent | services/epcService.js:63-95 | the corrected add keeps the table equal to the table of the catalogue |
| EpcService.FindIndex | services/epcService.js:117 | `findIndex`: the first index whose `rfid` matches, or -1 when none does |
| EpcService.SpliceOne | services/epcService.js:118 | `splice(i, 1)` removes element `i`; `splice(-1, 1)` removes the last element |
| EpcService.Eliminar | services/epcService.js:98-121 | an unknown key throws `El EPC … no existe` and changes nothing; a known key returns `true` |
| EpcService.EliminarEffect | services/epcService.js:104-118 | removal deletes exactly four spellings of the argument, keeps every other entry, and shortens a non-empty catalogue by one |
| EpcService.EliminarKeepsE2 | services/epcService.js:104-114 | the `E2` spelling survives a removal and still resolves to its record |
| EpcService.EliminarVariantDropsLast | services/epcService.js:117-118 | removing by a key that is no record's own `rfid` splices out the last catalogue record |
| EpcService.EliminarCanonical | services/epcService.js:117-118 | removing by a record's own `rfid` splices out the first record carrying it |
| EpcService.RemoveFirst | services/epcService.js:117-118 | the catalogue loses exactly the first record carrying the identifier, and is unchanged when none carries it |
| EpcService.EliminarCorregido | services/epcService.js:98-121 | corrected removal: an unknown identifier fails with `El EPC … no existe` and changes nothing; otherwise it answers `true`, deletes all five spellings of the resolved record, keeps every other table entry unchanged, and splices out of the catalogue exactly the first record carrying that record's `rfid` (nothing when none carries it) |
| EpcService.EliminarCorregidoRemovesRecord | services/epcService.js:117-118 | in a consistent store, the corrected removal splices out a record carrying the resolved record's `rfid` |
| EpcService.NewRecordLast | services/epcService.js:74-118 | a record with fresh spellings pushed onto a consistent catalogue is the first to carry its `rfid`, so removing the first such record gives back the catalogue |
| EpcService.AgregarEliminarCorregidoRoundTrip | services/epcService.js:63-121 | corrected add followed by corrected remove of the same identifier gives back the original store |
| EpcService.AgregarEliminarRoundTripFails | services/epcService.js:63-121 | as written, removing a just-added identifier throws and the record stays in the catalogue |
| EpcService.SeedResolvesStripped | services/epcService.js:11-18 | the first shipped record's stripped identifier resolves to that record |
| EpcService.SeedKeysLead | services/epcService.js:11-18 | every shipped key starts with a digit or `E` |
| EpcService.SeedFabricates | services/epcService.js:21-35 | with the shipped catalogue, an identifier starting with anything else is fabricated from the first record |
| EpcService.AutoClaveExample | services/epcService.js:28 | `FFFFAAAA1111` becomes product `AUTO-FFFFAA` |
| EpcService.ThreeRecordEliminarStripped | services/epcService.js:98-121 | in a three-record padded catalogue, removing the first record by its stripped identifier splices out the third record, and the first record's own `rfid` still resolves |
| EpcService.StrippedSpared | services/epcService.js:104-114 | removing a padded identifier's stripped form never deletes the padded identifier itself |
| EpcService.SeedEliminarStripped | services/epcService.js:98-121 | the same holds for the shipped catalogue and `2601014737010` |
| EpcService.EpcStore.constructor | models/epc.js:4-76 | the store starts as the shipped catalogue and its table |
| EpcService.EpcStore.Procesar | services/epcService.js:6-44 | with the shipped permissive mode every identifier resolves valid with a record, the table's own record for a known key |
| EpcService.EpcStore.AgregarEpc | services/epcService.js:63-95 | the in-place add leaves the store and the result that `Agregar` describes |
| EpcService.EpcStore.EliminarEpc | services/epcService.js:98-121 | the in-place removal leaves the store and the result that `Eliminar` describes |
| Lector.GetLectorConfig | services/lectorService.js:6-20 | `reader1` and `reader2` get their registered host and credentials; any other id gets the default configuration |
| Lector.Intercept | utils/httpClient.js:14-26 | the interceptor keeps the message; the status is the reader's when it answered with a non-zero one, else 500; the details are the reader's body when it is truthy, else the message |
| Lector.Rethrow | services/lectorService.js:30-35 | a service rethrows with status 500, its own message, and the interceptor's message as details |
| Lector.RethrowHidesReaderStatus | services/lectorService.js:30-35 | behind the interceptor, a reader's own status never reaches the caller |
| Lector.VerbOf | services/lectorService.js:26-192 | exactly the two reads are GETs; exactly `startReading`, `stopReading` and `reiniciar` are POSTs; the rest are PUTs |
| Lector.BodyOf | services/lectorService.js:26-196 | the reads send no body; the POST commands send `{}`; a PUT lacks a body only for `updateMqttConfig` without a configuration |
| Lector.TagsConfig | services/lectorService.js:117-149 | the installed configuration names client and topic root `impinj` |
| Lector.ErrorMessage | services/lectorService.js:33-201 | every operation's error message ends with the reader's id |
| Lector.PathOf | services/lectorService.js:26-193 | every operation addresses a path under `/api/v1/` |
| Lector.RequestOf | services/lectorService.js:22-205 | each request goes to the configured host of the named reader (`reader1` by default), with that reader's credentials, and carries the operation's verb and body |
| Lector.Perform | services/lectorService.js:22-205 | success exactly when the reader answered; `getStatus` and `getMqttConfig` return the body, the rest `true`; a failure throws 500 with the operation's message naming the reader |
| Lector.StartReadingDefaults | services/lectorService.js:40-47 | with no arguments, `startReading` POSTs `{}` to reader1's `TEST` preset |
| Lector.UnknownReaderUsesFallback | services/lectorService.js:17-19 | an unregistered id addresses the default reader with its credentials |
| Lector.TagsIgnoreClientId | services/lectorService.js:115-126 | `configureMqttForTags` sends the same request whatever `clientId` it is given; the body names client and topic root `impinj` |
| Lector.ConfigureGposBody | services/lectorService.js:189-196 | `configureGpos` PUTs `{gpoConfigurations}` to `/api/v1/device/gpos` |
| Mqtt.ExtractLectorId | services/mqttService.js:235-242 | a reader id taken from a topic never contains `/` |
| Mqtt.ExtractLectorIdSpec | services/mqttService.js:235-242 | a topic names a reader exactly when it starts with `readers/`; the name contains no `/` |
| Mqtt.ExtractFromReaderTopic | services/mqttService.js:235-242 | `readers/` + id + a `/`-led rest yields id |
| Mqtt.TopicRoundTrip | config/mqtt.js:20 | the reader id parsed from any templated topic is the id it was built with, for ids without `/` and `$` |
| Mqtt.GetTopicRoundTrip | config/mqtt.js:16-21 | the same through `getTopic`, for every known type |
| Mqtt.MemberHits | services/mqttService.js:259-277 | one property yields at most two reports, each its own string value; at least one exactly when the value is a string that looks like an identifier or sits under a suggestive key, two exactly when both hold |
| Mqtt.Search | services/mqttService.js:245-256 | below depth 8 nothing is reported, and a value that is not an object or array reports nothing |
| Mqtt.SearchItems | services/mqttService.js:249-255 | the elements of an array at depth 8 are beyond the limit and report nothing |
| Mqtt.SearchMembers | services/mqttService.js:259-284 | a property's own reports come before those of its nested value and of the later properties |
| Mqtt.SearchMembersAppend | services/mqttService.js:259-284 | properties are walked in order: the reports of a concatenation are the reports of the parts, in order |
| Mqtt.SearchSound | services/mqttService.js:245-285 | every reported candidate occurs as a string inside the payload |
| Mqtt.FlatArraySilent | services/mqttService.js:249-256 | an array whose elements are not objects reports nothing: strings in arrays are never candidates |
| Mqtt.HitsReported | services/mqttService.js:259-284 | whatever one property reports is reported by the walk over its object |
| Mqtt.HexStringReported | services/mqttService.js:264-271 | a hex string of eight or more characters is reported whatever its key, within the depth limit |
| Mqtt.KeyedStringReported | services/mqttService.js:274-277 | a string under a key containing `epc`, `tag`, `rfid` or `tid` is reported, within the depth limit |
| Mqtt.NestDepth | services/mqttService.js:280-282 | each level of nesting costs one level of depth |
| Mqtt.NestStep | services/mqttService.js:280-282 | one object level under a neutral key reports nothing of its own and walks its value one level deeper |
| Mqtt.DepthLimit | services/mqttService.js:246 | a keyed string 8 levels down is reported; at 9 levels it is lost |
| Mqtt.EpcHexReportedTwice | services/mqttService.js:264-277 | a hex string under an `epc…` key is reported twice |
| Mqtt.ProcessEpcHex | services/mqttService.js:310-377 | a string gives `rfidTagDetected`, then `readers/reader1/inventory`, then `epcDetectado` exactly when valid and `epcNoIdentificado` otherwise; a known key's `epcDetectado` carries `{rfid, ...record}` for the table's record, an unknown key in permissive mode carries the template copy with the `AUTO-` product key and the observed identifier; the call throws `TypeError: Cannot convert object to primitive value`, emitting nothing, exactly when the value cannot be converted to a string (the log line before the `try`); any other non-string gives only the catch-all `epcDetectado` in permissive mode and the three events ending in `epcNoIdentificado` otherwise |
| Mqtt.RecordRfid | services/mqttService.js:355-358 | a record's spread fields carry its own `rfid` |
| Mqtt.DetectedReportsRecordRfid | services/mqttService.js:355-358 | in `epcDetectado` the record's `rfid` overrides the observed string |
| Mqtt.SeedReportsCanonicalRfid | services/mqttService.js:355-358 | observing a shipped record's stripped identifier reports the full identifier |
| Mqtt.Report | services/mqttService.js:270-276 | each candidate produces exactly three events, all on the socket |
| Mqtt.ProcessInventory | services/mqttService.js:288-307 | every event an inventory message causes goes to the socket; it throws the conversion `TypeError` exactly when the standard or `tagEvent` shape hands over a value that cannot be converted to a string |
| Mqtt.SynthesisedIsStandard | services/mqttService.js:190-193 | the alternative-format branch processes exactly the identifier it found |
| Mqtt.StandardShapeWins | services/mqttService.js:290-292 | the standard Impinj shape takes priority over every other shape |
| Mqtt.DirectBeforeTagEvent | services/mqttService.js:294-301 | with both a top-level `epcHex` and a `tagEvent.epcHex`, only the top-level one is processed, even when `tagEvent` comes first |
| Mqtt.ShapelessWalked | services/mqttService.js:302-306 | a payload without `eventType`, `epcHex` and `tagEvent` is handed to the walk |
| Mqtt.NumericEpcHexWalked | services/mqttService.js:295-306 | a non-string top-level `epcHex` falls through to the walk, which reports nothing |
| Mqtt.Publish | services/mqttService.js:380-467 | without a client nothing is published; with one, exactly one bus message carrying the payload, on `readers/<id>/<suffix>` for an id without `$` |
| Mqtt.PublishBackendStatus | services/mqttService.js:380-394 | at most one message, typed `backend_status`, on the reader's status topic |
| Mqtt.PublishError | services/mqttService.js:396-409 | at most one message, typed with the given error type, on the reader's errors topic |
| Mqtt.PublishInventoryEvent | services/mqttService.js:411-425 | at most one message on the reader's inventory topic, typed `epc_read` unless `additionalInfo` supplies a `type` |
| Mqtt.PublishGpoEvent | services/mqttService.js:427-440 | at most one message, typed `gpo_state_change`, on the reader's GPO events topic |
| Mqtt.PublishLectorStatus | services/mqttService.js:442-454 | at most one message, typed `reader_status`, on the reader's status topic |
| Mqtt.PublishOperation | services/mqttService.js:456-468 | at most one message on the reader's operations topic, typed with the operation unless `details` supplies a `type` |
| Mqtt.PublishedToReader | services/mqttService.js:380-467 | without a client nothing is published; with one, one message goes to `readers/<id>/<suffix>` and parses back to the id |
| Mqtt.OperationDetailsOverride | services/mqttService.js:456-467 | caller details are spread last and override the operation's `type` |
| Mqtt.InventoryInfoOverridesValid | services/mqttService.js:411-424 | a `valid` in `additionalInfo` overrides the validity argument |
| Mqtt.HandlerError | services/mqttService.js:211-219 | the handler's `catch` publishes one `message_processing_error` exactly when a client exists and the topic names a non-empty reader, and nothing otherwise |
| Mqtt.Caught | services/mqttService.js:211-219 | a step that throws is replaced by the handler's error report with the thrown message; one that completes keeps its events |
| Mqtt.Route | services/mqttService.js:155-210 | a tag topic first echoes `tag_data`; the only bus message routing can cause is a `message_processing_error`, and without a client everything goes to the socket |
| Mqtt.HandleMessage | services/mqttService.js:107-220 | the first event echoes the payload: `mqtt_raw` when it parsed and `mqtt_raw_text` when it did not; a bus message is only ever a `message_processing_error`, and without a client nothing reaches the bus |
| Mqtt.InventoryBranchUnreachable | services/mqttService.js:155-183 | every topic containing `/inventory` already takes the tag branch |
| Mqtt.TagTopicReportsTwice | services/mqttService.js:155-178 | on a tag topic, a payload `{epcHex: hex}` is processed twice after `tag_data` |
| Mqtt.OtherTopicReportsOnce | services/mqttService.js:189-194 | elsewhere the same payload is recognised by shape and processed once |
| Mqtt.UnconvertibleIdentifierReported | services/mqttService.js:189-219 | off the tag topics, `{epcHex: v}` with a `v` that cannot be converted gives the echo and then only the handler's error report with the conversion message |
| Mqtt.UnconvertibleIdentifierOnReaderTopic | services/mqttService.js:189-219 | on `readers/<id>/…` with a client, such a payload gives exactly the echo and one `message_processing_error` on `readers/<id>/errors`, and no `epcDetectado` |
| Mqtt.NullPayloadReported | services/mqttService.js:185-219 | a `null` payload off the tag topics throws; the error reaches the bus exactly when a client exists and the topic names a reader |
| Mqtt.RawMessageKeyNeutral | services/mqttService.js:142 | the key `rawMessage` does not suggest an identifier |
| Mqtt.RawMessageProps | services/mqttService.js:142 | `{rawMessage: text}` carries none of the properties `eventType`, `tagInventoryEvent`, `epcHex`, `tagEvent` |
| Mqtt.RawMessageWalk | services/mqttService.js:142 | walking `{rawMessage: text}` reports the text exactly when it looks like an identifier |
| Mqtt.RawMessageRouted | services/mqttService.js:180-210 | on an ordinary topic the wrapped text matches no inventory shape and goes to the walk |
| Mqtt.UnparsableTextWalked | services/mqttService.js:140-210 | unparsable text on an ordinary topic is echoed and processed only when the whole text looks like an identifier |
| Gpo.EffectiveDelay | services/gpoService.js:52-55 | the applied delay always lies in `1..2147483647`; it is the requested delay when that lies in the range, and exactly 1 ms otherwise |
| Gpo.Announcements | services/gpoService.js:21-23 | one announcement per configured output with a client, none without |
| Gpo.AnnounceToReader1 | services/gpoService.js:10-22 | each announcement is a `gpo_state_change` on `readers/reader1/gpos/events` |
| Gpo.AnnouncementAt | services/gpoService.js:21-23 | the i-th announcement is for the i-th output, in list order |
| Gpo.GpoService.constructor | services/gpoService.js:7-10 | no timeout pending and nothing done yet; events go to `reader1` |
| Gpo.GpoService.ConfigureGpos | services/gpoService.js:13-33 | one PUT of `{gpoConfigurations}`, then on success the announcements in order; a failure announces nothing and throws 500 with the HTTP message; the timer is untouched |
| Gpo.GpoService.Activar | services/gpoService.js:36-65 | clears any pending timeout, switches 1 and 3 high, and on success arms exactly one new timer for the requested delay (3000 by default); on failure no timer is left armed |
| Gpo.GpoService.Desactivar | services/gpoService.js:68-84 | switches 1 and 3 low and leaves the pending timeout alone |
| Gpo.GpoService.Tick | services/gpoService.js:52-55 | the clock advances; a due armed timer fires, switches low and disarms; `gpoTimeout` is reset only when the deactivation succeeded |
| Gpo.TwoActivations | services/gpoService.js:39-55 | after two activations only the second timer is armed |
| Gpo.ManualThenAutomatic | services/gpoService.js:52-84 | a manual deactivation does not stop the pending one: the outputs are switched low twice |
| Gpo.FailedReactivation | services/gpoService.js:39-64 | when a re-activation fails, no timer is left and the outputs are never switched low automatically |
| GpoController.BuildConfigurations | controllers/gpoController.js:7-31 | `gpo1` is checked before `gpo3`; the list holds output 1 exactly when `gpo1` is given and output 3 exactly when `gpo3` is given, with 1 first; an empty list is refused; an accepted list is `Configurations(gpo1, gpo3)` |
| GpoController.ConfigureGpos | controllers/gpoController.js:5-38 | each refusal answers 400 with its message and leaves the service untouched; an accepted request PUTs exactly the list built from `gpo1` and `gpo3`, followed on success by one announcement per output in list order, leaves the timer state alone, and answers 200 or passes on the service error |
| GpoController.Duracion | controllers/gpoController.js:44 | a missing or zero duration becomes 3000; any other value is kept |
| GpoController.Activar | controllers/gpoController.js:41-51 | success clears any pending timer, switches 1 and 3 high, announces them and arms one timer with the defaulted duration, naming it in the reply; failure clears the pending timer, writes the request and passes on the service's error with nothing armed; the clock is untouched |
| GpoController.Desactivar | controllers/gpoController.js:54-61 | switches 1 and 3 low (announced only on success); the reply reports the deactivation or passes on the error; the timer, the clock and the timer counter are untouched |
| Polling.StatusPoller.constructor | services/statusPollingService.js:6 | the interval table starts empty |
| Polling.StatusPoller.IniciarPolling | services/statusPollingService.js:9-26 | clears the reader's old interval, queries at once, stores one new 3000 ms interval; other readers are untouched; returns `true` |
| Polling.StatusPoller.DetenerPolling | services/statusPollingService.js:29-36 | `true` exactly when the reader had an interval, which is cleared and removed; otherwise nothing changes |
| Polling.StatusPoller.Fire | services/statusPollingService.js:19-21 | an interval tick performs one query for its reader |
| Polling.StatusPoller.DetenerTodos | services/statusPollingService.js:77-84 | every stored interval is cleared exactly once and the table is left empty |
| Polling.ConsultarStatus | services/statusPollingService.js:39-74 | the first event always goes to the socket; the query rejects exactly when the reader fails, then after that single socket event; it never resolves to `null` |
| Polling.ConsultarStatusCorregido | services/statusPollingService.js:39-74 | the first event always goes to the socket; the query never rejects and resolves to `null` exactly when the reader fails; with a client one bus message follows, without one none |
| Polling.StatusRelayed | services/statusPollingService.js:39-52 | a status is emitted on `lector/<id>/status`, published to the bus with a client, and resolves the query |
| Polling.FailureRejects | services/statusPollingService.js:53-72 | a failure emits `statusError` on the socket only, and the query rejects with a `TypeError` |
| Polling.CorregidoPublishesError | services/statusPollingService.js:53-72 | the corrected query also publishes `status_polling_error` on the reader's error topic and resolves to `null` |
| Polling.CorregidoAgreesOnSuccess | services/statusPollingService.js:39-74 | the two versions agree exactly when the reader answers |
| Polling.RestartKeepsOne | services/statusPollingService.js:9-26 | starting a reader twice leaves one interval, the second |
| Polling.StopIsPerReader | services/statusPollingService.js:29-36 | stopping one reader leaves another reader's interval running, and a second stop answers `false` |

## Left out

- The MQTT connection lifecycle is not modelled: `connectMqtt`, its subscriptions and event handlers other than `'message'`, and `disconnectMqtt` with its 500 ms delay (services/mqttService.js:11-104, 470-485). A bus client is a boolean.
- `sendTestEpc` is not modelled because it draws a random identifier. `getClient` only returns the handle.
- Timestamps (`new Date().toISOString()`) are dropped from every payload. Logging is not modelled, except that the log line at services/mqttService.js:312 converts the identifier to a string and that conversion can throw (see `Mqtt.ProcessEpcHex`).
- The HTTP transport is a parameter: `send` in Lector, a `fault` argument in Gpo. socket.io is assumed initialised.
- config/lector.js is not part of this model; the default reader configuration is a parameter (`fallback`, or `host` for `GpoService`).
- Timer concurrency is not modelled. An activation arriving while the timer callback's deactivation is in flight is an interleaving of promises; the model fires a timer atomically in `Tick`.
- Gpo.GpoService.Activar: a non-integer `duracion` is not modelled (durations are integers). Neither is the fractional truncation Node applies to delays.
- Lector: the float `tagAgeIntervalSeconds: 0.2` is carried as the exact number 0.2.
- Mqtt: objects are assumed to come from `JSON.parse`, so keys are distinct and already in JavaScript's enumeration order. `toUpperCase`/`toLowerCase` are modelled on ASCII letters only; `normalizarEpc` only ever upper-cases ASCII letters and digits.
- Polling.StatusPoller.DetenerTodos: the order in which intervals are cleared (the Map's insertion order) is not stated. Only the log messages depend on it.
- Polling: the promise rejected by `consultarStatus` is unhandled in `iniciarPolling`. The model records the rejection, not what the runtime does with it.
- EpcService.EpcStore.ObtenerEpcs returns the catalogue itself and carries no contract.
- Topics.GetTopic: a type name inherited from `Object.prototype` (`toString`, `constructor`, `__proto__`, …) is treated as unknown and fails with `Tipo de topic '…' no definido`. In the code such a lookup is truthy, so the `if` passes and the `replace` call throws a `TypeError` with another message. No caller passes such a name.
- Strings.Prefix: counts Unicode scalar values, while `substring` counts UTF-16 code units. The two differ only when the identifier holds a character outside the Basic Multilingual Plane.
- Strings.IntToDecimal: writes every integer in plain decimal. `String(n)` switches to exponent notation from 1e21 up, and a JSON number above 2^53 has already lost precision before it is printed. Durations are integers in the model (see Gpo.GpoService.Activar above).
- Strings.NatToDecimal: the same plain-decimal rendering as `Strings.IntToDecimal`, with the same limits.
- Gpo.GpoService.Tick: when the timer's deactivation fails, the callback's promise rejects and nobody handles the rejection. The model records the failure by leaving `gpoTimeout` set. It does not model what the runtime does with an unhandled rejection, which in recent Node versions ends the process.
- Routes, controllers other than the GPO one, swagger, server bootstrap, middleware and `src/index.js` are outside the modelled core.

## Findings

| source | as written | input that shows it | evidently intended | confidence | as-written member | corrected member |
|---|---|---|---|---|---|---|
| services/epcService.js:78 | after the push, `mapaEPC.set` names an identifier the module never declares, so `agregarEpc` throws a `ReferenceError` and no spelling of the new record reaches the table | any complete record with a new `rfid`, e.g. `rfid: "0009999999999999"` | register the new record's spellings in `epcModel.mapaEPC` and return the record; the corrected member writes all five spellings the catalogue builder writes (models/epc.js:44-64), so it adds `"E2" + rfid`, which lines 78-92 do not list, and this keeps the table equal to `TableOf(catalogue)` | high; not executed | EpcService.AgregarLeavesTableStale | EpcService.AgregarCorregidoConsistent |
| services/epcService.js:104-114 | removal deletes four spellings but never `"E2" + rfid` | `eliminarEpc("0002601014737010")` leaves `E20002601014737010` resolving to the record | delete every spelling the table holds for the record | high; not executed | EpcService.EliminarKeepsE2 | EpcService.EliminarCorregido |
| services/epcService.js:117-118 | the catalogue index is looked up by the argument; for a non-canonical spelling it is -1, and `splice(-1, 1)` removes the last record | `eliminarEpc("2601014737010")` on the shipped catalogue removes the third record and keeps the first | remove the record the argument resolved to | high; not executed | EpcService.SeedEliminarStripped | EpcService.EliminarCorregidoRemovesRecord |
| services/statusPollingService.js:70 | `mqttService.publishError` is a module-local function (services/mqttService.js:396), so the call throws a `TypeError`: nothing reaches the bus and the query rejects instead of resolving to `null` | any status query whose reader fails | publish `status_polling_error` on the reader's error topic and resolve to `null` | high; not executed | Polling.FailureRejects | Polling.CorregidoPublishesError |

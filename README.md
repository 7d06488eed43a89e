# domo-wot-bridge: a Dafny model of the gateway's routing and valve arbitration

domo-wot-bridge connects the Domo distributed cache (the DHT) to physical relays
(Shelly boards) and BLE sensors. This project models its core, which lives in
`src/main.rs` and `src/dhtmanager.rs`, and proves properties of the model:

- **Connection index** (`Dht`, `DhtProperties`). `build_actuators_index` rebuilds,
  from the `domo_actuator_connection` records, a table from
  `target_topic_name-target_topic_uuid` to the logical topics each physical topic
  feeds. `update_actuator_connections` fans one actuator report out over those
  edges. Each edge is transformed against the cache as the earlier writes left it,
  and written back when the transform succeeds.
- **Topic transformer** (`Transformer`, `TransformerProperties`).
  `get_topic_from_actuator_topic` picks one rule by the logical topic's device
  class. The rule copies or derives fields of the actuator report into the stored
  value. Energy accumulates. The power sensor and the input sensors are gated on
  `updated_properties`. A rule assigns a fixed set of fields and leaves every other
  field alone.
- **Valve arbitration** (`ValveArbiter`, `ValveProperties`). This is the valve timer
  arm of the main loop and the `ValveCommand` submit arm. Pending commands are kept
  in a map keyed by the valve's MAC. In each round a command is resent through the
  best relay, until the cache shows the desired state or 100 attempts have been made.
- **Lookups and handlers** (`Dht`, `Shelly`, `Beacons`, `Gateway`):
  - the credential search and the two MAC searches;
  - volatile-command classification and `wait_dht_messages`;
  - the shelly status handler and its MAC formatting;
  - the BLE beacon handlers, including the contact sensor's change suppression and its RSSI framing;
  - the periodic wifi check of the shelly-plus relays;
  - the main loop's state, as the class `Gateway.Bridge`, with one method per arm.

How the model is built:
- JSON values are the datatype `JsonValue.Json`. A topic's value is a field map.
- The cache (`DomoCache`) is a map from a class name to an ordered sequence of
  records. It offers exactly the three operations the gateway calls:
  - `get_topic_name`, which is `Records`;
  - `get_topic_uuid`, which is `GetTopicUuid`;
  - `write_value`, which is `WriteValue`.
- An `.unwrap()` that the source does on a wrong JSON type would panic. Each one is
  a precondition, a predicate named `...Defined` that follows the path that unwraps.
- Library and foreign calls are function-typed parameters:
  - `serde_json::from_str`;
  - `base64::decode`;
  - `bleutils::parse_atc` and `bleutils::parse_contact_sensor`;
  - `serde_json::Value::to_string`;
  - the relay choice `get_best_actuator_for_valve`;
  - the command parser `command_parser::handle_*_command`, for the five delegated command types.
- Time (`get_epoch_ms`) is a parameter `now`.
- Commands sent over the websocket are appended to an outbox sequence.

## Model

| member | source | states |
|---|---|---|
| DomoCache.FindUuid | src/main.rs:390-392 | a topic is found exactly when a record of the class carries that uuid |
| DomoCache.ReadAfterWrite | src/dhtmanager.rs:207-216 | after `write_value` the written topic reads back the new value and every other (class, uuid) reads as before |
| DomoCache.WriteKeepsPresence | src/dhtmanager.rs:207-216 | overwriting an existing topic creates and deletes no topic |
| DomoCache.WriteOtherClass | src/dhtmanager.rs:207-216 | a write leaves the record list of every other class unchanged |
| Transformer.NatToStringRoundTrip | src/main.rs:394-396 | the decimal text of a channel number reads back as that number |
| Transformer.NatToStringInjective | src/main.rs:394-396 | different channels are addressed by different `output{N}`/`power{N}`/`energy{N}` names |
| Transformer.ApplyRule | src/main.rs:398-614 | a successful rule changes only the fields its class assigns, all of which the result then holds, and keeps every other stored field; a rule never fails with "topic missing" |
| Transformer.TopicFromActuatorTopic | src/main.rs:382-615 | the transform fails with "topic missing" exactly when the logical topic is not in the cache; on success the new value differs from the stored one only on the rule's fields |
| TransformerProperties.PresenceGating | src/main.rs:398-603 | the power sensor and the pir/radar/button/bistable classes fail with "not update" exactly when `power_data` / `input{N}` is absent from `updated_properties`, fail in no other way, and an input sensor then copies `input{N}` into `status` |
| TransformerProperties.OutcomeIgnoresStored | src/main.rs:398-614 | whether a rule succeeds depends on the report alone, never on the stored value |
| TransformerProperties.EnergyIsAdditive | src/main.rs:417-541 | for the power sensor, the dimmer and lights on relays other than shelly_1/shelly_1plus, the new `energy` is the stored energy (0.0 when absent) plus the reported delta |
| TransformerProperties.RuleAddsEnergy | src/main.rs:417-541 | the same on a stored value: stored energy plus the delta the report carries |
| TransformerProperties.EnergyOverTwoReports | src/main.rs:417-541 | two successive reports with deltas d1 and d2, starting from no energy, leave energy d1 + d2 |
| TransformerProperties.RelayRule | src/main.rs:516-566 | light/siren/switch/fan coil: always succeeds, `status` = `output{N}`; `power` follows `power{N}` on multi-channel relays; on shelly_1/shelly_1plus `power` and `energy` are untouched; `updated_properties` is rebuilt from the report's |
| TransformerProperties.RenamePropsAppend | src/main.rs:548-566 | the rebuilt `updated_properties` keeps input order: it distributes over concatenation |
| TransformerProperties.RenamePropsCounts | src/main.rs:548-566 | the rebuilt list holds one "power" per `power{N}` and one "energy" per `energy{N}` of the report, and nothing else |
| TransformerProperties.RgbwDimmableSelection | src/main.rs:473-495 | a dimmable light fed by shelly_rgbw fails exactly when `rgbw_status` does not decode, takes component r/g/b/w for channel 1/2/3/4 into `status`, and is unchanged on any other channel |
| TransformerProperties.RgbwLightSetsAll | src/main.rs:498-514 | an RGBW light fails exactly when `rgbw_status` does not decode, and otherwise takes all four of r, g, b, w from it |
| TransformerProperties.CopyRules | src/main.rs:569-612 | floor valves copy `output{N}`, shutters and gates `shutter_status`, window and door sensors `status` from a BLE contact and `input{N}` otherwise; they always succeed |
| TransformerProperties.UnhandledIsIdentity | src/main.rs:614 | a topic of any other class is returned exactly as stored |
| Dht.EdgesUnderAppend | src/dhtmanager.rs:69-95 | the edges filed under a key, for a record list split in two, are those of the first part followed by those of the second |
| Dht.IndexExact | src/dhtmanager.rs:61-101 | the rebuilt index files under each key exactly the edges of the complete records with that key, in record order, and holds no key without an edge |
| Dht.HandleVolatileCommand | src/dhtmanager.rs:218-259 | `shelly_actuator_command` / `radiator_valve_command` with a `value` give an actuator / valve command carrying that value (both directions); the five parser types are delegated with the command; a missing `command`, `command_type` or `value`, or any other type, is an error |
| Dht.VolatileCommand | src/dhtmanager.rs:218-259 | `shelly_actuator_command` / `radiator_valve_command` with a `value` give an actuator / valve command carrying that value; the five parser types give whatever the command parser returns for the type and the `command` object; a command is only ever produced for one of these seven types |
| Dht.BuildIndex | src/dhtmanager.rs:61-101 | every key of the rebuilt index lists at least one edge and no more edges than there are records |
| Dht.Cascade | src/dhtmanager.rs:33-59 | the cascade issues at most one write per edge, and leaves the cache as it was when it issues none |
| Dht.DhtManager.constructor | src/dhtmanager.rs:26-30 | the manager starts over the given cache with an empty index |
| Dht.DhtManager.BuildActuatorsIndex | src/dhtmanager.rs:61-115 | the index becomes the rebuilt index of the connection records, whatever it held before; the cache is unchanged |
| Dht.DhtManager.UpdateActuatorConnections | src/dhtmanager.rs:33-59 | the cache and the writes issued are those of the cascade over the edges of `topic_name-topic_uuid`; the index is unchanged |
| Dht.DhtManager.TransformAll | src/dhtmanager.rs:37-57 | the edge loop gives the cascade's final cache and writes |
| Dht.DhtManager.WriteTopic | src/dhtmanager.rs:207-216 | the cache becomes the old cache with the value written; the index is unchanged |
| Dht.DhtManager.GetAuthCred | src/dhtmanager.rs:117-149 | the answer is the first credential match over shelly_1plus, shelly_1pm_plus, shelly_2pm_plus |
| Dht.DhtManager.GetTopic | src/dhtmanager.rs:151-169 | the answer is the first record of the class whose `mac_address` equals the query |
| Dht.DhtManager.GetActuatorFromMacAddress | src/dhtmanager.rs:171-205 | the answer is the first record with that MAC over the twelve device classes in their fixed order |
| Dht.DhtManager.FirstWithMac | src/dhtmanager.rs:190-204 | the search loop over a list of classes gives the first match in class order |
| Dht.DhtManager.WaitDhtMessages | src/dhtmanager.rs:261-280 | a volatile message yields the command of `handle_volatile_command`, with the five parser types resolved by the command parser, and the index is kept; a persistent event is an error, rebuilds the index when it is on `domo_actuator_connection` and keeps it otherwise |
| DhtProperties.DashPosition | src/dhtmanager.rs:87 | in the key of a dash-free topic name, the first '-' ends the name |
| DhtProperties.IndexKeyInjective | src/dhtmanager.rs:87 | for dash-free topic names, equal keys mean equal name and uuid |
| DhtProperties.EdgesUnderMembership | src/dhtmanager.rs:69-95 | an edge is listed under key k exactly when some complete record with key k yields it |
| DhtProperties.IndexMembership | src/dhtmanager.rs:65-101 | after a rebuild an edge is in the index under k exactly when some complete record with key k yields it: nothing of the previous index survives |
| DhtProperties.SkipIncomplete | src/dhtmanager.rs:69-74 | a record missing one of the four fields is skipped and every other record is indexed as without it |
| DhtProperties.DuplicateRecords | src/dhtmanager.rs:89-95 | a record present twice files its edge twice under its key |
| DhtProperties.CascadeAppliesWrites | src/dhtmanager.rs:33-59 | the cascade's final cache is the original cache with its writes applied in order |
| DhtProperties.AbsentKeyNoWrites | src/dhtmanager.rs:34-36 | a key absent from the index produces no write and leaves the cache as it was |
| DhtProperties.CascadeFollowsEdges | src/dhtmanager.rs:37-57 | the writes go to the edges' logical topics, one for a subset of the edges, in edge order |
| DhtProperties.IndependentFrame | src/dhtmanager.rs:40-47 | each edge's transform reads only its own logical topic |
| DhtProperties.CascadeDistinctSources | src/dhtmanager.rs:37-57 | when no two edges feed the same logical topic, each write is what its edge's transform gives against the cache as it stood before the update |
| DhtProperties.DuplicateEdgeCountsTwice | src/dhtmanager.rs:37-57 | two identical edges into an energy-accumulating topic write twice, and the second write holds the delta added two times |
| DhtProperties.TransformTwice | src/dhtmanager.rs:40-55 | transforming the same edge again after writing its first result adds the delta again |
| DhtProperties.LightFedByRelay | src/dhtmanager.rs:33-101 | with one connection record (shelly_1 channel 1 feeds a domo_light), a report `output1: true` writes `status: true` to that light and nothing else |
| DhtProperties.FindByMacFirst | src/dhtmanager.rs:156-168 | the MAC search in a class misses exactly when no record has that MAC, and otherwise returns the first one that does |
| DhtProperties.FindByMacInFirst | src/dhtmanager.rs:175-204 | the search over classes misses exactly when no class has the MAC, and otherwise answers from the first class that has it |
| DhtProperties.FindCredFirst | src/dhtmanager.rs:124-148 | the credential search in a class misses exactly when no record matches both login and password, and otherwise returns the MAC and class of the first match |
| DhtProperties.CredOnlyInClasses | src/dhtmanager.rs:117-149 | a credential found comes from one of the searched classes |
| Shelly.MacWithColons | src/main.rs:288-298 | the formatted MAC has 17 characters |
| Shelly.MacLayout | src/main.rs:288-298 | pair i of the MAC sits at positions 3i..3i+2 of the result, with a ':' after each of the first five |
| Shelly.MacRoundTrip | src/main.rs:288-298 | deleting the colons gives back the first 12 characters of a colon-free MAC |
| Shelly.MergeKeepsReport | src/main.rs:305-349 | the merged status fails exactly when the stored login, password, MAC or id is missing; otherwise it keeps every reported field it does not set, carries over the stored area, note, credentials, MAC and id, and stamps the time |
| Shelly.MergedStatus | src/main.rs:305-349 | the merge fails exactly when the stored login, password, MAC or id is missing; the merged value keeps every reported field and carries the time of the update |
| Shelly.ShellyWrite | src/main.rs:273-366 | no status report means no write; a write goes to the topic of the report's class found by the colon-formatted MAC, and holds the merge of the report with that topic's stored value |
| Shelly.ChangeWifiCommand | src/main.rs:860-883 | the command is an actuator command to the relay itself, through no other relay, whose `shelly_action.input.action` is `change_wifi` with the serialized ssid and password as `action_payload` |
| Shelly.WifiFlags | src/main.rs:852-858 | one mismatch flag per listed relay: its topic is found and reports a `wifi_ssid` other than the configured one |
| Shelly.WifiCommandsTargets | src/main.rs:852-888 | the check sends one `change_wifi` command per flagged relay, in list order, to that relay |
| Shelly.FlaggedIndicesMembers | src/main.rs:846-893 | an index is collected into `to_remove` exactly when its relay is flagged |
| Shelly.RemoveInOrder | src/main.rs:895-897 | the removal loop as written: each index is removed from the list the earlier removals left, and every index must be in range when its turn comes |
| Shelly.StaleIndexRemovesWrongRelay | src/main.rs:846-897 | for relays A, B, C with A and B mismatching, the loop as written leaves B and drops C; the intended result is C |
| Shelly.StaleIndexOutOfRange | src/main.rs:846-897 | for two mismatching relays the second removal is out of range |
| Shelly.RetainUnflagged | src/main.rs:895-897 | removing the collected indices all at once leaves the unflagged relays in list order |
| Shelly.KeepUnflaggedMembers | src/main.rs:895-897 | a relay stays listed exactly when some unflagged entry holds it |
| Shelly.KeepUnflaggedLength | src/main.rs:895-897 | the relays kept plus the indices collected account for the whole list |
| Beacons.HexEncode | src/main.rs:644-646 | the hex text has two digits per byte |
| Beacons.HexRoundTrip | src/main.rs:644-646 | hex encoding of the beacon bytes is undone by hex decoding |
| Beacons.HexByteRoundTrip | src/main.rs:751 | every byte survives its two lowercase hex digits |
| Beacons.AsI8 | src/main.rs:750 | `rssi as i8` lies in -128..127 and agrees with the RSSI modulo 256 |
| Beacons.RssiHexMeaning | src/main.rs:749-755 | the two RSSI digits spell the i8 the RSSI truncates to; an RSSI already in i8 range is kept exactly |
| Beacons.ContactFrameLayout | src/main.rs:749-755 | the decoder input is "1d", then the message, then the two RSSI digits |
| Beacons.ContactGateInBytes | src/main.rs:740 | the gate of 58 hex digits is a gate of 29 decoded bytes |
| Beacons.ContactSuppression | src/main.rs:760-805 | a write happens exactly when the derived bit (1 iff not open) differs from the stored `status` or none is stored; the value written carries the new bit and keeps the sensor's token, MAC, id and area |
| Beacons.ContactWrite | src/main.rs:760-805 | a contact write holds exactly `status`, `token`, `last_update_timestamp`, `mac_address`, `id` and `area_name`, stamped with the time of the update |
| Beacons.ContactIdempotent | src/main.rs:763-787 | the same report repeated after its write is suppressed |
| Beacons.ContactFlip | src/main.rs:763-787 | a state change after a write is written again |
| Beacons.ThermometerValue | src/main.rs:703-725 | the value written holds the reading's temperature, humidity and battery and the stored token, MAC, id, name and area |
| Beacons.ValveValue | src/main.rs:815-831 | the valve value written has `status` true iff the payload is "1" and keeps the stored MAC, id, name and area |
| ValveArbiter.StepOf | src/main.rs:125-167 | an entry is converged exactly when some valve record shows its desired state; it is resent through the relay chosen only below 100 attempts, waits below 100 attempts when no relay is known, and is abandoned at 100 attempts or more |
| ValveArbiter.Reconciled | src/main.rs:117-175 | a round adds no entry to the table |
| ValveArbiter.ValveStatusMatches | src/main.rs:126-146 | the scan of the valve records answers whether some record with the valve's MAC shows the desired state |
| ValveArbiter.VisitOne | src/main.rs:125-167 | one entry is marked for removal exactly when it converged or is out of attempts, and a command is made exactly when it is resent through the relay chosen |
| ValveArbiter.VisitPending | src/main.rs:120-169 | after visiting every entry once, in any order, each entry is advanced by its step, the removal list holds exactly the dropped entries, and one command is sent per resent entry |
| ValveArbiter.RemoveAll | src/main.rs:170-172 | the table loses exactly the marked keys |
| ValveArbiter.ReconcileValves | src/main.rs:117-175 | the round gives the reconciled table; when it runs it sends one command per resent valve and no other command, and when it is skipped it sends nothing; the valve records need to be well typed only when the round runs |
| ValveArbiter.Submitted | src/main.rs:206-243 | a submission sends at most one command and adds no key other than the command's MAC |
| ValveProperties.ConvergedMeansRecord | src/main.rs:125-146 | a valve counts as converged exactly when some record with its MAC shows a `status` equal to `desired_state` |
| ValveProperties.SkippedRound | src/main.rs:118 | with no pending command or no shelly-plus relay, the round changes nothing and sends nothing, whatever the valve records hold |
| ValveProperties.EntryFate | src/main.rs:147-167 | an entry is removed exactly when it converged or has 100 attempts; it is resent exactly when neither holds and a relay is known, with one more attempt; otherwise it is kept unchanged |
| ValveProperties.ReconciledDefined | src/main.rs:117-175 | a round adds no entry and changes no desired state |
| ValveProperties.AbsentStaysAbsent | src/main.rs:117-175 | an entry that is gone stays gone, and nothing more is sent for it |
| ValveProperties.RoundNext | src/main.rs:150-167 | a valve that is not converged and has a relay gains one attempt while it has fewer than 100, and is dropped otherwise |
| ValveProperties.RetryBudget | src/main.rs:147-167 | a valve that never converges while a relay is known gains one attempt per round and is abandoned in the round after its 100th attempt, never earlier and never later |
| ValveProperties.ResendCount | src/main.rs:150-162 | over n such rounds it is resent min(n, 100 - attempts) times |
| ValveProperties.Exhausted | src/main.rs:165-167 | an entry with 100 attempts is dropped in the next round and never resent |
| ValveProperties.SubmitEffect | src/main.rs:206-243 | with a shelly-plus relay connected and a MAC present, submission (re)sets the entry whatever it held, with one attempt and one command when a relay is known and none otherwise; otherwise nothing changes |
| ValveProperties.SubmitThenRetry | src/main.rs:206-243 | from submission on, a command that never converges is sent 100 times in all, and its entry is gone from the 100th round on |
| Gateway.CommittedWrites | src/main.rs:353-367 | a status write followed by its cascade is the write followed by the cascade's writes; without a cascade only the written topic changes |
| Gateway.ValveBeaconDispatch | src/main.rs:676-692 | a valve beacon with payload "0" or "1" writes `status` = (payload == "1") with no cascade; any other payload becomes a signal report for the relay choice |
| Gateway.ContactBeaconGate | src/main.rs:659-807 | a contact beacon writes only when at least 29 bytes decode and the derived bit is new; the write is always followed by a cascade; a shorter message is ignored |
| Gateway.ThermometerAlwaysWrites | src/main.rs:642-731 | a thermometer beacon writes exactly when it decodes, never suppresses a reading, and never cascades |
| Gateway.OtherClassesIgnoreBeacons | src/main.rs:639-694 | a beacon whose topic is of any other class does nothing |
| Gateway.BeaconOutcome | src/main.rs:639-694 | a beacon writes only to its own topic; only a contact write is followed by a cascade; only a valve beacon becomes a signal report, carrying the beacon's MAC, relay and RSSI |
| Gateway.Dispatched | src/main.rs:193-245 | a cache command sends at most one command, and an error changes nothing |
| Gateway.ActuatorForwarding | src/main.rs:194-205 | an actuator command with a MAC, whether classified directly or returned by the command parser, is forwarded unchanged, once, to that MAC; anything else but a valve command sends nothing and leaves the valve table alone; an error sends nothing |
| Gateway.Bridge.constructor | src/main.rs:73-85 | the gateway starts with an empty relay list, valve table and outbox, and an index built from the cache |
| Gateway.Bridge.HandleCredMessage | src/main.rs:91-104 | the answer is the credential lookup; a `shelly_1plus` relay that logs in is appended to the relay list; nothing else changes |
| Gateway.Bridge.HandleShellyMessage | src/main.rs:273-380 | a status report found by class and colon-formatted MAC is merged into that topic and cascaded; otherwise the cache is unchanged |
| Gateway.Bridge.HandleBleUpdate | src/main.rs:630-695 | the cache becomes the committed write of the beacon's effect, the signal history grows by the beacon's report, and nothing else changes |
| Gateway.Bridge.ValveTimer | src/main.rs:117-175 | the valve table becomes the reconciled table; the outbox grows by exactly one command per resent valve when the round runs, and is unchanged when it is skipped |
| Gateway.Bridge.PingTimer | src/main.rs:176-186 | one ping is appended to the outbox |
| Gateway.Bridge.CheckShellyWifi | src/main.rs:839-898 | every mismatching relay is sent a `change_wifi` command and dropped from the list; the others stay, in order (the corrected removal; the removal as written is Shelly.RemoveInOrder, see ## Findings) |
| Gateway.Bridge.CollectWifiMismatches | src/main.rs:846-893 | the loop gives the commands of the flagged relays in order, and their ascending indices |
| Gateway.Bridge.CheckWifi | src/main.rs:853-888 | a command is made exactly when the relay's topic reports another network |
| Gateway.Bridge.CacheEvent | src/main.rs:191-246 | after `wait_dht_messages` an actuator command is forwarded and a valve command submitted, including those the command parser returns; a rebuild happens only for a connection event; the cache is unchanged |

## Left out

- The `tokio::select!` loop, the timers and `PingManager` (src/main.rs:22-38, 89-116). Each arm is a method of `Gateway.Bridge`. Choosing which event comes next is not modelled.
- The WebSocket transport (`WssManager`, `command_channel_tx`). Sends are appended to `outbox`. The reply sent back on the credential responder is not modelled.
- `command_parser::handle_*_command` (src/dhtmanager.rs:236-254) is not part of this model. It is the parameter `commandParser` of the bridge: a function from the cache, the command type and the message's `command` object to a command or an error. Its result is forwarded or submitted like any other command. Any effect of those handlers beyond their result is not modelled.
- `bleutils::parse_atc` / `parse_contact_sensor`, base64, `serde_json::from_str` and `to_string` are function-typed parameters. Only the hex encoding is modelled.
- `ValveCommandManager` (utils.rs) is not part of this model. Its table is a `map<string, ValveData>`. Its relay choice is a function of the signal reports received so far.
- The cache's internals (sifis_dht) are not part of this model. Also left out: `get_topic_name` failing, a record without `value`, and a record whose `topic_name` is not its class. In `get_auth_cred` such a record would be skipped.
- The cache applying a persistent event to itself: `WaitDhtMessages` leaves the cache unchanged.
- Timestamps are a parameter `now`. Logging, clap and configuration parsing are not modelled.
- `.unwrap()` panics are not modelled as behaviour. Every member requires the inputs on which its path does not panic.
- TransformerProperties.EnergyIsAdditive: energy is a `real`, so f64 rounding in the sum is not modelled.
- Shelly.MacWithColons: the MAC is sliced by characters. Rust slices bytes and panics on a multi-byte boundary.
- ValveArbiter.VisitPending: the `HashMap` iteration order is not modelled. The entries are visited in any order, and the contract holds for every order.
- DhtProperties.IndexKeyInjective: stated for dash-free topic names only, because the key `name-uuid` can collide when a name contains '-'.
- `get_topic_from_mac_address`, called by src/main.rs:636 and 853, is not in the files modelled. It is taken to be `get_actuator_from_mac_address`.

Three points about the valve table that the model takes from the code:
- A valve submission overwrites an existing entry: both branches call `insert` (src/main.rs:219, 237). It does not only create a missing one.
- A pending entry (`ValveData`) holds only the desired state and the attempt count. The relay is chosen afresh on submission and in every round (src/main.rs:150, 209).
- An entry is dropped in the round after its 100th send, not at that send. The round tests `attempts < 100` before it resends, and removes the entry only when that test fails (src/main.rs:148-167).

## Findings

| source | as written | input that shows it | evidently intended | confidence | as-written member | corrected member |
|---|---|---|---|---|---|---|
| src/main.rs:895-897 | `check_shelly_esp32_wifi` collects the ascending indices of the mismatching relays, then calls `Vec::remove` on each in turn. After the first removal, the later indices point one place too far. | relays `[A, B, C]` with A and B mismatching: indices `[0, 1]` remove A, then C, and leave `[B]`. Relays `[A, B]` both mismatching: the second `remove(1)` is out of range and panics | the mismatching relays leave the list together: `[C]` and `[]` | not executed | Shelly.RemoveInOrder, Shelly.StaleIndexRemovesWrongRelay, Shelly.StaleIndexOutOfRange | Shelly.RetainUnflagged, Shelly.KeepUnflaggedMembers, Gateway.Bridge.CheckShellyWifi |

# mosquitto-exporter message path, in Dafny

This project models the core of mosquitto-exporter, a Prometheus exporter for
the Mosquitto MQTT broker. The exporter subscribes to the broker's `$SYS/#`
statistics topics. For each message it does three things:

- It classifies the topic against two static tables: ignored topics and counter topics.
- It turns the topic into a metric name. For example, `$SYS/broker/clients/connected` becomes `mqtt_broker_clients_connected`.
- It extracts a number from the payload and records it in a gauge registry keyed by topic.

The modules are:

- `Wrappers`: an `Option` type.
- `Names`: `parseForPrometheus`. It replaces the first `$SYS` with `mqtt`, then replaces every `/`, space, `-` and `.` with `_`.
- `Numerals`: `parseValue`. It finds the first match of `-?\d{1,}[.]\d{1,}|\d{1,}`, as Go's leftmost-first regular-expression engine does, using a recursive scan. The match is read as an exact decimal (`mantissa / 10^scale`), and the result is zero when nothing matches. `FirstMatchSpec` proves the scan against a declarative reference: the token is in the pattern's language, no match starts earlier, and none is longer at the same start.
- `Collector`: the three topic tables, `datacenterMetrics`, and the identity metric that `Collect` emits.
- `MqttClient`:
  - topic classification;
  - the registry as a class `Exporter`, whose `gaugeMetrics` map field its methods update;
  - pure descriptions of one update (`AfterUpdate`) and of a stream of updates (`Replay`). The methods are proved against `AfterUpdate` and `SetGauge`; `Replay` is the subject of lemmas about message streams.

The tables are defined in package `main`, while `processUpdate` lives in package `mqttclient`. So the classifier and `ProcessUpdate` take the tables as map parameters, and the lemmas apply them to the shipped tables. The broker label is built from a host name parameter (`{"broker": hostname}`).

## Model

| member | source | states |
|---|---|---|
| Names.IndexFrom | internal/mqttclient/client.go:186 | the result is the leftmost occurrence of the pattern at or after the start index; `None` means no occurrence at all |
| Names.ReplaceFirst | internal/mqttclient/client.go:186 | with n = 1 only the leftmost occurrence is replaced; the text before and after it is kept, and a string without an occurrence is returned unchanged |
| Names.ReplaceChar | internal/mqttclient/client.go:187-190 | replacing every occurrence of one character keeps the length and changes exactly the positions that held that character |
| Names.ReplaceSeparators | internal/mqttclient/client.go:187-190 | the four chained replacements keep the length, and turn each of `/`, space, `-` and `.` into `_` while leaving every other character in place |
| Names.ParseForPrometheus | internal/mqttclient/client.go:185-191 | the metric name has the topic's length, and contains no `/`, space, `-` or `.` |
| Names.ReplaceFirstSysAt | internal/mqttclient/client.go:186 | position by position, the first-`$SYS` replacement spells `mqtt` inside the leftmost `$SYS` and copies the input elsewhere |
| Names.TranslateAt | internal/mqttclient/client.go:185-191 | every output position is a letter of `mqtt` inside the first `$SYS`; everywhere else it is the input character, with separators made `_` |
| Names.LaterSysKept | internal/mqttclient/client.go:186-190 | only the first `$SYS` is rewritten: any later `$SYS` appears unchanged in the name |
| Names.BrokerTopicName | internal/mqttclient/client.go:185-191 | every topic beginning `$SYS/broker/` gets a name beginning `mqtt_broker_` |
| Names.BrokerTopicTranslation | internal/mqttclient/client.go:185-191 | the name of `$SYS/broker/` + rest is `mqtt_broker_` followed by rest with its separators made `_` |
| Names.TranslationCollides | internal/mqttclient/client.go:185-191 | the translation is not injective: `a-b` and `a.b` get the same name |
| Numerals.MatchAt | internal/mqttclient/client.go:196 | the match the pattern makes at one position never runs past the payload; `MatchAtSound` and `MatchAtComplete` show it is the longest word of the pattern there |
| Numerals.FindFrom | internal/mqttclient/client.go:196-198 | a match found from an index is a non-empty span at or after it; `FindFromSpec` shows it is the leftmost, taken at its longest |
| Numerals.FirstMatch | internal/mqttclient/client.go:196-198 | the first match is a non-empty span of the payload; `FirstMatchSpec` shows it is the leftmost, taken at its longest |
| Numerals.TokenValue | internal/mqttclient/client.go:201-203 | an all-digit token reads as the integer its digits spell, and only a token starting with `-` reads as negative; `TokenValueOfDecimal` gives a decimal token's reading |
| Numerals.ParseValue | internal/mqttclient/client.go:194-207 | the value is that of the `FirstMatchSpec` token; a payload without a decimal digit, the empty one included, reads as 0, and a negative value always has fraction digits |
| Numerals.NegativeTokenIsDecimal | internal/mqttclient/client.go:196-203 | the first match reads as negative only when it is a signed decimal, which has fraction digits |
| Numerals.DigitRun | internal/mqttclient/client.go:196 | `\d{1,}` is greedy: the run consists of digits and stops at the end or at a non-digit |
| Numerals.DecimalAtSound | internal/mqttclient/client.go:196 | a non-zero length from the decimal matcher spans a token of `\d{1,}[.]\d{1,}` |
| Numerals.DecimalAtComplete | internal/mqttclient/client.go:196 | every `\d{1,}[.]\d{1,}` token at a position is found there, and none found is shorter than it |
| Numerals.MatchAtSound | internal/mqttclient/client.go:196 | a match found at a position is in the language of the whole pattern |
| Numerals.MatchAtComplete | internal/mqttclient/client.go:196 | whenever the pattern matches at a position, a match is found there that is at least as long |
| Numerals.FindFromSpec | internal/mqttclient/client.go:196-198 | the scan from an index returns a match in the pattern's language, with none starting earlier and none longer at its start; `None` means no match at all |
| Numerals.FirstMatchSpec | internal/mqttclient/client.go:196-198 | `FindAllString(payload, 1)` returns the leftmost match, taken at its longest, never a later one; with no match, no substring is in the pattern |
| Numerals.PatternHasDigit | internal/mqttclient/client.go:196 | every token of the pattern contains a digit |
| Numerals.MatchIffDigit | internal/mqttclient/client.go:196-199 | the payload has a match if and only if it contains a decimal digit |
| Numerals.NoMinusInDecimal | internal/mqttclient/client.go:196 | a token of `\d{1,}[.]\d{1,}` contains no `-` |
| Numerals.MinusOnlyBeforeDecimal | internal/mqttclient/client.go:196-198 | a `-` in the matched token is its first character, and is followed by digits, `.`, digits |
| Numerals.TokenValueOfDecimal | internal/mqttclient/client.go:201-203 | a decimal token reads as its signed integer and fraction digits over 10 to the number of fraction digits |
| Numerals.ParseValueInteger | internal/mqttclient/client.go:194-207 | `42` reads as 42 |
| Numerals.ParseValueSignedDecimal | internal/mqttclient/client.go:194-207 | `-3.14 degrees` reads as -3.14: the sign is kept for a decimal |
| Numerals.ParseValueNegativeInteger | internal/mqttclient/client.go:194-207 | `-3` reads as 3: the match starts after the `-` |
| Numerals.ParseValueFirstMatchOnly | internal/mqttclient/client.go:194-207 | `1.2.3` reads as 1.2 |
| Numerals.ParseValueNoNumber | internal/mqttclient/client.go:194-207 | a payload without a number, and the empty payload, read as 0 |
| Collector.IdentityMetric | collector.go:82-86 | the identity metric is named by translating the application name, so the name has its length and no separators; its help is `github.com/jnovack/` followed by the application; it carries exactly the `version` label and has value 1 |
| Collector.DatacenterMetrics | collector.go:115-122 | the fixed list of datacenter metrics; `DatacenterMetricsShape` gives its length, name, value and labels |
| Collector.DatacenterMetricsShape | collector.go:115-122 | `datacenterMetrics` returns one metric, `vmware_datastore_size`, of value 1, labelled `datastore`, `cluster` and `datacenter` |
| Collector.IgnoreTableSize | collector.go:13-18 | the ignore table holds exactly four topics |
| Collector.CounterTableSize | collector.go:19-32 | the counter table holds exactly twelve topics |
| Collector.CounterGaugeTableSize | collector.go:33-37 | the counter-like gauge table holds exactly three topics |
| Collector.TablesDisjoint | collector.go:13-32 | no topic is both ignored and a counter |
| Collector.CounterGaugeTopicsUnlisted | collector.go:13-37 | no counter-like gauge topic is in the ignore or the counter table |
| Collector.IgnoreTopicsUnderBroker | collector.go:13-18 | every ignored topic begins `$SYS/broker/` |
| Collector.CounterTopicsUnderBroker | collector.go:19-32 | every counter topic begins `$SYS/broker/` |
| Collector.CounterGaugeTopicsUnderBroker | collector.go:33-37 | every counter-like gauge topic begins `$SYS/broker/` |
| Collector.TableNamesUnderBroker | collector.go:13-37 | every topic of the three tables gets a metric name beginning `mqtt_broker_` |
| MqttClient.Classify | internal/mqttclient/client.go:135-146 | a topic is ignored if and only if it is in the ignore table; it is a counter if and only if it is in the counter table but not the ignore table; it is a gauge otherwise |
| MqttClient.LookupOrderIrrelevant | internal/mqttclient/client.go:135-136 | with disjoint tables, checking the counter table first would classify every topic the same way |
| MqttClient.ShippedLookupOrderIrrelevant | internal/mqttclient/client.go:135-136 | for the shipped tables, the order of the two lookups does not matter |
| MqttClient.CounterGaugeTopicsAreGauges | internal/mqttclient/client.go:135-141 | every counter-like gauge topic takes the gauge path, although its table is never consulted |
| MqttClient.SetGauge | internal/mqttclient/client.go:170-183 | after lookup-or-create and set, the topic has an entry holding the new value; `SetGaugeEffect` gives the whole new registry |
| MqttClient.SetGaugeEffect | internal/mqttclient/client.go:170-183 | a new topic gets one entry with the translated name, the topic as help, the given labels and the value; a known topic keeps its name, help and labels and takes the value; no other entry changes and no key is lost |
| MqttClient.LookupOrCreateThenSet | internal/mqttclient/client.go:171-182 | creating the gauge when it is missing and then setting its value gives the registry `SetGauge` describes |
| MqttClient.SetGaugeKeepsRegistered | internal/mqttclient/client.go:171-176 | after a set, every entry still carries the translated name of its own topic and that topic as help |
| MqttClient.SetGaugeTwice | internal/mqttclient/client.go:181-182 | a second set on a topic overwrites the first value and keeps the labels given when the gauge was created |
| MqttClient.AfterUpdate | internal/mqttclient/client.go:131-147 | the registry after one message, as `processUpdate` routes it; `UpdateEffect` gives its effect for each class of topic |
| MqttClient.UpdateEffect | internal/mqttclient/client.go:135-146 | ignored and counter topics leave the registry unchanged; any other topic ends with exactly one entry, holding the payload's value, and no other entry changes |
| MqttClient.Replay | internal/mqttclient/client.go:91-93 | the registry after the subscription callback has handled a stream of messages in order; `ReplayKeys` and `ReplayKeepsRegistered` give its topics and its invariant |
| MqttClient.ReplayKeys | internal/mqttclient/client.go:131-147 | after a stream of messages, the registry's topics are the earlier ones plus the stream's gauge-classified topics |
| MqttClient.ReplayKeepsRegistered | internal/mqttclient/client.go:170-183 | every entry keeps its topic's translated name and help across any stream of messages |
| MqttClient.FirstGaugeMessage | internal/mqttclient/client.go:131-183 | the first message on a counter-like gauge topic, delivered to an empty registry, creates exactly one gauge, named under `mqtt_broker_`, with the topic as help, the broker label and the payload's value |
| MqttClient.ConnectedClientsScenario | internal/mqttclient/client.go:131-183 | `7` on `$SYS/broker/clients/connected`, delivered to an empty registry, creates one gauge under `mqtt_broker_`, holding 7 and labelled with the broker's host name |
| MqttClient.Exporter.constructor | internal/mqttclient/client.go:16-17 | the registry starts empty |
| MqttClient.Exporter.ProcessGaugeMetric | internal/mqttclient/client.go:170-183 | the map is updated in place to the lookup-or-create-then-set registry, keeping every entry tied to its topic |
| MqttClient.Exporter.ProcessCounterMetric | internal/mqttclient/client.go:149-168 | the counter path leaves the registry as it was |
| MqttClient.Exporter.ProcessUpdate | internal/mqttclient/client.go:131-147 | routing a message leaves the registry as `AfterUpdate` describes: unchanged for ignored and counter topics, set for gauge topics |

## Left out

- main.go: flag parsing, the HTTP handlers and the metrics server. This is configuration and I/O.
- `RunMQTTClient` and `mqttConnect` (internal/mqttclient/client.go:48-128): client construction, TLS loading, client IDs derived from the clock, and the connect retry loop with its goroutine. These are foreign calls, wall-clock time and concurrency.
- The host name lookup `reader.Servers()[0].Hostname()` (internal/mqttclient/client.go:133): the host name is a parameter.
- `Collect`, `Describe` and `timeTrack` (collector.go:40-106): channels, goroutines, the wait group and elapsed-time measurement. Only the identity metric and `datacenterMetrics` are modelled, as pure values.
- `prometheus.NewGauge` and `MustRegister` (internal/mqttclient/client.go:172-178) are foreign library calls. A gauge is modelled as a record of name, help, labels and value in a map keyed by topic, so gauge object identity is not captured. The panics that `MustRegister` raises are not modelled. It panics when two topics translate to the same name, and `Names.TranslationCollides` shows that such topics exist. It also panics when Prometheus rejects a name: a topic with a second `$SYS` keeps that `$` in its name, as `Names.LaterSysKept` shows.
- The `counterMetrics` map (internal/mqttclient/client.go:18) is never written, so it is not modelled.
- Numerals.ParseValue: the value is the exact decimal of the token. `strconv.ParseFloat` rounding to float64, the signed zero of `-0.0`, and the out-of-range error path that returns 0 (internal/mqttclient/client.go:201-204) are floating-point behaviour and are not modelled.
- The counter path: the body of `processCounterMetric` is commented out, so counter topics change nothing. Descriptions of the exporter that speak of counters being created and set do not match this code; the model follows the code.

/**
 * The message path of internal/mqttclient/client.go: every message on
 * `$SYS/#` is classified by topic, and gauge topics are recorded in a
 * registry keyed by topic (lookup-or-create, then set the value).
 */
module MqttClient {
  import opened Wrappers
  import opened Numerals
  import Names
  import Collector

  /** How processUpdate routes a topic. */
  datatype Classification = Ignored | Counter | Gauge

  /** The branch of processUpdate: the ignore table first, then the counter table. */
  function Classify(topic: string, ignore: map<string, string>, counters: map<string, string>): (c: Classification)
    ensures c == Ignored <==> topic in ignore
    ensures c == Counter <==> topic !in ignore && topic in counters
    ensures c == Gauge <==> topic !in ignore && topic !in counters
  {
    if topic !in ignore then
      if topic in counters then Counter else Gauge
    else
      Ignored
  }

  /** The same tables consulted in the other order: the counter table first. */
  function ClassifyCounterFirst(topic: string, ignore: map<string, string>, counters: map<string, string>): Classification
  {
    if topic in counters then Counter
    else if topic in ignore then Ignored
    else Gauge
  }

  /** With disjoint tables the order of the two lookups does not matter. */
  lemma LookupOrderIrrelevant(topic: string, ignore: map<string, string>, counters: map<string, string>)
    requires ignore.Keys !! counters.Keys
    ensures Classify(topic, ignore, counters) == ClassifyCounterFirst(topic, ignore, counters)
  {
  }

  /** The shipped tables are disjoint, so their lookup order does not matter. */
  lemma ShippedLookupOrderIrrelevant(topic: string)
    ensures Classify(topic, Collector.IgnoreKeyMetrics, Collector.CounterKeyMetrics)
         == ClassifyCounterFirst(topic, Collector.IgnoreKeyMetrics, Collector.CounterKeyMetrics)
  {
    Collector.TablesDisjoint();
    LookupOrderIrrelevant(topic, Collector.IgnoreKeyMetrics, Collector.CounterKeyMetrics);
  }

  /**
   * The counter-like gauge topics are classified as gauges by the shipped
   * tables; their own table plays no part in it.
   */
  lemma CounterGaugeTopicsAreGauges(topic: string)
    requires topic in Collector.CounterGaugeMetrics
    ensures Classify(topic, Collector.IgnoreKeyMetrics, Collector.CounterKeyMetrics) == Gauge
  {
    Collector.CounterGaugeTopicsUnlisted();
    assert topic in Collector.CounterGaugeMetrics.Keys;
  }

  /** A registered gauge: the options it was created with and its current value. */
  datatype GaugeMetric = GaugeMetric(name: string, help: string, labels: map<string, string>, value: Decimal)

  /** The constant labels of every gauge: the broker's host name. */
  function BrokerLabels(hostname: string): map<string, string>
  {
    map["broker" := hostname]
  }

  /** `entry` was created for `topic`: it carries the translated name and the topic as help. */
  ghost predicate CreatedFor(topic: string, entry: GaugeMetric)
  {
    entry.name == Names.ParseForPrometheus(topic) && entry.help == topic
  }

  /** Every entry of the registry was created for its own topic. */
  ghost predicate Registered(gauges: map<string, GaugeMetric>)
  {
    forall topic :: topic in gauges ==> CreatedFor(topic, gauges[topic])
  }

  /** The gauge processGaugeMetric creates for a topic it has not seen, before its first Set. */
  function NewGauge(topic: string, labels: map<string, string>): GaugeMetric
  {
    GaugeMetric(Names.ParseForPrometheus(topic), topic, labels, Zero)
  }

  /** processGaugeMetric on the registry's value: lookup-or-create, then set. */
  function SetGauge(gauges: map<string, GaugeMetric>, topic: string, labels: map<string, string>, value: Decimal): (after: map<string, GaugeMetric>)
    ensures topic in after && after[topic].value == value
  {
    var entry := if topic in gauges then gauges[topic] else NewGauge(topic, labels);
    gauges[topic := entry.(value := value)]
  }

  /**
   * Lookup-or-create: a new topic gets one entry with the translated name, the
   * topic as help and the given labels; a known topic keeps its name, help and
   * labels and only takes the new value. No other entry changes and no key is lost.
   */
  lemma SetGaugeEffect(gauges: map<string, GaugeMetric>, topic: string, labels: map<string, string>, value: Decimal)
    ensures var after := SetGauge(gauges, topic, labels, value);
      && after.Keys == gauges.Keys + {topic}
      && (topic !in gauges ==> after[topic] == GaugeMetric(Names.ParseForPrometheus(topic), topic, labels, value))
      && (topic in gauges ==>
            after[topic] == GaugeMetric(gauges[topic].name, gauges[topic].help, gauges[topic].labels, value))
      && (forall t :: t in gauges && t != topic ==> after[t] == gauges[t])
  {
  }

  /** Inserting a new gauge when the topic is unknown and then setting its value is SetGauge. */
  lemma LookupOrCreateThenSet(gauges: map<string, GaugeMetric>, topic: string, labels: map<string, string>, value: Decimal)
    ensures var created := if topic in gauges then gauges else gauges[topic := NewGauge(topic, labels)];
      created[topic := created[topic].(value := value)] == SetGauge(gauges, topic, labels, value)
  {
  }

  /** Setting a gauge keeps every entry tied to its own topic. */
  lemma SetGaugeKeepsRegistered(gauges: map<string, GaugeMetric>, topic: string, labels: map<string, string>, value: Decimal)
    requires Registered(gauges)
    ensures Registered(SetGauge(gauges, topic, labels, value))
  {
  }

  /**
   * Recording a topic twice leaves one entry: the second call keeps the
   * labels of the first and overwrites only the value.
   */
  lemma SetGaugeTwice(gauges: map<string, GaugeMetric>, topic: string, labels1: map<string, string>, labels2: map<string, string>, v1: Decimal, v2: Decimal)
    ensures SetGauge(SetGauge(gauges, topic, labels1, v1), topic, labels2, v2) == SetGauge(gauges, topic, labels1, v2)
  {
  }

  /** The registry after one message, as processUpdate leaves it. */
  function AfterUpdate(gauges: map<string, GaugeMetric>, topic: string, payload: string, hostname: string,
                       ignore: map<string, string>, counters: map<string, string>): map<string, GaugeMetric>
  {
    match Classify(topic, ignore, counters)
    case Ignored => gauges
    case Counter => gauges
    case Gauge => SetGauge(gauges, topic, BrokerLabels(hostname), ParseValue(payload))
  }

  /**
   * Ignored and counter topics leave the registry as it was; every other topic
   * ends with exactly one entry, holding the payload's value.
   */
  lemma UpdateEffect(gauges: map<string, GaugeMetric>, topic: string, payload: string, hostname: string,
                     ignore: map<string, string>, counters: map<string, string>)
    ensures var after := AfterUpdate(gauges, topic, payload, hostname, ignore, counters);
      if topic in ignore || topic in counters then after == gauges
      else
        && after.Keys == gauges.Keys + {topic}
        && after[topic].value == ParseValue(payload)
        && (forall t :: t in gauges && t != topic ==> after[t] == gauges[t])
  {
    if topic !in ignore && topic !in counters {
      SetGaugeEffect(gauges, topic, BrokerLabels(hostname), ParseValue(payload));
    }
  }

  /** One message delivered on the `$SYS/#` subscription. */
  datatype Message = Message(topic: string, payload: string)

  /** The registry after a stream of messages, delivered in order. */
  function Replay(gauges: map<string, GaugeMetric>, msgs: seq<Message>, hostname: string,
                  ignore: map<string, string>, counters: map<string, string>): map<string, GaugeMetric>
    decreases |msgs|
  {
    if msgs == [] then gauges
    else
      var last := msgs[|msgs| - 1];
      AfterUpdate(Replay(gauges, msgs[..|msgs| - 1], hostname, ignore, counters), last.topic, last.payload, hostname, ignore, counters)
  }

  /** The topics of a message stream that are classified as gauges. */
  ghost function GaugeTopics(msgs: seq<Message>, ignore: map<string, string>, counters: map<string, string>): set<string>
  {
    set i | 0 <= i < |msgs| && Classify(msgs[i].topic, ignore, counters) == Gauge :: msgs[i].topic
  }

  /** The gauge topics of a stream grow by the last message's topic when it is a gauge. */
  lemma GaugeTopicsSnoc(msgs: seq<Message>, ignore: map<string, string>, counters: map<string, string>)
    requires msgs != []
    ensures var init, last := msgs[..|msgs| - 1], msgs[|msgs| - 1];
      GaugeTopics(msgs, ignore, counters) ==
        GaugeTopics(init, ignore, counters) + (if Classify(last.topic, ignore, counters) == Gauge then {last.topic} else {})
  {
    var init, last := msgs[..|msgs| - 1], msgs[|msgs| - 1];
    var g, gi := GaugeTopics(msgs, ignore, counters), GaugeTopics(init, ignore, counters);
    var extra: set<string> := if Classify(last.topic, ignore, counters) == Gauge then {last.topic} else {};
    forall t | t in g ensures t in gi + extra {
      var i :| 0 <= i < |msgs| && Classify(msgs[i].topic, ignore, counters) == Gauge && msgs[i].topic == t;
      if i < |init| { assert init[i] == msgs[i]; }
    }
    forall t | t in gi ensures t in g {
      var i :| 0 <= i < |init| && Classify(init[i].topic, ignore, counters) == Gauge && init[i].topic == t;
      assert msgs[i] == init[i];
    }
    forall t | t in extra ensures t in g {
      assert msgs[|msgs| - 1] == last;
    }
  }

  /**
   * Entries are never removed and created only for gauge topics: after a
   * stream, the registry holds exactly the earlier topics and the gauge topics
   * of the stream.
   */
  lemma {:induction false} ReplayKeys(gauges: map<string, GaugeMetric>, msgs: seq<Message>, hostname: string,
                                      ignore: map<string, string>, counters: map<string, string>)
    decreases |msgs|
    ensures Replay(gauges, msgs, hostname, ignore, counters).Keys == gauges.Keys + GaugeTopics(msgs, ignore, counters)
  {
    if msgs == [] {
      assert GaugeTopics(msgs, ignore, counters) == {};
    } else {
      var init, last := msgs[..|msgs| - 1], msgs[|msgs| - 1];
      ReplayKeys(gauges, init, hostname, ignore, counters);
      var before := Replay(gauges, init, hostname, ignore, counters);
      UpdateEffect(before, last.topic, last.payload, hostname, ignore, counters);
      GaugeTopicsSnoc(msgs, ignore, counters);
    }
  }

  /** A stream of messages keeps every entry tied to its own topic. */
  lemma {:induction false} ReplayKeepsRegistered(gauges: map<string, GaugeMetric>, msgs: seq<Message>, hostname: string,
                                                 ignore: map<string, string>, counters: map<string, string>)
    requires Registered(gauges)
    decreases |msgs|
    ensures Registered(Replay(gauges, msgs, hostname, ignore, counters))
  {
    if msgs != [] {
      var init, last := msgs[..|msgs| - 1], msgs[|msgs| - 1];
      ReplayKeepsRegistered(gauges, init, hostname, ignore, counters);
      var before := Replay(gauges, init, hostname, ignore, counters);
      if Classify(last.topic, ignore, counters) == Gauge {
        SetGaugeKeepsRegistered(before, last.topic, BrokerLabels(hostname), ParseValue(last.payload));
      }
    }
  }

  /** The payload `7` reads as 7. */
  lemma SevenParses()
    ensures ParseValue("7") == Decimal(7, 0)
  {
    assert DigitRun("7", 1) == 0;
    assert FirstMatch("7") == Some(Span(0, 1));
    assert AllDigits("7");
  }

  /**
   * A first message on a topic of the counter-gauge table creates exactly one
   * gauge: named after the topic under `mqtt_broker_`, described by the
   * topic, labelled with the broker's host name, holding the payload's value.
   */
  lemma FirstGaugeMessage(topic: string, payload: string, hostname: string)
    requires topic in Collector.CounterGaugeMetrics
    ensures var after := AfterUpdate(map[], topic, payload, hostname, Collector.IgnoreKeyMetrics, Collector.CounterKeyMetrics);
      && after.Keys == {topic}
      && after[topic] == GaugeMetric(Names.ParseForPrometheus(topic), topic, map["broker" := hostname], ParseValue(payload))
      && |after[topic].name| == |topic|
      && after[topic].name[..12] == "mqtt_broker_"
  {
    CounterGaugeTopicsAreGauges(topic);
    Collector.TableNamesUnderBroker(topic);
  }

  /**
   * The connected-clients example: `7` published on
   * `$SYS/broker/clients/connected` becomes a gauge holding 7.
   */
  lemma ConnectedClientsScenario(topic: string, payload: string, hostname: string)
    requires topic == "$SYS/broker/clients/connected" && payload == "7"
    ensures var after := AfterUpdate(map[], topic, payload, hostname, Collector.IgnoreKeyMetrics, Collector.CounterKeyMetrics);
      && after.Keys == {topic}
      && after[topic].value == Decimal(7, 0)
      && after[topic].labels == map["broker" := hostname]
      && after[topic].name[..12] == "mqtt_broker_"
  {
    FirstGaugeMessage(topic, payload, hostname);
    SevenParses();
  }

  /**
   * The exporter's metric state: the gauges created so far, keyed by topic
   * (the package-level gaugeMetrics map).
   */
  class Exporter {
    var gaugeMetrics: map<string, GaugeMetric>

    ghost predicate Valid()
      reads this
    {
      Registered(gaugeMetrics)
    }

    constructor ()
      ensures Valid() && gaugeMetrics == map[]
    {
      gaugeMetrics := map[];
    }

    /** processGaugeMetric: create and register the gauge on first sight, then set its value. */
    method ProcessGaugeMetric(topic: string, payload: string, labels: map<string, string>)
      requires Valid()
      modifies this
      ensures Valid()
      ensures gaugeMetrics == SetGauge(old(gaugeMetrics), topic, labels, ParseValue(payload))
    {
      var value := ParseValue(payload);
      LookupOrCreateThenSet(gaugeMetrics, topic, labels, value);
      SetGaugeKeepsRegistered(gaugeMetrics, topic, labels, value);
      if topic !in gaugeMetrics {
        gaugeMetrics := gaugeMetrics[topic := NewGauge(topic, labels)];
      }
      gaugeMetrics := gaugeMetrics[topic := gaugeMetrics[topic].(value := value)];
    }

    /** processCounterMetric: its body is commented out, so it changes nothing. */
    method ProcessCounterMetric(topic: string, payload: string, labels: map<string, string>)
      ensures gaugeMetrics == old(gaugeMetrics)
    {
    }

    /** processUpdate: route one message by its topic. */
    method ProcessUpdate(topic: string, payload: string, hostname: string,
                         ignore: map<string, string>, counters: map<string, string>)
      requires Valid()
      modifies this
      ensures Valid()
      ensures gaugeMetrics == AfterUpdate(old(gaugeMetrics), topic, payload, hostname, ignore, counters)
    {
      var labels := BrokerLabels(hostname);
      if topic !in ignore {
        if topic in counters {
          ProcessCounterMetric(topic, payload, labels);
        } else {
          ProcessGaugeMetric(topic, payload, labels);
        }
      }
    }
  }
}

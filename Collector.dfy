/**
 * The static parts of collector.go: the topic tables the message path
 * consults, the placeholder datacenter metric and the identity metric every
 * scrape starts with.
 */
module Collector {
  import opened Numerals
  import Names

  /** Topics that are never exported, with the broker's description of each. */
  const IgnoreKeyMetrics: map<string, string> := map[
    "$SYS/broker/timestamp" := "The timestamp at which this particular build of the broker was made. Static.",
    "$SYS/broker/version" := "The version of the broker. Static.",
    "$SYS/broker/clients/active" := "//deprecated// in favour of $SYS/broker/clients/connected",
    "$SYS/broker/clients/inactive" := "//deprecated// in favour of $SYS/broker/clients/disconnected"
  ]

  /** Topics whose payload is a running total kept by the broker. */
  const CounterKeyMetrics: map<string, string> := map[
    "$SYS/broker/bytes/received" := "The total number of bytes received since the broker started.",
    "$SYS/broker/bytes/sent" := "The total number of bytes sent since the broker started.",
    "$SYS/broker/messages/received" := "The total number of messages of any type received since the broker started.",
    "$SYS/broker/messages/sent" := "The total number of messages of any type sent since the broker started.",
    "$SYS/broker/publish/bytes/received" := "The total number of PUBLISH bytes received since the broker started.",
    "$SYS/broker/publish/bytes/sent" := "The total number of PUBLISH bytes sent since the broker started.",
    "$SYS/broker/publish/messages/received" := "The total number of PUBLISH messages received since the broker started.",
    "$SYS/broker/publish/messages/sent" := "The total number of PUBLISH messages sent since the broker started.",
    "$SYS/broker/publish/messages/dropped" := "The total number of PUBLISH messages that have been dropped due to inflight/queuing limits.",
    "$SYS/broker/uptime" := "The total number of seconds since the broker started.",
    "$SYS/broker/clients/maximum" := "The maximum number of clients connected simultaneously since the broker started",
    "$SYS/broker/clients/total" := "The total number of clients connected since the broker started."
  ]

  /** Topics described as counter-like gauges; no code path reads this table. */
  const CounterGaugeMetrics: map<string, string> := map[
    "$SYS/broker/clients/connected" := "number of clients connected",
    "$SYS/broker/clients/disconnected" := "number of clients disconnected",
    "$SYS/broker/subscriptions/count" := "number of active subscriptions"
  ]

  /** The common prefix of every table key. */
  const BrokerTopicPrefix: string := "$SYS/broker/"

  /** The Metric record of collector.go: name, help text, value and labels. */
  datatype Metric = Metric(name: string, help: string, value: Decimal, labels: map<string, string>)

  const One := Decimal(1, 0)

  /** datacenterMetrics: a fixed one-element list standing in for an extension point. */
  function DatacenterMetrics(): seq<Metric>
  {
    [Metric("vmware_datastore_size", "Maximum capacity of this datastore, in bytes.", One,
            map["datastore" := "a", "cluster" := "a", "datacenter" := "a"])]
  }

  /** The identity metric of Collect, for the build's application name and version. */
  function IdentityMetric(application: string, version: string): (m: Metric)
    ensures |m.name| == |application|
    ensures forall i :: 0 <= i < |m.name| ==> !Names.IsSeparator(m.name[i])
    ensures m.labels.Keys == {"version"} && m.labels["version"] == version
    ensures m.value == One
    ensures m.name == Names.ParseForPrometheus(application)
    ensures m.help == "github.com/jnovack/" + application
  {
    Metric(Names.ParseForPrometheus(application), "github.com/jnovack/" + application, One, map["version" := version])
  }

  /** The datacenter list holds exactly one metric, of value 1, with three labels. */
  lemma DatacenterMetricsShape()
    ensures |DatacenterMetrics()| == 1
    ensures var m := DatacenterMetrics()[0];
      m.name == "vmware_datastore_size" && m.value == One &&
      m.labels.Keys == {"datastore", "cluster", "datacenter"}
  {
  }

  /** The ignore table holds four topics. */
  lemma IgnoreTableSize()
    ensures |IgnoreKeyMetrics| == 4
  {
    IgnoreTableKeys();
    DistinctTopics4();
  }

  /** The counter table holds twelve topics. */
  lemma CounterTableSize()
    ensures |CounterKeyMetrics| == 12
  {
    CounterTableKeys();
    DistinctTopics12();
  }

  /** The counter-like gauge table holds three topics. */
  lemma CounterGaugeTableSize()
    ensures |CounterGaugeMetrics| == 3
  {
    CounterGaugeTableKeys();
    DistinctTopics3();
  }

  /** The ignore table's topics, listed. */
  lemma IgnoreTableKeys()
    ensures IgnoreKeyMetrics.Keys == {"$SYS/broker/timestamp", "$SYS/broker/version", "$SYS/broker/clients/active", "$SYS/broker/clients/inactive"}
  {
  }

  /** The four ignored topics are distinct. */
  lemma DistinctTopics4()
    ensures |{"$SYS/broker/timestamp", "$SYS/broker/version", "$SYS/broker/clients/active", "$SYS/broker/clients/inactive"}| == 4
  {
  }

  /** The counter table's topics, listed. */
  lemma CounterTableKeys()
    ensures CounterKeyMetrics.Keys == {"$SYS/broker/bytes/received", "$SYS/broker/bytes/sent", "$SYS/broker/messages/received", "$SYS/broker/messages/sent", "$SYS/broker/publish/bytes/received", "$SYS/broker/publish/bytes/sent", "$SYS/broker/publish/messages/received", "$SYS/broker/publish/messages/sent", "$SYS/broker/publish/messages/dropped", "$SYS/broker/uptime", "$SYS/broker/clients/maximum", "$SYS/broker/clients/total"}
  {
  }

  /** The twelve counter topics are distinct. */
  lemma DistinctTopics12()
    ensures |{"$SYS/broker/bytes/received", "$SYS/broker/bytes/sent", "$SYS/broker/messages/received", "$SYS/broker/messages/sent", "$SYS/broker/publish/bytes/received", "$SYS/broker/publish/bytes/sent", "$SYS/broker/publish/messages/received", "$SYS/broker/publish/messages/sent", "$SYS/broker/publish/messages/dropped", "$SYS/broker/uptime", "$SYS/broker/clients/maximum", "$SYS/broker/clients/total"}| == 12
  {
  }

  /** The counter-like gauge table's topics, listed. */
  lemma CounterGaugeTableKeys()
    ensures CounterGaugeMetrics.Keys == {"$SYS/broker/clients/connected", "$SYS/broker/clients/disconnected", "$SYS/broker/subscriptions/count"}
  {
  }

  /** The three counter-like gauge topics are distinct. */
  lemma DistinctTopics3()
    ensures |{"$SYS/broker/clients/connected", "$SYS/broker/clients/disconnected", "$SYS/broker/subscriptions/count"}| == 3
  {
  }

  /** No topic is both ignored and a counter. */
  lemma TablesDisjoint()
    ensures IgnoreKeyMetrics.Keys !! CounterKeyMetrics.Keys
  {
  }

  /** No counter-like gauge topic is in the ignore or counter table. */
  lemma CounterGaugeTopicsUnlisted()
    ensures CounterGaugeMetrics.Keys !! IgnoreKeyMetrics.Keys
    ensures CounterGaugeMetrics.Keys !! CounterKeyMetrics.Keys
  {
  }

  /** `topic` lies under `$SYS/broker/`. */
  predicate UnderBroker(topic: string)
  {
    |topic| >= |BrokerTopicPrefix| && topic[..|BrokerTopicPrefix|] == BrokerTopicPrefix
  }

  /** Every ignored topic lies under `$SYS/broker/`. */
  lemma IgnoreTopicsUnderBroker(topic: string)
    requires topic in IgnoreKeyMetrics
    ensures UnderBroker(topic)
  {
    assert UnderBroker("$SYS/broker/timestamp");
    assert UnderBroker("$SYS/broker/version");
    assert UnderBroker("$SYS/broker/clients/active");
    assert UnderBroker("$SYS/broker/clients/inactive");
  }

  /** Every counter topic lies under `$SYS/broker/`. */
  lemma CounterTopicsUnderBroker(topic: string)
    requires topic in CounterKeyMetrics
    ensures UnderBroker(topic)
  {
    assert UnderBroker("$SYS/broker/bytes/received");
    assert UnderBroker("$SYS/broker/bytes/sent");
    assert UnderBroker("$SYS/broker/messages/received");
    assert UnderBroker("$SYS/broker/messages/sent");
    assert UnderBroker("$SYS/broker/publish/bytes/received");
    assert UnderBroker("$SYS/broker/publish/bytes/sent");
    assert UnderBroker("$SYS/broker/publish/messages/received");
    assert UnderBroker("$SYS/broker/publish/messages/sent");
    assert UnderBroker("$SYS/broker/publish/messages/dropped");
    assert UnderBroker("$SYS/broker/uptime");
    assert UnderBroker("$SYS/broker/clients/maximum");
    assert UnderBroker("$SYS/broker/clients/total");
  }

  /** Every counter-like gauge topic lies under `$SYS/broker/`. */
  lemma CounterGaugeTopicsUnderBroker(topic: string)
    requires topic in CounterGaugeMetrics
    ensures UnderBroker(topic)
  {
    assert UnderBroker("$SYS/broker/clients/connected");
    assert UnderBroker("$SYS/broker/clients/disconnected");
    assert UnderBroker("$SYS/broker/subscriptions/count");
  }

  /** Every topic of the three tables is exported under a name beginning `mqtt_broker_`. */
  lemma TableNamesUnderBroker(topic: string)
    requires topic in IgnoreKeyMetrics || topic in CounterKeyMetrics || topic in CounterGaugeMetrics
    ensures var name := Names.ParseForPrometheus(topic); |name| >= 12 && name[..12] == "mqtt_broker_"
  {
    if topic in IgnoreKeyMetrics {
      IgnoreTopicsUnderBroker(topic);
    } else if topic in CounterKeyMetrics {
      CounterTopicsUnderBroker(topic);
    } else {
      CounterGaugeTopicsUnderBroker(topic);
    }
    Names.BrokerTopicName(topic);
  }
}

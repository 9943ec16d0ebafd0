/**
 * The name translator of internal/mqttclient/client.go: a broker topic such as
 * `$SYS/broker/clients/connected` becomes a metric name such as
 * `mqtt_broker_clients_connected`.
 */
module Names {
  import opened Wrappers

  /** The topic prefix the broker uses for its own statistics. */
  const SysPrefix: string := "$SYS"
  /** The namespace that replaces the first occurrence of SysPrefix. */
  const Namespace: string := "mqtt"

  /** `pat` occurs in `s` starting at index `j`. */
  predicate OccursAt(s: string, pat: string, j: nat)
  {
    j + |pat| <= |s| && s[j..j + |pat|] == pat
  }

  /** Leftmost occurrence of `pat` in `s` at or after `i` (strings.Index on s[i:]). */
  function IndexFrom(s: string, pat: string, i: nat): (r: Option<nat>)
    requires i <= |s|
    decreases |s| - i
    ensures r.Some? ==> i <= r.value && OccursAt(s, pat, r.value)
    ensures r.Some? ==> forall j :: i <= j < r.value ==> !OccursAt(s, pat, j)
    ensures r.None? ==> forall j :: i <= j <= |s| ==> !OccursAt(s, pat, j)
  {
    if OccursAt(s, pat, i) then Some(i)
    else if i == |s| then None
    else IndexFrom(s, pat, i + 1)
  }

  /** Leftmost occurrence of `pat` in `s`, as Go's strings.Index. */
  function IndexOf(s: string, pat: string): Option<nat>
  {
    IndexFrom(s, pat, 0)
  }

  /** strings.Replace(s, target, replacement, 1): only the leftmost occurrence is replaced. */
  function ReplaceFirst(s: string, target: string, replacement: string): (r: string)
    ensures IndexOf(s, target).None? ==> r == s
    ensures IndexOf(s, target).Some? ==>
      var k := IndexOf(s, target).value;
      |r| == |s| - |target| + |replacement| &&
      r[..k] == s[..k] && r[k..k + |replacement|] == replacement && r[k + |replacement|..] == s[k + |target|..]
  {
    match IndexOf(s, target)
    case None => s
    case Some(k) => s[..k] + replacement + s[k + |target|..]
  }

  /** strings.Replace(s, from, to, -1) for one-character `from` and `to`. */
  function ReplaceChar(s: string, from: char, to: char): (r: string)
    ensures |r| == |s|
    ensures forall i :: 0 <= i < |s| ==> r[i] == (if s[i] == from then to else s[i])
  {
    if s == [] then [] else [if s[0] == from then to else s[0]] + ReplaceChar(s[1..], from, to)
  }

  /** The characters a metric name may not contain; each becomes `_`. */
  predicate IsSeparator(c: char)
  {
    c == '/' || c == ' ' || c == '-' || c == '.'
  }

  /** Per-character reference for the four all-occurrence replacements. */
  function Sanitize(c: char): char
  {
    if IsSeparator(c) then '_' else c
  }

  /** client.go:187-190: every separator becomes `_`, one replacement per kind. */
  function ReplaceSeparators(s: string): (r: string)
    ensures |r| == |s|
    ensures forall i :: 0 <= i < |s| ==> r[i] == Sanitize(s[i])
  {
    var s1 := ReplaceChar(s, '/', '_');
    var s2 := ReplaceChar(s1, ' ', '_');
    var s3 := ReplaceChar(s2, '-', '_');
    var s4 := ReplaceChar(s3, '.', '_');
    assert forall i :: 0 <= i < |s| ==> s4[i] == Sanitize(s[i]) by {
      forall i | 0 <= i < |s| ensures s4[i] == Sanitize(s[i]) {
        assert s1[i] == (if s[i] == '/' then '_' else s[i]);
        assert s2[i] == (if s1[i] == ' ' then '_' else s1[i]);
        assert s3[i] == (if s2[i] == '-' then '_' else s2[i]);
      }
    }
    s4
  }

  /** parseForPrometheus: the first `$SYS` becomes `mqtt`, then every separator becomes `_`. */
  function ParseForPrometheus(incoming: string): (outgoing: string)
    ensures |outgoing| == |incoming|
    ensures forall i :: 0 <= i < |outgoing| ==> !IsSeparator(outgoing[i])
  {
    ReplaceSeparators(ReplaceFirst(incoming, SysPrefix, Namespace))
  }

  /** Index `i` lies inside the leftmost `$SYS` of `s`. */
  predicate InFirstSys(s: string, i: nat)
  {
    IndexOf(s, SysPrefix).Some? && IndexOf(s, SysPrefix).value <= i < IndexOf(s, SysPrefix).value + |SysPrefix|
  }

  /** The replacement of the first `$SYS`, position by position. */
  lemma ReplaceFirstSysAt(incoming: string, i: nat)
    requires i < |incoming|
    ensures var s0 := ReplaceFirst(incoming, SysPrefix, Namespace);
      |s0| == |incoming| &&
      s0[i] == if InFirstSys(incoming, i)
               then Namespace[i - IndexOf(incoming, SysPrefix).value]
               else incoming[i]
  {
    var s0 := ReplaceFirst(incoming, SysPrefix, Namespace);
    match IndexOf(incoming, SysPrefix)
    case None =>
    case Some(k) =>
      if i < k {
        assert s0[i] == s0[..k][i] == incoming[..k][i];
      } else if i < k + 4 {
        assert s0[i] == s0[k..k + 4][i - k];
      } else {
        assert s0[i] == s0[k + 4..][i - k - 4] == incoming[k + 4..][i - k - 4];
      }
  }

  /**
   * Position by position: inside the first `$SYS` the output spells `mqtt`;
   * everywhere else each character is sanitized on its own.
   */
  lemma TranslateAt(incoming: string, i: nat)
    requires i < |incoming|
    ensures var out := ParseForPrometheus(incoming);
      out[i] == if InFirstSys(incoming, i)
                then Namespace[i - IndexOf(incoming, SysPrefix).value]
                else Sanitize(incoming[i])
  {
    ReplaceFirstSysAt(incoming, i);
    forall j | 0 <= j < |Namespace| ensures Sanitize(Namespace[j]) == Namespace[j] {
    }
  }

  /**
   * Only the first `$SYS` is rewritten: any later occurrence survives intact,
   * since none of `$`, `S`, `Y` is a separator.
   */
  lemma LaterSysKept(incoming: string, j: nat)
    requires OccursAt(incoming, SysPrefix, j)
    requires IndexOf(incoming, SysPrefix).Some? && IndexOf(incoming, SysPrefix).value < j
    ensures ParseForPrometheus(incoming)[j..j + |SysPrefix|] == SysPrefix
  {
    var k := IndexOf(incoming, SysPrefix).value;
    var out := ParseForPrometheus(incoming);
    // the `$` at j cannot lie inside the first occurrence, whose last three are `SYS`
    assert incoming[j] == '$' by {
      assert incoming[j] == incoming[j..j + 4][0];
    }
    forall i | k < i < k + 4 ensures incoming[i] != '$' {
      assert incoming[i] == incoming[k..k + 4][i - k];
    }
    assert k + 4 <= j;
    forall m | 0 <= m < |SysPrefix| ensures Sanitize(SysPrefix[m]) == SysPrefix[m] {
    }
    forall i | j <= i < j + 4 ensures out[i] == SysPrefix[i - j] {
      TranslateAt(incoming, i);
      assert !InFirstSys(incoming, i);
      assert incoming[i] == incoming[j..j + 4][i - j] == SysPrefix[i - j];
    }
  }

  /** A string that starts with `$SYS` has its first occurrence at 0. */
  lemma SysAtStart(s: string)
    requires |s| >= 4 && s[..4] == SysPrefix
    ensures IndexOf(s, SysPrefix) == Some(0)
  {
    assert OccursAt(s, SysPrefix, 0);
  }

  /** Every topic under `$SYS/broker/` becomes a name under `mqtt_broker_`. */
  lemma BrokerTopicName(incoming: string)
    requires |incoming| >= 12 && incoming[..12] == "$SYS/broker/"
    ensures var out := ParseForPrometheus(incoming); |out| >= 12 && out[..12] == "mqtt_broker_"
  {
    var prefix := incoming[..12];
    assert incoming[..4] == prefix[..4];
    SysAtStart(incoming);
    var out := ParseForPrometheus(incoming);
    forall i | 0 <= i < 4 ensures out[i] == Namespace[i] {
      TranslateAt(incoming, i);
    }
    forall i | 4 <= i < 12 ensures out[i] == Sanitize(prefix[i]) {
      TranslateAt(incoming, i);
      assert incoming[i] == prefix[i];
    }
    assert out[..12] == "mqtt_broker_";
  }

  /**
   * A topic under `$SYS/broker/` translates to `mqtt_broker_` followed by its
   * remainder with every separator made `_`.
   */
  lemma BrokerTopicTranslation(rest: string)
    ensures ParseForPrometheus("$SYS/broker/" + rest) == "mqtt_broker_" + ReplaceSeparators(rest)
  {
    var topic := "$SYS/broker/" + rest;
    assert topic[..12] == "$SYS/broker/";
    BrokerTopicName(topic);
    var out, tail := ParseForPrometheus(topic), ReplaceSeparators(rest);
    assert topic[..4] == "$SYS";
    SysAtStart(topic);
    forall i | 12 <= i < |topic| ensures out[i] == tail[i - 12] {
      TranslateAt(topic, i);
      assert topic[i] == rest[i - 12];
    }
    assert out == out[..12] + out[12..];
  }

  /**
   * The translation is not injective: distinct topics can share a name, and
   * the registry keys gauges by topic, not by name.
   */
  lemma TranslationCollides()
    ensures "a-b" != "a.b" && ParseForPrometheus("a-b") == ParseForPrometheus("a.b")
  {
    assert IndexOf("a-b", SysPrefix).None?;
    assert IndexOf("a.b", SysPrefix).None?;
    var x, y := ParseForPrometheus("a-b"), ParseForPrometheus("a.b");
    assert x[1] == y[1] == '_';
  }
}

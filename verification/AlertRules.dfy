/** The pure part of the alert engine: configuration, condition samples, the severity and
    clear bands of a sample, and the decision taken for one sample of one condition. */
module AlertRules {
  import opened Units
  import opened Options

  /** Go's zero time, which the engine uses as "not set". */
  const ZERO_TIME: Time := 0

  datatype Severity = Info | Warning | Critical

  datatype Transition = Raised | Repeated | Escalated | Cleared | Summarized

  /** A threshold pair; a zero threshold is disabled. */
  datatype Level = Level(warn: real, crit: real)

  /** One observation of a condition. `message` is the rendering of `value`. */
  datatype Sample = Sample(rule: string, category: string, domainID: string, domainName: string,
                           subject: string, value: real, level: Level, lowerWorse: bool, message: string)

  datatype Settings = Settings(mute: set<string>, history: int, dedup: int, raiseAfter: int,
                               clearAfter: int, clearRatio: real)

  /** The settings that pass validation. */
  type Config = c: Settings | 0.0 < c.clearRatio <= 1.0 && 1 <= c.history
    witness Settings({}, 1000, 60_000_000_000, 3_000_000_000, 10_000_000_000, 0.8)

  function ConditionKey(rule: string, domainID: string, subject: string): string {
    rule + "|" + domainID + "|" + subject
  }

  function SampleKey(s: Sample): string {
    ConditionKey(s.rule, s.domainID, s.subject)
  }

  // ---------------------------------------------------------------- bands

  predicate Over(lowerWorse: bool, threshold: real, v: real) {
    threshold != 0.0 && if lowerWorse then v <= threshold else v >= threshold
  }

  /** The severity of a value, ignoring hysteresis; Info means "below warning". */
  function SeverityAt(level: Level, lowerWorse: bool, v: real): Severity {
    if Over(lowerWorse, level.crit, v) then Critical
    else if Over(lowerWorse, level.warn, v) then Warning
    else Info
  }

  /** The threshold the clear level is derived from: the lowest enabled one. */
  function BaseThreshold(level: Level): real {
    if level.warn == 0.0 then level.crit else level.warn
  }

  /** Whether a value is under the clear level. */
  predicate ClearAt(level: Level, lowerWorse: bool, ratio: real, v: real)
    requires 0.0 < ratio <= 1.0
  {
    if lowerWorse then v > BaseThreshold(level) / ratio else v < BaseThreshold(level) * ratio
  }

  function SampleSeverity(s: Sample): Severity {
    SeverityAt(s.level, s.lowerWorse, s.value)
  }

  predicate SampleClear(cfg: Config, s: Sample) {
    ClearAt(s.level, s.lowerWorse, cfg.clearRatio, s.value)
  }

  /** The severities in ascending order. */
  function Rank(sev: Severity): nat {
    match sev
    case Info => 0
    case Warning => 1
    case Critical => 2
  }

  /** Value v is at least as bad as value w. */
  predicate AsBad(lowerWorse: bool, v: real, w: real) {
    if lowerWorse then v <= w else w <= v
  }

  /** A value is critical exactly when an enabled critical threshold is reached, a warning exactly
      when only an enabled warning threshold is, and otherwise neither. */
  lemma SeverityIff(level: Level, lowerWorse: bool, v: real)
    ensures SeverityAt(level, lowerWorse, v) == Critical <==> level.crit != 0.0 && AsBad(lowerWorse, v, level.crit)
    ensures SeverityAt(level, lowerWorse, v) == Warning <==>
              && level.warn != 0.0 && AsBad(lowerWorse, v, level.warn)
              && (level.crit == 0.0 || !AsBad(lowerWorse, v, level.crit))
  {
  }

  /** A worse value never has a lower severity. */
  lemma SeverityMonotone(level: Level, lowerWorse: bool, v: real, w: real)
    requires AsBad(lowerWorse, v, w)
    ensures Rank(SeverityAt(level, lowerWorse, w)) <= Rank(SeverityAt(level, lowerWorse, v))
  {
  }

  /** The clear level itself is not clear, and every value strictly better than it is: a fraction
      of the lowest enabled threshold, or that threshold divided by it where lower is worse. */
  lemma ClearIff(level: Level, lowerWorse: bool, ratio: real, v: real)
    requires 0.0 < ratio <= 1.0
    ensures var t := if level.warn != 0.0 then level.warn else level.crit;
            ClearAt(level, lowerWorse, ratio, v) <==> if lowerWorse then t < v * ratio else v < t * ratio
  {
    if lowerWorse {
      var t := BaseThreshold(level);
      var u := t / ratio;
      assert u * ratio == t;
      ScaleOrder(u, v, ratio);
    }
  }

  lemma ScaleOrder(u: real, v: real, ratio: real)
    requires 0.0 < ratio
    ensures u < v <==> u * ratio < v * ratio
  {
    if u < v {
      assert (v - u) * ratio > 0.0;
    } else {
      assert (u - v) * ratio >= 0.0;
    }
  }

  /** The condition key tells rule, domain and subject apart, unless a rule or a domain has the
      separator in it. */
  lemma KeyIdentifies(rule: string, domainID: string, subject: string, rule': string, domainID': string, subject': string)
    requires '|' !in rule && '|' !in domainID && '|' !in rule' && '|' !in domainID'
    ensures ConditionKey(rule, domainID, subject) == ConditionKey(rule', domainID', subject') <==>
              rule == rule' && domainID == domainID' && subject == subject'
  {
    if ConditionKey(rule, domainID, subject) == ConditionKey(rule', domainID', subject') {
      var rest, rest' := domainID + "|" + subject, domainID' + "|" + subject';
      assert ConditionKey(rule, domainID, subject) == rule + "|" + rest;
      assert ConditionKey(rule', domainID', subject') == rule' + "|" + rest';
      SeparatorIdentifies(rule, rest, rule', rest');
      SeparatorIdentifies(domainID, subject, domainID', subject');
    }
  }

  lemma SeparatorIdentifies(a: string, b: string, a': string, b': string)
    requires '|' !in a && '|' !in a' && a + "|" + b == a' + "|" + b'
    ensures a == a' && b == b'
  {
    var s := a + "|" + b;
    assert s[|a|] == '|' && s[|a'|] == '|';
    assert |a| == |a'|;
    assert s[..|a|] == a && s[..|a'|] == a' && s[|a| + 1..] == b && s[|a'| + 1..] == b';
  }

  /** Otherwise two different conditions can share a key. */
  lemma KeyCollides()
    ensures ConditionKey("a|b", "c", "d") == ConditionKey("a", "b|c", "d")
  {
  }

  /** Thresholds in the order the documentation shows them: nonnegative, and the critical one at
      least as bad as the warning one when both are enabled. */
  predicate Ordered(level: Level, lowerWorse: bool) {
    && 0.0 <= level.warn && 0.0 <= level.crit
    && (level.warn != 0.0 && level.crit != 0.0 ==>
          if lowerWorse then level.crit <= level.warn else level.warn <= level.crit)
  }

  /** A check on the thresholds alone: no enabled threshold lies beyond the clear level. */
  predicate ClearLevelOutside(level: Level, lowerWorse: bool, ratio: real)
    requires 0.0 < ratio <= 1.0
  {
    var t := BaseThreshold(level);
    if lowerWorse then
      (level.warn != 0.0 ==> level.warn <= t / ratio) && (level.crit != 0.0 ==> level.crit <= t / ratio)
    else
      (level.warn != 0.0 ==> t * ratio <= level.warn) && (level.crit != 0.0 ==> t * ratio <= level.crit)
  }

  /** No value is both under the clear level and over a threshold. */
  ghost predicate BandsDisjoint(level: Level, lowerWorse: bool, ratio: real)
    requires 0.0 < ratio <= 1.0
  {
    forall v: real :: ClearAt(level, lowerWorse, ratio, v) ==> SeverityAt(level, lowerWorse, v) == Info
  }

  lemma OrderedKeepsClearLevelOutside(level: Level, lowerWorse: bool, ratio: real)
    requires 0.0 < ratio <= 1.0
    requires Ordered(level, lowerWorse)
    ensures ClearLevelOutside(level, lowerWorse, ratio)
  {
    if level.warn == 0.0 {
      ScaleDown(level.crit, ratio);
    } else {
      ScaleDown(level.warn, ratio);
    }
  }

  lemma ScaleDown(t: real, ratio: real)
    requires 0.0 < ratio <= 1.0 && 0.0 <= t
    ensures t * ratio <= t <= t / ratio
  {
    var u := t / ratio;
    assert u * ratio == t;
    assert 0.0 <= u;
    assert u * ratio <= u * 1.0;
    assert t * ratio <= t * 1.0;
  }

  /** The bands never overlap exactly when no enabled threshold lies beyond the clear level. */
  lemma BandsDisjointIff(level: Level, lowerWorse: bool, ratio: real)
    requires 0.0 < ratio <= 1.0
    ensures BandsDisjoint(level, lowerWorse, ratio) <==> ClearLevelOutside(level, lowerWorse, ratio)
  {
    if !ClearLevelOutside(level, lowerWorse, ratio) {
      var v := OverlapValue(level, lowerWorse, ratio);
    }
  }

  /** A value in both bands, when the thresholds allow one. */
  lemma OverlapValue(level: Level, lowerWorse: bool, ratio: real) returns (v: real)
    requires 0.0 < ratio <= 1.0
    requires !ClearLevelOutside(level, lowerWorse, ratio)
    ensures ClearAt(level, lowerWorse, ratio, v) && SeverityAt(level, lowerWorse, v) != Info
  {
    var t := BaseThreshold(level);
    if lowerWorse {
      v := if level.warn != 0.0 && level.warn > t / ratio then level.warn else level.crit;
    } else {
      v := if level.warn != 0.0 && level.warn < t * ratio then level.warn else level.crit;
    }
  }

  // ---------------------------------------------------------------- one step

  /** The timers kept per condition. */
  datatype Timers = Timers(pending: Severity, pendingAt: Time, belowAt: Time)

  const FRESH_TIMERS := Timers(Info, ZERO_TIME, ZERO_TIME)

  /** What one sample does to a condition. */
  datatype Action = Stay | Fire | Escalate | Resolve

  /** The pending timer restarts whenever the severity changes. */
  function Pend(t: Timers, sev: Severity, now: Time): Timers {
    if sev != t.pending then t.(pending := sev, pendingAt := now) else t
  }

  /** The decision for one sample, given the timers and the severity the condition fires at. */
  function Decide(cfg: Config, t: Timers, firing: Option<Severity>, s: Sample, now: Time): (Timers, Action) {
    var sev := SampleSeverity(s);
    var t1 := Pend(t, sev, now);
    var held := now - t1.pendingAt >= cfg.raiseAfter;
    if firing.None? then
      if sev == Info || !held then (t1, Stay) else (t1.(belowAt := ZERO_TIME), Fire)
    else if SampleClear(cfg, s) then
      var below := if t1.belowAt == ZERO_TIME then now else t1.belowAt;
      if now - below >= cfg.clearAfter then (t1.(belowAt := ZERO_TIME), Resolve)
      else (t1.(belowAt := below), Stay)
    else
      (t1.(belowAt := ZERO_TIME), if sev != Info && sev != firing.value && held then Escalate else Stay)
  }
}

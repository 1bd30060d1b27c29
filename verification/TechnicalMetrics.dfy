/**
 The technical snapshot: totals over metric events, the health of each listener at its latest
 report, and parser decisions per source.  Of the metadata only the three entries read here
 are kept.
 */
module TechnicalMetrics {
  import opened Options
  import opened Counting

  datatype MetricName =
    | QueueDelayMs | AiFallbackAttempt | AiValidationFailure | DedupDecision
    | NotificationRetry | NotificationError | ListenerHealth | SourceParserDecision

  datatype Metadata = Metadata(decision: Option<string>, status: Option<string>, sourceId: Option<string>)

  datatype Metric = Metric(name: MetricName, at: int, value: real, subject: Option<string>, metadata: Metadata)

  datatype Snapshot = Snapshot(
    queueDelayAverage: Option<real>, queueDelaySamples: nat,
    aiFallbacks: nat, aiValidationFailures: nat,
    duplicateRate: Option<real>, duplicates: nat, dedupTotal: nat,
    notificationRetries: nat, notificationErrors: nat,
    listenerHealth: map<string, nat>,
    parserTotal: nat, parserDecisions: map<string, nat>, parserSources: map<string, map<string, nat>>)

  const UNKNOWN := "unknown"

  function OrUnknown(s: Option<string>): string {
    if s.Some? then s.value else UNKNOWN
  }

  function Decision(m: Metric): string { OrUnknown(m.metadata.decision) }

  /** The source in the metadata, else the subject, else unknown; an empty one counts as none. */
  function Source(m: Metric): string {
    if m.metadata.sourceId.Some? && m.metadata.sourceId.value != "" then m.metadata.sourceId.value
    else if m.subject.Some? && m.subject.value != "" then m.subject.value
    else UNKNOWN
  }

  /** Empty ids count as none; of two ids the one in the metadata counts. */
  lemma SourceIs(m: Metric)
    ensures var given, subject := m.metadata.sourceId, m.subject;
            && (given.Some? && given.value != "" ==> Source(m) == given.value)
            && (given in {None, Some("")} && subject.Some? && subject.value != "" ==> Source(m) == subject.value)
            && (given in {None, Some("")} && subject in {None, Some("")} ==> Source(m) == "unknown")
    ensures m.metadata.decision.Some? ==> Decision(m) == m.metadata.decision.value
    ensures m.metadata.decision == None ==> Decision(m) == "unknown"
  {
  }

  predicate IsDuplicate(m: Metric) {
    m.metadata.decision == Some("exact_duplicate") || m.metadata.decision == Some("high_confidence_duplicate")
  }

  lemma DuplicateIff(m: Metric)
    ensures IsDuplicate(m) <==>
            m.metadata.decision.Some? && m.metadata.decision.value in {"exact_duplicate", "high_confidence_duplicate"}
  {
  }

  /** The period of a log is the period of its parts, and of one event that event or nothing. */
  lemma {:induction false} DuringFilters(a: seq<Metric>, b: seq<Metric>, start: int, end: int)
    ensures During(a + b, start, end) == During(a, start, end) + During(b, start, end)
    ensures |a| == 1 ==> During(a, start, end) == if start <= a[0].at && a[0].at < end then a else []
  {
    if b == [] {
      assert a + b == a;
    } else {
      DuringFilters(a, b[..|b| - 1], start, end);
      assert (a + b)[..|a + b| - 1] == a + b[..|b| - 1];
    }
    if |a| == 1 {
      assert a[..0] == [] && a == [a[0]];
    }
  }

  /** The events from `start` up to but not at `end`, in log order. */
  function During(log: seq<Metric>, start: int, end: int): seq<Metric> {
    if log == [] then []
    else
      var earlier, last := During(log[..|log| - 1], start, end), log[|log| - 1];
      if start <= last.at < end then earlier + [last] else earlier
  }

  // ---------------------------------------------------------------- parser decisions

  function Parsed(events: seq<Metric>): seq<Metric> {
    if events == [] then []
    else
      var earlier, last := Parsed(events[..|events| - 1]), events[|events| - 1];
      if last.name.SourceParserDecision? then earlier + [last] else earlier
  }

  function DecisionCounts(parsed: seq<Metric>): map<string, nat> {
    if parsed == [] then map[] else Bumped(DecisionCounts(parsed[..|parsed| - 1]), Decision(parsed[|parsed| - 1]))
  }

  function Row(sources: map<string, map<string, nat>>, source: string): map<string, nat> {
    if source in sources then sources[source] else map[]
  }

  function SourceCounts(parsed: seq<Metric>): map<string, map<string, nat>> {
    if parsed == [] then map[]
    else
      var earlier, last := SourceCounts(parsed[..|parsed| - 1]), parsed[|parsed| - 1];
      earlier[Source(last) := Bumped(Row(earlier, Source(last)), Decision(last))]
  }

  /** One decision's counts, by source. */
  function Column(sources: map<string, map<string, nat>>, decision: string): map<string, nat> {
    map source | source in sources :: Get(sources[source], decision)
  }

  /** A decision's count is the number of parser events with it; the counts add up to all of them. */
  lemma {:induction false} DecisionsAddUp(parsed: seq<Metric>, decision: string)
    ensures Get(DecisionCounts(parsed), decision) == CountWhere(parsed, (m: Metric) => Decision(m) == decision)
    ensures MapSum(DecisionCounts(parsed)) == |parsed|
  {
    if parsed != [] {
      var fewer, last := parsed[..|parsed| - 1], parsed[|parsed| - 1];
      DecisionsAddUp(fewer, decision);
      var before := DecisionCounts(fewer);
      MapSumUpdate(before, Decision(last), Get(before, Decision(last)) + 1);
    }
  }

  /** A source's counts are of its own events; over all sources they add up to the decision's count. */
  lemma {:induction false} SourcesAddUp(parsed: seq<Metric>, source: string, decision: string)
    ensures Get(Row(SourceCounts(parsed), source), decision)
            == CountWhere(parsed, (m: Metric) => Source(m) == source && Decision(m) == decision)
    ensures MapSum(Column(SourceCounts(parsed), decision)) == Get(DecisionCounts(parsed), decision)
  {
    if parsed != [] {
      var fewer, last := parsed[..|parsed| - 1], parsed[|parsed| - 1];
      SourcesAddUp(fewer, source, decision);
      ColumnMore(SourceCounts(fewer), Source(last), Decision(last), decision);
    }
  }

  lemma ColumnMore(before: map<string, map<string, nat>>, source: string, added: string, decision: string)
    ensures var after := before[source := Bumped(Row(before, source), added)];
            MapSum(Column(after, decision)) == MapSum(Column(before, decision)) + if added == decision then 1 else 0
  {
    var after := before[source := Bumped(Row(before, source), added)];
    var column := Column(before, decision);
    var n := Get(after[source], decision);
    assert Column(after, decision) == column[source := n];
    MapSumUpdate(column, source, n);
    assert Get(column, source) == Get(Row(before, source), decision);
  }

  /** Each source's counts taken together. */
  ghost function RowSums(sources: map<string, map<string, nat>>): map<string, nat> {
    map source | source in sources :: MapSum(sources[source])
  }

  lemma RowSumsMore(before: map<string, map<string, nat>>, source: string, added: string)
    ensures var after := before[source := Bumped(Row(before, source), added)];
            MapSum(RowSums(after)) == MapSum(RowSums(before)) + 1
  {
    var after, row := before[source := Bumped(Row(before, source), added)], Row(before, source);
    MapSumUpdate(row, added, Get(row, added) + 1);
    assert RowSums(after) == RowSums(before)[source := MapSum(row) + 1];
    MapSumUpdate(RowSums(before), source, MapSum(row) + 1);
    assert Get(RowSums(before), source) == MapSum(row);
  }

  lemma {:induction false} RowsAddUp(parsed: seq<Metric>)
    ensures MapSum(RowSums(SourceCounts(parsed))) == |parsed|
  {
    if parsed != [] {
      var fewer, last := parsed[..|parsed| - 1], parsed[|parsed| - 1];
      RowsAddUp(fewer);
      RowSumsMore(SourceCounts(fewer), Source(last), Decision(last));
    }
  }

  // ---------------------------------------------------------------- listener health

  predicate Reports(m: Metric, listener: string) {
    m.name.ListenerHealth? && m.subject == Some(listener)
  }

  /** Behind all that are not later: the place a stable sort by time gives. */
  function Placed(sorted: seq<Metric>, m: Metric): seq<Metric> {
    if sorted == [] || sorted[|sorted| - 1].at <= m.at then sorted + [m]
    else Placed(sorted[..|sorted| - 1], m) + [sorted[|sorted| - 1]]
  }

  function SortedByTime(events: seq<Metric>): seq<Metric> {
    if events == [] then [] else Placed(SortedByTime(events[..|events| - 1]), events[|events| - 1])
  }

  /** Each listener's status after all reports in turn. */
  function Latest(events: seq<Metric>): map<string, string> {
    if events == [] then map[]
    else
      var earlier, last := Latest(events[..|events| - 1]), events[|events| - 1];
      if last.name.ListenerHealth? && last.subject.Some?
      then earlier[last.subject.value := OrUnknown(last.metadata.status)]
      else earlier
  }

  /** The listener's report with the greatest time, the later in the list among equals. */
  function Newest(events: seq<Metric>, listener: string): Option<Metric> {
    if events == [] then None
    else
      var earlier, last := Newest(events[..|events| - 1], listener), events[|events| - 1];
      if Reports(last, listener) && (earlier.None? || earlier.value.at <= last.at) then Some(last) else earlier
  }

  function StatusOf(m: Option<Metric>): Option<string> {
    if m.None? then None else Some(OrUnknown(m.value.metadata.status))
  }

  ghost predicate Ascending(events: seq<Metric>) {
    forall i, j :: 0 <= i < j < |events| ==> events[i].at <= events[j].at
  }

  lemma {:induction false} PlacedKeeps(sorted: seq<Metric>, m: Metric)
    ensures multiset(Placed(sorted, m)) == multiset(sorted) + multiset{m}
  {
    if sorted != [] && sorted[|sorted| - 1].at > m.at {
      var fewer, last := sorted[..|sorted| - 1], sorted[|sorted| - 1];
      PlacedKeeps(fewer, m);
      assert sorted == fewer + [last];
    }
  }

  lemma {:induction false} PlacedHas(sorted: seq<Metric>, m: Metric, x: Metric)
    ensures x in Placed(sorted, m) ==> x in sorted || x == m
  {
    if sorted != [] && sorted[|sorted| - 1].at > m.at {
      PlacedHas(sorted[..|sorted| - 1], m, x);
    }
  }

  lemma AscendingMore(events: seq<Metric>, m: Metric)
    requires Ascending(events) && forall x :: x in events ==> x.at <= m.at
    ensures Ascending(events + [m])
  {
  }

  lemma {:induction false} PlacedIsAscending(sorted: seq<Metric>, m: Metric)
    requires Ascending(sorted)
    ensures Ascending(Placed(sorted, m))
  {
    if sorted == [] || sorted[|sorted| - 1].at <= m.at {
      AscendingMore(sorted, m);
    } else {
      var fewer, last := sorted[..|sorted| - 1], sorted[|sorted| - 1];
      PlacedIsAscending(fewer, m);
      forall x | x in Placed(fewer, m) ensures x.at <= last.at {
        PlacedHas(fewer, m, x);
      }
      AscendingMore(Placed(fewer, m), last);
    }
  }

  /** The sort is an ascending rearrangement. */
  lemma {:induction false} SortedIsAscending(events: seq<Metric>)
    ensures Ascending(SortedByTime(events)) && multiset(SortedByTime(events)) == multiset(events)
  {
    if events != [] {
      var fewer, last := events[..|events| - 1], events[|events| - 1];
      SortedIsAscending(fewer);
      PlacedIsAscending(SortedByTime(fewer), last);
      PlacedKeeps(SortedByTime(fewer), last);
      assert events == fewer + [last];
    }
  }

  lemma {:induction false} NewestIsIn(events: seq<Metric>, listener: string)
    ensures var m := Newest(events, listener); m.Some? ==> m.value in events
  {
    if events != [] {
      NewestIsIn(events[..|events| - 1], listener);
    }
  }

  /** On an ascending list the last report is the newest. */
  lemma {:induction false} LatestOfAscending(sorted: seq<Metric>, listener: string)
    requires Ascending(sorted)
    ensures Lookup(Latest(sorted), listener) == StatusOf(Newest(sorted, listener))
  {
    if sorted != [] {
      var fewer := sorted[..|sorted| - 1];
      LatestOfAscending(fewer, listener);
      NewestIsIn(fewer, listener);
    }
  }

  lemma NewestMore(events: seq<Metric>, m: Metric, listener: string)
    ensures var before := Newest(events, listener);
            Newest(events + [m], listener) ==
            if Reports(m, listener) && (before.None? || before.value.at <= m.at) then Some(m) else before
  {
    assert (events + [m])[..|events|] == events;
  }

  /** Placing a report by time picks the same newest report as adding it at the end. */
  lemma {:induction false} NewestOfPlaced(sorted: seq<Metric>, m: Metric, listener: string)
    requires Ascending(sorted)
    ensures Newest(Placed(sorted, m), listener) == Newest(sorted + [m], listener)
  {
    if sorted != [] && sorted[|sorted| - 1].at > m.at {
      var fewer, last := sorted[..|sorted| - 1], sorted[|sorted| - 1];
      NewestOfPlaced(fewer, m, listener);
      NewestMore(fewer, m, listener);
      NewestMore(sorted, m, listener);
      NewestMore(Placed(fewer, m), last, listener);
      NewestIsIn(fewer, listener);
    }
  }

  /** Going through the events by time leaves each listener at its newest report. */
  lemma {:induction false} LatestIsNewest(events: seq<Metric>, listener: string)
    ensures Lookup(Latest(SortedByTime(events)), listener) == StatusOf(Newest(events, listener))
    ensures Newest(SortedByTime(events), listener) == Newest(events, listener)
  {
    SortedIsAscending(events);
    LatestOfAscending(SortedByTime(events), listener);
    if events != [] {
      var fewer, last := events[..|events| - 1], events[|events| - 1];
      LatestIsNewest(fewer, listener);
      SortedIsAscending(fewer);
      NewestOfPlaced(SortedByTime(fewer), last, listener);
      NewestMore(SortedByTime(fewer), last, listener);
    }
  }

  /** No report of the listener is newer than the newest, and later equals come first. */
  lemma {:induction false} NewestMeans(events: seq<Metric>, listener: string)
    ensures var m := Newest(events, listener);
            if m.None? then forall e :: e in events ==> !Reports(e, listener)
            else exists i :: 0 <= i < |events| && events[i] == m.value && IsNewestAt(events, listener, i)
  {
    if events != [] {
      var fewer, last := events[..|events| - 1], events[|events| - 1];
      NewestMeans(fewer, listener);
      var before, now := Newest(fewer, listener), Newest(events, listener);
      assert events == fewer + [last];
      if before.Some? {
        var i :| 0 <= i < |fewer| && fewer[i] == before.value && IsNewestAt(fewer, listener, i);
        if now == before && !(Reports(last, listener) && before.value.at <= last.at) {
          assert IsNewestAt(events, listener, i);
        } else {
          assert IsNewestAt(events, listener, |fewer|);
        }
      } else if now.Some? {
        assert IsNewestAt(events, listener, |fewer|);
      }
    }
  }

  ghost predicate IsNewestAt(events: seq<Metric>, listener: string, i: nat)
    requires i < |events|
  {
    && Reports(events[i], listener)
    && forall j :: 0 <= j < |events| && Reports(events[j], listener) ==>
         events[j].at < events[i].at || (events[j].at == events[i].at && j <= i)
  }

  function With(latest: map<string, string>, status: string): set<string> {
    set l | l in latest && latest[l] == status
  }

  /** `counts` has each status with the number of listeners at it, those in `remaining` aside. */
  ghost predicate Tallies(latest: map<string, string>, remaining: set<string>, counts: map<string, nat>) {
    && MapSum(counts) == |latest.Keys - remaining|
    && forall status :: Get(counts, status) == |With(latest, status) - remaining|
  }

  lemma TallyNone(latest: map<string, string>)
    ensures Tallies(latest, latest.Keys, map[])
  {
    assert forall status :: With(latest, status) - latest.Keys == {};
  }

  lemma LessRemains<T>(all: set<T>, remaining: set<T>, x: T)
    requires x in remaining
    ensures |all - (remaining - {x})| == |all - remaining| + if x in all then 1 else 0
  {
    assert all - (remaining - {x}) == all - remaining + if x in all then {x} else {};
  }

  lemma TallyMore(latest: map<string, string>, remaining: set<string>, counts: map<string, nat>, listener: string)
    requires Tallies(latest, remaining, counts) && listener in latest && listener in remaining
    ensures Tallies(latest, remaining - {listener}, Bumped(counts, latest[listener]))
  {
    var status := latest[listener];
    LessRemains(latest.Keys, remaining, listener);
    MapSumUpdate(counts, status, Get(counts, status) + 1);
    forall s ensures Get(Bumped(counts, status), s) == |With(latest, s) - (remaining - {listener})| {
      LessRemains(With(latest, s), remaining, listener);
    }
  }

  /** Each status with the number of listeners at it. */
  method HealthCounts(latest: map<string, string>) returns (counts: map<string, nat>)
    ensures Tallies(latest, {}, counts)
  {
    counts := map[];
    var remaining := latest.Keys;
    TallyNone(latest);
    while remaining != {}
      invariant remaining <= latest.Keys && Tallies(latest, remaining, counts)
    {
      var listener :| listener in remaining;
      TallyMore(latest, remaining, counts, listener);
      counts := Bumped(counts, latest[listener]);
      remaining := remaining - {listener};
    }
  }

  /** Health counts add up to the listeners, each counted once at its status. */
  lemma HealthAddsUp(latest: map<string, string>, counts: map<string, nat>)
    requires Tallies(latest, {}, counts)
    ensures MapSum(counts) == |latest| && forall status :: Get(counts, status) == |With(latest, status)|
  {
    assert latest.Keys - {} == latest.Keys;
    forall status ensures Get(counts, status) == |With(latest, status)| {
      assert With(latest, status) - {} == With(latest, status);
    }
  }

  // ---------------------------------------------------------------- the snapshot

  function Named(events: seq<Metric>, name: MetricName): nat {
    CountWhere(events, (m: Metric) => m.name == name)
  }

  function DelaySum(events: seq<Metric>): real {
    if events == [] then 0.0
    else
      var earlier, last := DelaySum(events[..|events| - 1]), events[|events| - 1];
      earlier + if last.name.QueueDelayMs? then last.value else 0.0
  }

  function Duplicates(events: seq<Metric>): nat {
    CountWhere(events, (m: Metric) => m.name.DedupDecision? && IsDuplicate(m))
  }

  ghost predicate Describes(s: Snapshot, events: seq<Metric>) {
    var latest, parsed := Latest(SortedByTime(events)), Parsed(events);
    && s.queueDelaySamples == Named(events, QueueDelayMs)
    && s.queueDelayAverage == (if s.queueDelaySamples == 0 then None
                               else Some(DelaySum(events) / s.queueDelaySamples as real))
    && s.aiFallbacks == Named(events, AiFallbackAttempt) && s.aiValidationFailures == Named(events, AiValidationFailure)
    && s.duplicates == Duplicates(events) && s.dedupTotal == Named(events, DedupDecision)
    && s.duplicateRate == (if s.dedupTotal == 0 then None else Some(s.duplicates as real / s.dedupTotal as real))
    && s.notificationRetries == Named(events, NotificationRetry)
    && s.notificationErrors == Named(events, NotificationError)
    && Tallies(latest, {}, s.listenerHealth)
    && s.parserTotal == |parsed|
    && s.parserDecisions == DecisionCounts(parsed)
    && s.parserSources == SourceCounts(parsed)
  }

  /** The listeners that report their health. */
  function Listeners(events: seq<Metric>): set<string> {
    set m | m in events && m.name.ListenerHealth? && m.subject.Some? :: m.subject.value
  }

  lemma {:induction false} LatestHasListeners(events: seq<Metric>)
    ensures Latest(events).Keys == Listeners(events)
  {
    if events != [] {
      var fewer, last := events[..|events| - 1], events[|events| - 1];
      LatestHasListeners(fewer);
      assert events == fewer + [last];
    }
  }

  lemma SortedHasListeners(events: seq<Metric>)
    ensures Listeners(SortedByTime(events)) == Listeners(events)
  {
    SortedIsAscending(events);
    assert forall m :: m in SortedByTime(events) <==> m in multiset(SortedByTime(events));
    assert forall m :: m in events <==> m in multiset(events);
  }

  lemma {:induction false} ParsedCounts(events: seq<Metric>)
    ensures |Parsed(events)| == Named(events, SourceParserDecision)
  {
    if events != [] {
      ParsedCounts(events[..|events| - 1]);
    }
  }

  lemma {:induction false} DuplicatesAreDecisions(events: seq<Metric>)
    ensures Duplicates(events) <= Named(events, DedupDecision)
  {
    if events != [] {
      DuplicatesAreDecisions(events[..|events| - 1]);
    }
  }

  ghost predicate DelaysWithin(events: seq<Metric>, low: real, high: real) {
    forall m :: m in events && m.name.QueueDelayMs? ==> low <= m.value <= high
  }

  /** The sum of delays takes each delay once and nothing else. */
  lemma {:induction false} DelaysAdd(a: seq<Metric>, b: seq<Metric>)
    ensures DelaySum(a + b) == DelaySum(a) + DelaySum(b)
    ensures |a| == 1 ==> DelaySum(a) == if a[0].name == QueueDelayMs then a[0].value else 0.0
  {
    if b == [] {
      assert a + b == a;
    } else {
      DelaysAdd(a, b[..|b| - 1]);
      assert (a + b)[..|a + b| - 1] == a + b[..|b| - 1];
    }
    if |a| == 1 {
      assert a[..0] == [];
    }
  }

  ghost function Times(x: real, n: nat): real {
    if n == 0 then 0.0 else Times(x, n - 1) + x
  }

  lemma {:induction false} TimesIsProduct(x: real, n: nat)
    ensures Times(x, n) == x * n as real
  {
    if n > 0 {
      TimesIsProduct(x, n - 1);
      var d := (n - 1) as real;
      assert n as real == d + 1.0;
      assert x * (d + 1.0) == x * d + x;
    }
  }

  lemma {:induction false} DelaySumIsWithin(events: seq<Metric>, low: real, high: real)
    requires DelaysWithin(events, low, high)
    ensures var n := Named(events, QueueDelayMs); Times(low, n) <= DelaySum(events) <= Times(high, n)
  {
    if events != [] {
      var fewer, last := events[..|events| - 1], events[|events| - 1];
      assert last in events;
      DelaySumIsWithin(fewer, low, high);
      var n := Named(fewer, QueueDelayMs);
      assert Named(events, QueueDelayMs) == n + if last.name.QueueDelayMs? then 1 else 0;
      assert Times(low, n + 1) == Times(low, n) + low && Times(high, n + 1) == Times(high, n) + high;
    }
  }

  /** The counts of one snapshot: health over listeners, decisions and sources over parser events. */
  lemma SnapshotAddsUp(s: Snapshot, events: seq<Metric>)
    requires Describes(s, events)
    ensures MapSum(s.listenerHealth) == |Listeners(events)|
    ensures s.parserTotal == Named(events, SourceParserDecision)
    ensures MapSum(s.parserDecisions) == s.parserTotal
    ensures MapSum(RowSums(s.parserSources)) == s.parserTotal
    ensures forall decision :: MapSum(Column(s.parserSources, decision)) == Get(s.parserDecisions, decision)
    ensures s.duplicates <= s.dedupTotal
  {
    var latest, parsed := Latest(SortedByTime(events)), Parsed(events);
    HealthAddsUp(latest, s.listenerHealth);
    LatestHasListeners(SortedByTime(events));
    SortedHasListeners(events);
    assert |latest| == |latest.Keys|;
    ParsedCounts(events);
    DecisionsAddUp(parsed, UNKNOWN);
    RowsAddUp(parsed);
    forall decision ensures MapSum(Column(s.parserSources, decision)) == Get(s.parserDecisions, decision) {
      SourcesAddUp(parsed, UNKNOWN, decision);
    }
    DuplicatesAreDecisions(events);
  }

  lemma DuplicateRateIsProper(s: Snapshot, events: seq<Metric>)
    requires Describes(s, events)
    ensures s.duplicateRate.Some? ==> 0.0 <= s.duplicateRate.value <= 1.0
  {
    DuplicatesAreDecisions(events);
    if s.duplicateRate.Some? {
      QuotientIsWithin(s.duplicates as real, s.dedupTotal, 0.0, 1.0);
    }
  }

  /** The average delay lies between any bounds of the delays. */
  lemma AverageDelayIsWithin(s: Snapshot, events: seq<Metric>, low: real, high: real)
    requires Describes(s, events) && DelaysWithin(events, low, high) && s.queueDelayAverage.Some?
    ensures low <= s.queueDelayAverage.value <= high
  {
    DelaySumIsWithin(events, low, high);
    MeanIsWithin(DelaySum(events), s.queueDelaySamples, low, high);
  }

  lemma MeanIsWithin(sum: real, n: nat, low: real, high: real)
    requires n > 0 && Times(low, n) <= sum <= Times(high, n)
    ensures low <= sum / n as real <= high
  {
    TimesIsProduct(low, n);
    TimesIsProduct(high, n);
    QuotientIsWithin(sum, n, low, high);
  }

  lemma QuotientIsWithin(sum: real, n: nat, low: real, high: real)
    requires n > 0 && low * n as real <= sum <= high * n as real
    ensures low <= sum / n as real <= high
  {
    var d := n as real;
    var q := sum / d;
    assert q * d == sum;
    assert q < low ==> q * d < low * d;
    assert high < q ==> high * d < q * d;
  }

  method TechnicalSnapshot(events: seq<Metric>) returns (s: Snapshot)
    ensures Describes(s, events)
  {
    var health := ListenerHealthCounts(events);
    var parsed, decisions, sources := ParserCounts(events);
    var samples := Named(events, QueueDelayMs);
    var dedupTotal, duplicates := Named(events, DedupDecision), Duplicates(events);
    s := Snapshot(if samples == 0 then None else Some(DelaySum(events) / samples as real), samples,
                  Named(events, AiFallbackAttempt), Named(events, AiValidationFailure),
                  if dedupTotal == 0 then None else Some(duplicates as real / dedupTotal as real),
                  duplicates, dedupTotal,
                  Named(events, NotificationRetry), Named(events, NotificationError),
                  health, parsed, decisions, sources);
  }

  method ListenerHealthCounts(events: seq<Metric>) returns (health: map<string, nat>)
    ensures Tallies(Latest(SortedByTime(events)), {}, health)
  {
    var sorted := SortedByTime(events);
    var latest: map<string, string> := map[];
    for i := 0 to |sorted|
      invariant latest == Latest(sorted[..i])
    {
      assert sorted[..i + 1][..i] == sorted[..i];
      var event := sorted[i];
      if event.name.ListenerHealth? && event.subject.Some? {
        latest := latest[event.subject.value := OrUnknown(event.metadata.status)];
      }
    }
    assert sorted[..|sorted|] == sorted;
    health := HealthCounts(latest);
  }

  method ParserCounts(events: seq<Metric>)
    returns (total: nat, decisions: map<string, nat>, sources: map<string, map<string, nat>>)
    ensures total == |Parsed(events)|
    ensures decisions == DecisionCounts(Parsed(events)) && sources == SourceCounts(Parsed(events))
  {
    var parsed := Parsed(events);
    total, decisions, sources := |parsed|, map[], map[];
    for i := 0 to |parsed|
      invariant decisions == DecisionCounts(parsed[..i]) && sources == SourceCounts(parsed[..i])
    {
      assert parsed[..i + 1][..i] == parsed[..i];
      var event := parsed[i];
      decisions := Bumped(decisions, Decision(event));
      sources := sources[Source(event) := Bumped(Row(sources, Source(event)), Decision(event))];
    }
    assert parsed[..|parsed|] == parsed;
  }
}

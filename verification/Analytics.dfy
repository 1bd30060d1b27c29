/**
 Product analytics: an event log under idempotency keys, the cohort ratios of a beta snapshot,
 and event buckets.  Times are microseconds since the epoch, in UTC.
 */
module Analytics {
  import opened Options
  import opened Counting
  import PythonText
  import Technical = TechnicalMetrics

  datatype EventName =
    | UserRegistered | SearchCompleted | SavedFilterCreated | ReferralAccepted | ReferralActivated
    | NotificationSent | NotificationDeliveryFailed
    | NotificationActionOpen | NotificationActionSearch | NotificationActionRead

  datatype Event = Event(name: EventName, key: string, at: int, user: Option<int>, subject: Option<string>)

  const HOUR := 3_600_000_000
  const DAY := 86_400_000_000

  // ---------------------------------------------------------------- the log

  ghost predicate Recorded(log: seq<Event>, key: string) {
    exists e :: e in log && e.key == key
  }

  ghost function RecordOnce(log: seq<Event>, e: Event): seq<Event> {
    if Recorded(log, e.key) then log else log + [e]
  }

  ghost function RecordAll(log: seq<Event>, events: seq<Event>): seq<Event> {
    if events == [] then log else RecordOnce(RecordAll(log, events[..|events| - 1]), events[|events| - 1])
  }

  /** The events from `start` up to but not at `end`, in log order. */
  function Window(log: seq<Event>, start: int, end: int): seq<Event> {
    if log == [] then []
    else
      var earlier, last := Window(log[..|log| - 1], start, end), log[|log| - 1];
      if start <= last.at < end then earlier + [last] else earlier
  }

  /** A dictionary by key, in order of first insertion. */
  class InMemoryAnalyticsEventRepository {
    var keys: seq<string>
    var events: map<string, Event>

    constructor ()
      ensures Valid() && Log() == []
    {
      keys, events := [], map[];
    }

    ghost predicate Valid()
      reads this
    {
      && (forall k :: k in keys <==> k in events)
      && (forall k :: k in events ==> events[k].key == k)
    }

    ghost function Log(): seq<Event>
      reads this
      requires Valid()
    {
      seq(|keys|, i requires 0 <= i < |keys| reads this requires Valid() => events[keys[i]])
    }

    method Record(event: Event) returns (recorded: bool)
      requires Valid()
      modifies this
      ensures Valid()
      ensures recorded <==> !Recorded(old(Log()), event.key)
      ensures Log() == RecordOnce(old(Log()), event)
    {
      if event.key in events {
        ghost var i :| 0 <= i < |keys| && keys[i] == event.key;
        assert Log()[i] in Log();
        return false;
      }
      assert forall e :: e in Log() ==> e.key in events;
      keys, events := keys + [event.key], events[event.key := event];
      return true;
    }

    method ListEvents(start: int, end: int) returns (found: seq<Event>)
      requires Valid()
      ensures found == Window(Log(), start, end)
    {
      found := [];
      for i := 0 to |keys|
        invariant found == Window(Log()[..i], start, end)
      {
        assert Log()[..i + 1][..i] == Log()[..i];
        var event := events[keys[i]];
        if start <= event.at < end {
          found := found + [event];
        }
      }
      assert Log()[..|keys|] == Log();
    }
  }

  /** Recording events again, in any order and number, changes nothing. */
  lemma {:induction false} ReplayChangesNothing(log: seq<Event>, again: seq<Event>)
    requires forall e :: e in again ==> Recorded(log, e.key)
    ensures RecordAll(log, again) == log
  {
    if again != [] {
      ReplayChangesNothing(log, again[..|again| - 1]);
    }
  }

  /** Recorded keys stay, each with the first event recorded under it. */
  lemma {:induction false} FirstRecordStays(log: seq<Event>, events: seq<Event>)
    ensures log <= RecordAll(log, events)
    ensures forall e :: e in events ==> Recorded(RecordAll(log, events), e.key)
  {
    if events != [] {
      var fewer, last := events[..|events| - 1], events[|events| - 1];
      FirstRecordStays(log, fewer);
      var before, after := RecordAll(log, fewer), RecordAll(log, events);
      if after != before {
        assert after[|before|] == last && last in after;
      }
      forall e | e in events ensures Recorded(after, e.key) {
        if e in fewer {
          var x :| x in before && x.key == e.key;
          assert x in after;
        }
      }
    }
  }

  // ---------------------------------------------------------------- cohort ratios

  datatype Ratio = Ratio(numerator: nat, denominator: nat, rate: Option<real>)

  function MakeRatio(numerator: nat, denominator: nat): Ratio {
    Ratio(numerator, denominator, if denominator == 0 then None else Some(numerator as real / denominator as real))
  }

  predicate Registers(e: Event, start: int, end: int) {
    e.name.UserRegistered? && e.user.Some? && start <= e.at < end
  }

  /** Each user's registration time; the later of two in the log counts. */
  function Registrations(events: seq<Event>, start: int, end: int): map<int, int> {
    if events == [] then map[]
    else
      var earlier, last := Registrations(events[..|events| - 1], start, end), events[|events| - 1];
      if Registers(last, start, end) then earlier[last.user.value := last.at] else earlier
  }

  /** The registration that counts is the user's last one in the log that falls in the period. */
  lemma {:induction false} LastRegistrationCounts(events: seq<Event>, start: int, end: int, user: int)
    ensures var registrations := Registrations(events, start, end);
            if user in registrations
            then exists i ::
                   && 0 <= i < |events| && events[i].at == registrations[user]
                   && IsLastRegistration(events, start, end, user, i)
            else forall e :: e in events && Registers(e, start, end) ==> e.user != Some(user)
  {
    if events != [] {
      var fewer, last := events[..|events| - 1], events[|events| - 1];
      LastRegistrationCounts(fewer, start, end, user);
      assert events == fewer + [last];
      if Registers(last, start, end) && last.user == Some(user) {
        assert IsLastRegistration(events, start, end, user, |fewer|);
      } else if user in Registrations(fewer, start, end) {
        var i :| 0 <= i < |fewer| && fewer[i].at == Registrations(fewer, start, end)[user]
                 && IsLastRegistration(fewer, start, end, user, i);
        assert IsLastRegistration(events, start, end, user, i);
      }
    }
  }

  ghost predicate IsLastRegistration(events: seq<Event>, start: int, end: int, user: int, i: nat)
    requires i < |events|
  {
    && Registers(events[i], start, end) && events[i].user == Some(user)
    && forall j :: i < j < |events| && Registers(events[j], start, end) ==> events[j].user != Some(user)
  }

  predicate ReturnsWithin(e: Event, user: int, from: int, to: int) {
    e.user == Some(user) && !e.name.UserRegistered? && from <= e.at < to
  }

  ghost predicate Returned(events: seq<Event>, user: int, registered: int, width: int) {
    exists e :: e in events && ReturnsWithin(e, user, registered + 7 * DAY, registered + 7 * DAY + width)
  }

  ghost function Retained(events: seq<Event>, start: int, end: int, width: int): set<int> {
    var registrations := Registrations(events, start, end);
    set u | u in registrations && Returned(events, u, registrations[u], width)
  }

  ghost function Retention(events: seq<Event>, start: int, end: int, width: int): Ratio {
    MakeRatio(|Retained(events, start, end, width)|, |Registrations(events, start, end)|)
  }

  method D7Retention(events: seq<Event>, start: int, end: int, width: int) returns (r: Ratio)
    ensures r == Retention(events, start, end, width)
  {
    var registrations: map<int, int> := map[];
    for i := 0 to |events|
      invariant registrations == Registrations(events[..i], start, end)
    {
      assert events[..i + 1][..i] == events[..i];
      var event := events[i];
      if Registers(event, start, end) {
        registrations := registrations[event.user.value := event.at];
      }
    }
    assert events[..|events|] == events;
    var retained: set<int> := {};
    var remaining := registrations.Keys;
    while remaining != {}
      invariant remaining <= registrations.Keys
      invariant retained == Retained(events, start, end, width) - remaining
    {
      var user :| user in remaining;
      var back := ReturnsIn(events, user, registrations[user], width);
      if back {
        retained := retained + {user};
      }
      remaining := remaining - {user};
    }
    r := MakeRatio(|retained|, |registrations|);
  }

  method ReturnsIn(events: seq<Event>, user: int, registered: int, width: int) returns (back: bool)
    ensures back <==> Returned(events, user, registered, width)
  {
    back := false;
    var windowStart := registered + 7 * DAY;
    for i := 0 to |events|
      invariant forall j :: 0 <= j < i ==> !ReturnsWithin(events[j], user, windowStart, windowStart + width)
    {
      if ReturnsWithin(events[i], user, windowStart, windowStart + width) {
        assert events[i] in events;
        return true;
      }
    }
  }

  function ActiveUsers(events: seq<Event>, start: int, end: int): set<int> {
    var registrations := Registrations(events, start, end);
    set e | e in events && (e.name.SearchCompleted? || e.name.SavedFilterCreated?)
            && e.user.Some? && e.user.value in registrations && registrations[e.user.value] <= e.at < end
      :: e.user.value
  }

  function Invited(events: seq<Event>): set<int> {
    set e | e in events && e.name.ReferralAccepted? && e.user.Some? :: e.user.value
  }

  function Converted(events: seq<Event>): set<int> {
    set e | e in events && e.name.ReferralActivated? && e.user.Some? && e.user.value in Invited(events) :: e.user.value
  }

  function Notified(events: seq<Event>): set<string> {
    set e | e in events && e.name.NotificationSent? && e.subject.Some? :: e.subject.value
  }

  predicate IsEngagement(name: EventName) {
    name.NotificationActionOpen? || name.NotificationActionSearch? || name.NotificationActionRead?
  }

  function Engaged(events: seq<Event>): set<string> {
    set e | e in events && IsEngagement(e.name) && e.subject.Some? && e.subject.value in Notified(events)
      :: e.subject.value
  }

  predicate HasUser(events: seq<Event>, name: EventName, user: int) {
    exists e :: e in events && e.name == name && e.user == Some(user)
  }

  predicate HasSubject(events: seq<Event>, name: EventName, subject: string) {
    exists e :: e in events && e.name == name && e.subject == Some(subject)
  }

  /** Who is counted: activated among the invited, and notifications acted on among those sent. */
  lemma CohortsMean(events: seq<Event>, user: int, subject: string)
    ensures user in Invited(events) <==> HasUser(events, ReferralAccepted, user)
    ensures user in Converted(events) <==>
            HasUser(events, ReferralAccepted, user) && HasUser(events, ReferralActivated, user)
    ensures subject in Notified(events) <==> HasSubject(events, NotificationSent, subject)
    ensures subject in Engaged(events) <==>
            HasSubject(events, NotificationSent, subject)
            && (HasSubject(events, NotificationActionOpen, subject)
                || HasSubject(events, NotificationActionSearch, subject)
                || HasSubject(events, NotificationActionRead, subject))
  {
  }

  /** A registered user is active by a search or a saved filter from the registration on, before the end. */
  lemma ActiveMeans(events: seq<Event>, start: int, end: int, user: int)
    ensures var registered := Lookup(Registrations(events, start, end), user);
            user in ActiveUsers(events, start, end) <==>
            registered.Some? && exists e :: e in events && e.user == Some(user)
                                            && e.name in {SearchCompleted, SavedFilterCreated}
                                            && registered.value <= e.at < end
  {
  }

  /** A registered user is retained by any event but a registration, seven days later within the width. */
  lemma RetainedMeans(events: seq<Event>, start: int, end: int, width: int, user: int)
    ensures var registered := Lookup(Registrations(events, start, end), user);
            user in Retained(events, start, end, width) <==>
            registered.Some? && exists e :: e in events && e.user == Some(user) && e.name != UserRegistered
                                            && 604_800_000_000 <= e.at - registered.value < 604_800_000_000 + width
  {
    var registrations := Registrations(events, start, end);
    if user in registrations {
      if e :| e in events && e.user == Some(user) && e.name != UserRegistered
              && 604_800_000_000 <= e.at - registrations[user] < 604_800_000_000 + width {
        assert ReturnsWithin(e, user, registrations[user] + 7 * DAY, registrations[user] + 7 * DAY + width);
      }
      if Returned(events, user, registrations[user], width) {
        var e :| e in events
                 && ReturnsWithin(e, user, registrations[user] + 7 * DAY, registrations[user] + 7 * DAY + width);
        assert e.name != UserRegistered;
      }
    }
  }

  /** The rate is the quotient, and there is none for an empty cohort. */
  lemma RateIsQuotient(numerator: nat, denominator: nat)
    ensures var r := MakeRatio(numerator, denominator);
            && r.numerator == numerator && r.denominator == denominator && (r.rate == None <==> denominator == 0)
            && (r.rate.Some? ==> r.rate.value * denominator as real == numerator as real)
  {
    if denominator > 0 {
      var n, d := numerator as real, denominator as real;
      assert n / d * d == n;
    }
  }

  /** Every numerator counts a part of its cohort. */
  lemma RatiosAreProper(events: seq<Event>, start: int, end: int, width: int)
    ensures |ActiveUsers(events, start, end)| <= |Registrations(events, start, end)|
    ensures |Retained(events, start, end, width)| <= |Registrations(events, start, end)|
    ensures |Converted(events)| <= |Invited(events)|
    ensures |Engaged(events)| <= |Notified(events)|
  {
    SubsetIsSmaller(ActiveUsers(events, start, end), Registrations(events, start, end).Keys);
    SubsetIsSmaller(Retained(events, start, end, width), Registrations(events, start, end).Keys);
    SubsetIsSmaller(Converted(events), Invited(events));
    SubsetIsSmaller(Engaged(events), Notified(events));
  }

  lemma {:induction false} SubsetIsSmaller<T>(a: set<T>, b: set<T>)
    requires a <= b
    ensures |a| <= |b|
  {
    if a != {} {
      var x :| x in a;
      SubsetIsSmaller(a - {x}, b - {x});
    }
  }

  // ---------------------------------------------------------------- the bounded fetch

  lemma {:induction false} WindowHas(log: seq<Event>, start: int, end: int, e: Event)
    ensures e in Window(log, start, end) <==> e in log && start <= e.at < end
  {
    if log != [] {
      var fewer := log[..|log| - 1];
      WindowHas(fewer, start, end, e);
      assert e in log <==> e in fewer || e == log[|log| - 1];
    }
  }

  lemma WindowMore(log: seq<Event>, start: int, end: int, e: Event)
    ensures Window(log + [e], start, end) ==
            if start <= e.at < end then Window(log, start, end) + [e] else Window(log, start, end)
  {
    assert (log + [e])[..|log|] == log;
  }

  /** A window of a wider fetch is the window of the log. */
  lemma {:induction false} WindowOfWindow(log: seq<Event>, start: int, end: int, lookup: int)
    requires end <= lookup
    ensures Window(Window(log, start, lookup), start, end) == Window(log, start, end)
  {
    if log != [] {
      var fewer, last := log[..|log| - 1], log[|log| - 1];
      WindowOfWindow(fewer, start, end, lookup);
      WindowMore(Window(fewer, start, lookup), start, end, last);
    }
  }

  lemma RegistrationsMore(events: seq<Event>, e: Event, start: int, end: int)
    ensures var before := Registrations(events, start, end);
            Registrations(events + [e], start, end) ==
            if Registers(e, start, end) then before[e.user.value := e.at] else before
  {
    assert (events + [e])[..|events|] == events;
  }

  lemma {:induction false} SameRegistrations(log: seq<Event>, start: int, end: int, lookup: int)
    requires end <= lookup
    ensures Registrations(Window(log, start, lookup), start, end) == Registrations(log, start, end)
  {
    if log != [] {
      var fewer, last := log[..|log| - 1], log[|log| - 1];
      SameRegistrations(fewer, start, end, lookup);
      RegistrationsMore(Window(fewer, start, lookup), last, start, end);
    }
  }

  lemma {:induction false} RegisteredInWindow(events: seq<Event>, start: int, end: int, user: int)
    ensures user in Registrations(events, start, end) ==> start <= Registrations(events, start, end)[user] < end
  {
    if events != [] {
      RegisteredInWindow(events[..|events| - 1], start, end, user);
    }
  }

  lemma SameReturns(log: seq<Event>, start: int, end: int, lookup: int, width: int, user: int)
    requires user in Registrations(log, start, end)
    requires width >= 0 && lookup >= end + 7 * DAY + width - 1
    ensures var registered := Registrations(log, start, end)[user];
            Returned(Window(log, start, lookup), user, registered, width) <==> Returned(log, user, registered, width)
  {
    var registered := Registrations(log, start, end)[user];
    RegisteredInWindow(log, start, end, user);
    var from := registered + 7 * DAY;
    forall e | ReturnsWithin(e, user, from, from + width) ensures e in Window(log, start, lookup) <==> e in log {
      WindowHas(log, start, lookup, e);
    }
  }

  /** Fetching up to `lookup` gives the retention of the whole log. */
  lemma FetchIsEnough(log: seq<Event>, start: int, end: int, lookup: int, width: int)
    requires width >= 0 && lookup >= end + 7 * DAY + width - 1
    ensures Retention(Window(log, start, lookup), start, end, width) == Retention(log, start, end, width)
  {
    SameRegistrations(log, start, end, lookup);
    forall user | user in Registrations(log, start, end)
      ensures user in Retained(Window(log, start, lookup), start, end, width)
              <==> user in Retained(log, start, end, width) {
      SameReturns(log, start, end, lookup, width, user);
    }
    assert Retained(Window(log, start, lookup), start, end, width) == Retained(log, start, end, width);
  }

  /** A user who registers in the last microsecond and comes back in the last one of the retention window. */
  function LastReturner(end: int, width: int): seq<Event> {
    [Event(UserRegistered, "a", end - 1, Some(1), None),
     Event(SearchCompleted, "b", end - 2 + 7 * DAY + width, Some(1), None)]
  }

  lemma ShorterFetchMisses(start: int, end: int, lookup: int, width: int)
    requires start < end && width >= 1 && end <= lookup < end + 7 * DAY + width - 1
    ensures var log := LastReturner(end, width);
            Retention(Window(log, start, lookup), start, end, width) != Retention(log, start, end, width)
  {
    var log := LastReturner(end, width);
    var fetched := [log[0]];
    assert log == fetched + [log[1]] && fetched == [] + [log[0]];
    WindowMore([], start, lookup, log[0]);
    WindowMore(fetched, start, lookup, log[1]);
    RegistrationsMore([], log[0], start, end);
    RegistrationsMore(fetched, log[1], start, end);
    assert Registrations(log, start, end) == map[1 := end - 1] == Registrations(fetched, start, end);
    assert ReturnsWithin(log[1], 1, end - 1 + 7 * DAY, end - 1 + 7 * DAY + width) && log[1] in log;
    assert Retained(log, start, end, width) == {1};
    assert Retained(fetched, start, end, width) == {};
  }

  /** A fetch is enough for every log exactly when it reaches the last microsecond a return can fall in. */
  lemma FetchIsEnoughIff(start: int, end: int, lookup: int, width: int)
    requires start < end <= lookup && width >= 1
    ensures (forall log ::
               Retention(Window(log, start, lookup), start, end, width) == Retention(log, start, end, width))
            <==> lookup >= end + 7 * DAY + width - 1
  {
    if lookup >= end + 7 * DAY + width - 1 {
      forall log ensures Retention(Window(log, start, lookup), start, end, width) == Retention(log, start, end, width) {
        FetchIsEnough(log, start, end, lookup, width);
      }
    } else {
      ShorterFetchMisses(start, end, lookup, width);
    }
  }

  // ---------------------------------------------------------------- the snapshot

  datatype Zone = Utc | Tashkent | OtherZone

  datatype Error = EmptyPeriod | WindowOutOfRange | UnsupportedZone

  datatype Snapshot = Snapshot(
    activation: Ratio, retention: Ratio, referral: Ratio, engagement: Ratio, start: int, end: int,
    buckets: seq<Bucket>, technical: Option<Technical.Snapshot>)

  /** Midnight of a local date; dates count days since the epoch. */
  function LocalMidnight(day: int, zone: Zone): int {
    day * DAY - if zone.Tashkent? then 5 * HOUR else 0
  }

  /** On the zone's own clock it is that day, at zero hours. */
  lemma MidnightIsLocal(day: int, zone: Zone)
    requires !zone.OtherZone?
    ensures var clock := LocalMidnight(day, zone) + if zone.Tashkent? then 18_000_000_000 else 0;
            clock / 86_400_000_000 == day && clock % 86_400_000_000 == 0
  {
  }

  /** What a snapshot says, in terms of the whole log, and of the technical log if there is one. */
  ghost predicate Describes(s: Snapshot, log: seq<Event>, metrics: Option<seq<Technical.Metric>>, start: int, end: int,
                            width: int) {
    var during := Window(log, start, end);
    && s.start == start && s.end == end
    && s.activation == MakeRatio(|ActiveUsers(during, start, end)|, |Registrations(during, start, end)|)
    && s.retention == Retention(log, start, end, width)
    && s.referral == MakeRatio(|Converted(during)|, |Invited(during)|)
    && s.engagement == MakeRatio(|Engaged(during)|, |Notified(during)|)
    && AreBuckets(during, start, end, Daily, s.buckets)
    && (s.technical.Some? <==> metrics.Some?)
    && (metrics.Some? ==> Technical.Describes(s.technical.value, Technical.During(metrics.value, start, end)))
  }

  method BetaSnapshot(repository: InMemoryAnalyticsEventRepository, metrics: Option<seq<Technical.Metric>>,
                      first: int, last: int, zone: Zone, hours: int)
    returns (r: Result<Snapshot, Error>)
    requires repository.Valid()
    ensures r.Err? <==> last <= first || hours < 1 || hours > 72 || zone.OtherZone?
    ensures r.Ok? ==> Describes(r.value, repository.Log(), metrics, LocalMidnight(first, zone),
                                LocalMidnight(last, zone), hours * HOUR)
  {
    if last <= first {
      return Err(EmptyPeriod);
    }
    if hours < 1 || hours > 72 {
      return Err(WindowOutOfRange);
    }
    if zone.OtherZone? {
      return Err(UnsupportedZone);
    }
    var start, end := LocalMidnight(first, zone), LocalMidnight(last, zone);
    var lookup := end + 8 * DAY + hours * HOUR;
    var events := repository.ListEvents(start, lookup);
    var during := FilterWindow(events, start, end);
    WindowOfWindow(repository.Log(), start, end, lookup);
    var retention := D7Retention(events, start, end, hours * HOUR);
    FetchIsEnough(repository.Log(), start, end, lookup, hours * HOUR);
    SameRegistrations(repository.Log(), start, end, end);
    var registered := |Registrations(during, start, end)|;
    var buckets := EventBuckets(during, start, end, Daily);
    var technical := None;
    if metrics.Some? {
      var snapshot := Technical.TechnicalSnapshot(Technical.During(metrics.value, start, end));
      technical := Some(snapshot);
    }
    r := Ok(Snapshot(MakeRatio(|ActiveUsers(during, start, end)|, registered), retention,
                     MakeRatio(|Converted(during)|, |Invited(during)|),
                     MakeRatio(|Engaged(during)|, |Notified(during)|), start, end, buckets, technical));
  }

  method FilterWindow(events: seq<Event>, start: int, end: int) returns (during: seq<Event>)
    ensures during == Window(events, start, end)
  {
    during := [];
    for i := 0 to |events|
      invariant during == Window(events[..i], start, end)
    {
      assert events[..i + 1][..i] == events[..i];
      if start <= events[i].at < end {
        during := during + [events[i]];
      }
    }
    assert events[..|events|] == events;
  }

  // ---------------------------------------------------------------- event buckets

  datatype Granularity = Hourly | Daily

  datatype BucketKey = BucketKey(start: int, name: EventName)

  datatype Bucket = Bucket(key: BucketKey, count: nat)

  function Width(g: Granularity): int { if g.Hourly? then HOUR else DAY }

  function BucketStart(at: int, g: Granularity): int {
    at - at % Width(g)
  }

  function KeyOf(e: Event, g: Granularity): BucketKey {
    BucketKey(BucketStart(e.at, g), e.name)
  }

  /** The alphabetical place of an event name. */
  function Rank(name: EventName): nat {
    match name
    case NotificationActionOpen => 0
    case NotificationActionRead => 1
    case NotificationActionSearch => 2
    case NotificationDeliveryFailed => 3
    case NotificationSent => 4
    case ReferralAccepted => 5
    case ReferralActivated => 6
    case SavedFilterCreated => 7
    case SearchCompleted => 8
    case UserRegistered => 9
  }

  /** The name as it is stored; the parts show where two neighbours in the alphabet differ. */
  function NameText(name: EventName): string {
    match name
    case NotificationActionOpen => "notification_" + ("action_" + "open")
    case NotificationActionRead => "notification_" + ("action_" + "read")
    case NotificationActionSearch => "notification_" + ("action_" + "search")
    case NotificationDeliveryFailed => "notification_" + "delivery_failed"
    case NotificationSent => "notification_" + "sent"
    case ReferralAccepted => "referral_ac" + "cepted"
    case ReferralActivated => "referral_ac" + "tivated"
    case SavedFilterCreated => "s" + "aved_filter_created"
    case SearchCompleted => "s" + "earch_completed"
    case UserRegistered => "user_registered"
  }

  const NAMES := [
    NotificationActionOpen, NotificationActionRead, NotificationActionSearch, NotificationDeliveryFailed,
    NotificationSent, ReferralAccepted, ReferralActivated, SavedFilterCreated, SearchCompleted, UserRegistered]

  lemma {:induction false} LessAfterPrefix(prefix: string, a: string, b: string)
    requires a != "" && b != "" && a[0] < b[0]
    ensures PythonText.Less(prefix + a, prefix + b)
  {
    if prefix == "" {
      assert prefix + a == a && prefix + b == b;
    } else {
      LessAfterPrefix(prefix[1..], a, b);
      assert (prefix + a)[1..] == prefix[1..] + a && (prefix + b)[1..] == prefix[1..] + b;
    }
  }

  lemma NeighboursAreOrdered(i: nat)
    requires i < 9
    ensures PythonText.Less(NameText(NAMES[i]), NameText(NAMES[i + 1]))
  {
    if i < 2 {
      LessAfterPrefix("action_", if i == 0 then "open" else "read", if i == 0 then "read" else "search");
      LessBehind("notification_", "action_" + (if i == 0 then "open" else "read"),
                 "action_" + (if i == 0 then "read" else "search"));
    } else if i == 2 {
      LessAfterPrefix("notification_", "action_" + "search", "delivery_failed");
    } else if i == 3 {
      LessAfterPrefix("notification_", "delivery_failed", "sent");
    } else if i == 5 {
      LessAfterPrefix("referral_ac", "cepted", "tivated");
    } else if i == 7 {
      LessAfterPrefix("s", "aved_filter_created", "earch_completed");
    }
  }

  lemma {:induction false} LessBehind(prefix: string, a: string, b: string)
    requires PythonText.Less(a, b)
    ensures PythonText.Less(prefix + a, prefix + b)
  {
    if prefix == "" {
      assert prefix + a == a && prefix + b == b;
    } else {
      LessBehind(prefix[1..], a, b);
      assert (prefix + a)[1..] == prefix[1..] + a && (prefix + b)[1..] == prefix[1..] + b;
    }
  }

  lemma {:induction false} NamesAreOrdered(i: nat, j: nat)
    requires i < j < 10
    ensures PythonText.Less(NameText(NAMES[i]), NameText(NAMES[j]))
  {
    NeighboursAreOrdered(j - 1);
    if i < j - 1 {
      NamesAreOrdered(i, j - 1);
      PythonText.LessIsTransitive(NameText(NAMES[i]), NameText(NAMES[j - 1]), NameText(NAMES[j]));
    }
  }

  /** Ranks order the event names as their texts are ordered. */
  lemma RankIsAlphabetical(a: EventName, b: EventName)
    ensures Rank(a) < Rank(b) <==> PythonText.Less(NameText(a), NameText(b))
  {
    assert Rank(a) < 10 && NAMES[Rank(a)] == a && Rank(b) < 10 && NAMES[Rank(b)] == b;
    PythonText.LessIsAsymmetric(NameText(a), NameText(b));
    if Rank(a) < Rank(b) {
      NamesAreOrdered(Rank(a), Rank(b));
    } else if Rank(b) < Rank(a) {
      NamesAreOrdered(Rank(b), Rank(a));
    }
  }

  predicate KeyBefore(a: BucketKey, b: BucketKey) {
    a.start < b.start || (a.start == b.start && Rank(a.name) < Rank(b.name))
  }

  /** How often each key occurs in the window. */
  function Counts(events: seq<Event>, start: int, end: int, g: Granularity): map<BucketKey, nat> {
    if events == [] then map[]
    else
      var earlier, last := Counts(events[..|events| - 1], start, end, g), events[|events| - 1];
      if start <= last.at < end then Bumped(earlier, KeyOf(last, g)) else earlier
  }

  ghost predicate KeysSorted(buckets: seq<Bucket>) {
    forall i, j :: 0 <= i < j < |buckets| ==> KeyBefore(buckets[i].key, buckets[j].key)
  }

  /** Exactly the entries of a map of counts. */
  ghost predicate Lists(buckets: seq<Bucket>, counts: map<BucketKey, nat>) {
    && (forall b :: b in buckets ==> b.key in counts && b.count == counts[b.key])
    && (forall k :: k in counts ==> Bucket(k, counts[k]) in buckets)
  }

  ghost predicate AreBuckets(events: seq<Event>, start: int, end: int, g: Granularity, buckets: seq<Bucket>) {
    KeysSorted(buckets) && Lists(buckets, Counts(events, start, end, g))
  }

  method EventBuckets(events: seq<Event>, start: int, end: int, g: Granularity) returns (buckets: seq<Bucket>)
    ensures AreBuckets(events, start, end, g, buckets)
  {
    var counts: map<BucketKey, nat> := map[];
    for i := 0 to |events|
      invariant counts == Counts(events[..i], start, end, g)
    {
      assert events[..i + 1][..i] == events[..i];
      var event := events[i];
      if start <= event.at < end {
        counts := Bumped(counts, KeyOf(event, g));
      }
    }
    assert events[..|events|] == events;
    buckets := SortedItems(counts);
  }

  method SortedItems(counts: map<BucketKey, nat>) returns (buckets: seq<Bucket>)
    ensures KeysSorted(buckets) && Lists(buckets, counts)
  {
    buckets := [];
    var remaining := counts.Keys;
    while remaining != {}
      invariant remaining <= counts.Keys && KeysSorted(buckets)
      invariant Lists(buckets, counts - remaining)
    {
      var key :| key in remaining;
      InsertedIsSorted(buckets, Bucket(key, counts[key]));
      forall k | k in counts - (remaining - {key})
        ensures Bucket(k, counts[k]) in Inserted(buckets, Bucket(key, counts[key])) {
        assert k != key ==> k in counts - remaining;
      }
      buckets := Inserted(buckets, Bucket(key, counts[key]));
      remaining := remaining - {key};
    }
    assert counts - {} == counts;
  }

  function Inserted(buckets: seq<Bucket>, b: Bucket): seq<Bucket> {
    if buckets == [] || KeyBefore(b.key, buckets[0].key) then [b] + buckets
    else [buckets[0]] + Inserted(buckets[1..], b)
  }

  lemma KeyBeforeIsTotal(a: BucketKey, b: BucketKey)
    ensures a == b || KeyBefore(a, b) || KeyBefore(b, a)
  {
  }

  lemma {:induction false} InsertedIsSorted(buckets: seq<Bucket>, b: Bucket)
    requires KeysSorted(buckets) && forall x :: x in buckets ==> x.key != b.key
    ensures KeysSorted(Inserted(buckets, b))
    ensures forall x :: x in Inserted(buckets, b) <==> x in buckets || x == b
  {
    if buckets != [] && !KeyBefore(b.key, buckets[0].key) {
      KeyBeforeIsTotal(b.key, buckets[0].key);
      InsertedIsSorted(buckets[1..], b);
      var rest := Inserted(buckets[1..], b);
      forall x | x in rest ensures KeyBefore(buckets[0].key, x.key) {
        if x != b {
          var j :| 0 <= j < |buckets| - 1 && buckets[1..][j] == x;
          assert buckets[j + 1] == x;
        }
      }
      assert buckets == [buckets[0]] + buckets[1..];
    }
  }

  // ---------------------------------------------------------------- conservation

  function Total(buckets: seq<Bucket>, p: BucketKey -> bool): nat {
    if buckets == [] then 0
    else (if p(buckets[0].key) then buckets[0].count else 0) + Total(buckets[1..], p)
  }

  lemma FirstIsLeast(buckets: seq<Bucket>, x: Bucket)
    requires buckets != [] && KeysSorted(buckets) && x in buckets[1..]
    ensures KeyBefore(buckets[0].key, x.key)
  {
    var j :| 0 <= j < |buckets| - 1 && buckets[1..][j] == x;
    assert buckets[j + 1] == x;
  }

  lemma ListsRest(buckets: seq<Bucket>, counts: map<BucketKey, nat>)
    requires buckets != [] && KeysSorted(buckets) && Lists(buckets, counts)
    ensures Lists(buckets[1..], counts - {buckets[0].key})
  {
    var b, rest := buckets[0], buckets[1..];
    forall x | x in rest ensures x in buckets && x.key != b.key {
      FirstIsLeast(buckets, x);
    }
    forall k | k in counts - {b.key} ensures Bucket(k, counts[k]) in rest {
      InRest(buckets, Bucket(k, counts[k]));
    }
  }

  lemma InRest(buckets: seq<Bucket>, x: Bucket)
    requires buckets != [] && x in buckets && x != buckets[0]
    ensures x in buckets[1..]
  {
    assert buckets == [buckets[0]] + buckets[1..];
  }

  lemma {:induction false} TotalIsMapSum(buckets: seq<Bucket>, counts: map<BucketKey, nat>, p: BucketKey -> bool)
    requires KeysSorted(buckets) && Lists(buckets, counts)
    ensures Total(buckets, p) == MapSum(Restrict(counts, p))
  {
    if buckets == [] {
      assert Restrict(counts, p) == map[];
    } else {
      assert buckets[0] in buckets;
      ListsRest(buckets, counts);
      TotalIsMapSum(buckets[1..], counts - {buckets[0].key}, p);
      RestrictWithout(counts, p, buckets[0].key);
    }
  }

  /** Sums over keys count the events whose key qualifies. */
  lemma {:induction false} CountsAreConserved(events: seq<Event>, start: int, end: int, g: Granularity,
                                              p: BucketKey -> bool)
    ensures MapSum(Restrict(Counts(events, start, end, g), p)) ==
            CountWhere(events, (e: Event) => start <= e.at < end && p(KeyOf(e, g)))
  {
    if events == [] {
      assert Restrict(Counts(events, start, end, g), p) == map[];
    } else {
      var fewer, last := events[..|events| - 1], events[|events| - 1];
      CountsAreConserved(fewer, start, end, g, p);
      if start <= last.at < end {
        RestrictBumped(Counts(fewer, start, end, g), p, KeyOf(last, g));
      }
    }
  }

  lemma {:induction false} WindowSize(events: seq<Event>, start: int, end: int)
    ensures |Window(events, start, end)| == CountWhere(events, (e: Event) => start <= e.at < end)
  {
    if events != [] {
      WindowSize(events[..|events| - 1], start, end);
    }
  }

  lemma {:induction false} CountSame<T>(s: seq<T>, p: T -> bool, q: T -> bool)
    requires forall x :: x in s ==> p(x) == q(x)
    ensures CountWhere(s, p) == CountWhere(s, q)
  {
    if s != [] {
      CountSame(s[..|s| - 1], p, q);
    }
  }

  /** Each bucket counts its own events, and all buckets together the events of the window. */
  lemma BucketsConserveEvents(events: seq<Event>, start: int, end: int, g: Granularity, buckets: seq<Bucket>)
    requires AreBuckets(events, start, end, g, buckets)
    ensures Total(buckets, k => true) == |Window(events, start, end)|
    ensures forall b :: b in buckets ==>
              b.count == CountWhere(events, (e: Event) => start <= e.at < end && KeyOf(e, g) == b.key)
  {
    var counts := Counts(events, start, end, g);
    TotalIsMapSum(buckets, counts, k => true);
    CountsAreConserved(events, start, end, g, k => true);
    WindowSize(events, start, end);
    CountSame(events, (e: Event) => start <= e.at < end && (k => true)(KeyOf(e, g)), (e: Event) => start <= e.at < end);
    forall b | b in buckets
      ensures b.count == CountWhere(events, (e: Event) => start <= e.at < end && KeyOf(e, g) == b.key) {
      var p := (k: BucketKey) => k == b.key;
      CountsAreConserved(events, start, end, g, p);
      MapSumOf(Restrict(counts, p), b.key);
      assert Restrict(counts, p) - {b.key} == map[];
      CountSame(events, (e: Event) => start <= e.at < end && p(KeyOf(e, g)),
                (e: Event) => start <= e.at < end && KeyOf(e, g) == b.key);
    }
  }

  /** A bucket starts at a full hour or day, at or before its events and less than its width before. */
  lemma BucketHolds(at: int, g: Granularity)
    ensures var start, width := BucketStart(at, g), if g.Hourly? then 3_600_000_000 else 86_400_000_000;
            start % width == 0 && start <= at < start + width
  {
    var w := Width(g);
    assert (at - at % w) % w == 0;
  }

  lemma DayOfHour(at: int)
    ensures BucketStart(BucketStart(at, Hourly), Daily) == BucketStart(at, Daily)
  {
    var h := at / HOUR;
    assert at == h * HOUR + at % HOUR;
    assert BucketStart(at, Hourly) == h * HOUR;
    assert BucketStart(h * HOUR, Daily) == h / 24 * DAY;
    assert BucketStart(at, Daily) == h / 24 * DAY;
  }

  /** Each daily count is the sum of the hourly counts of its day. */
  lemma DailyIsSumOfHourly(events: seq<Event>, start: int, end: int, hourly: seq<Bucket>, daily: seq<Bucket>, b: Bucket)
    requires AreBuckets(events, start, end, Hourly, hourly) && AreBuckets(events, start, end, Daily, daily)
    requires b in daily
    ensures b.count == Total(hourly, (k: BucketKey) =>
                               BucketStart(k.start, Daily) == b.key.start && k.name == b.key.name)
  {
    var p := (k: BucketKey) => BucketStart(k.start, Daily) == b.key.start && k.name == b.key.name;
    TotalIsMapSum(hourly, Counts(events, start, end, Hourly), p);
    CountsAreConserved(events, start, end, Hourly, p);
    BucketsConserveEvents(events, start, end, Daily, daily);
    var inHours, inDay := (e: Event) => start <= e.at < end && p(KeyOf(e, Hourly)),
                          (e: Event) => start <= e.at < end && KeyOf(e, Daily) == b.key;
    forall e | e in events ensures inHours(e) == inDay(e) {
      DayOfHour(e.at);
      assert KeyOf(e, Daily) == b.key <==> BucketStart(e.at, Daily) == b.key.start && e.name == b.key.name;
      assert p(KeyOf(e, Hourly)) <==> BucketStart(KeyOf(e, Hourly).start, Daily) == b.key.start && e.name == b.key.name;
    }
    CountSame(events, inHours, inDay);
  }
}

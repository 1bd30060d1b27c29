/**
 The referral ledger: users, referral events and premium awards, as the in-memory
 repository keeps them.  Every operation runs under one lock there, so each is one atomic
 step on a `Ledger` value; the class below performs the steps in place.
 */
module Referrals {
  import opened Options

  datatype EventStatus = Pending | Active | Rejected

  datatype ReferralEvent = ReferralEvent(
    referrer: int, referred: int, key: string, status: EventStatus, activatedAt: Option<int>)

  datatype User = User(
    userId: int, referredBy: Option<int>, premiumUntil: Option<int>, activeCount: int, updatedAt: int)

  datatype Award = Award(referrer: int, milestone: int, premiumUntil: int)

  datatype Ledger = Ledger(
    users: map<int, User>, events: map<int, ReferralEvent>, awards: set<(int, int)>)

  const EMPTY := Ledger(map[], map[], {})

  /** The arguments of one `activate_once` call. */
  datatype Request = Request(referred: int, key: string, now: int, threshold: int, extension: int)

  datatype Activation =
    | NoEvent
    | AlreadyActive(event: ReferralEvent, count: int)
    | NotPending(event: ReferralEvent)
    | Activated(event: ReferralEvent, count: int, award: Option<Award>)
    | MissingUser

  datatype Creation =
    | Created(event: ReferralEvent)
    | Existing(event: ReferralEvent)
    | UnknownUser
    | ImmutableReferrer

  // ---------------------------------------------------------------- specification

  function Upsert(l: Ledger, userId: int, at: int): Ledger {
    var user := if userId in l.users then l.users[userId].(updatedAt := at)
                else User(userId, None, None, 0, at);
    l.(users := l.users[userId := user])
  }

  function CreatePending(l: Ledger, referrer: int, referred: int, key: string, at: int): (Ledger, Creation) {
    if referred in l.events then (l, Existing(l.events[referred]))
    else if referred !in l.users then (l, UnknownUser)
    else
      var user := l.users[referred];
      if user.referredBy.Some? && user.referredBy.value != referrer then (l, ImmutableReferrer)
      else
        var event := ReferralEvent(referrer, referred, key, Pending, None);
        (l.(users := l.users[referred := user.(referredBy := Some(referrer), updatedAt := at)],
            events := l.events[referred := event]), Created(event))
  }

  /** A premium running past `now` is extended from its end, any other from `now`. */
  function Extended(premium: Option<int>, now: int, extension: int): int {
    (if premium.Some? && premium.value > now then premium.value else now) + extension
  }

  function MarkActive(event: ReferralEvent, req: Request): ReferralEvent {
    event.(status := Active, key := req.key, activatedAt := Some(req.now))
  }

  function ActivateOnce(l: Ledger, req: Request): (Ledger, Activation) {
    if req.referred !in l.events then (l, NoEvent)
    else
      var event := l.events[req.referred];
      if event.status.Rejected? then (l, NotPending(event))
      else if event.referrer !in l.users then (l, MissingUser)
      else
        var user := l.users[event.referrer];
        if event.status.Active? then (l, AlreadyActive(event, user.activeCount))
        else
          var event' := MarkActive(event, req);
          var count := user.activeCount + 1;
          var milestone := (user.userId, req.threshold);
          var events := l.events[req.referred := event'];
          if count >= req.threshold && milestone !in l.awards then
            var until := Extended(user.premiumUntil, req.now, req.extension);
            var user' := user.(activeCount := count, premiumUntil := Some(until), updatedAt := req.now);
            (Ledger(l.users[user.userId := user'], events, l.awards + {milestone}),
             Activated(event', count, Some(Award(user.userId, req.threshold, until))))
          else
            (Ledger(l.users[user.userId := user.(activeCount := count, updatedAt := req.now)], events, l.awards),
             Activated(event', count, None))
  }

  datatype Op =
    | UpsertOp(userId: int, at: int)
    | CreateOp(referrer: int, referred: int, key: string, at: int)
    | ActivateOp(req: Request)

  function Apply(l: Ledger, op: Op): Ledger {
    match op
    case UpsertOp(userId, at) => Upsert(l, userId, at)
    case CreateOp(referrer, referred, key, at) => CreatePending(l, referrer, referred, key, at).0
    case ActivateOp(req) => ActivateOnce(l, req).0
  }

  /** The ledger after a whole run that starts empty. */
  function Run(ops: seq<Op>): Ledger {
    if ops == [] then EMPTY else Apply(Run(ops[..|ops| - 1]), ops[|ops| - 1])
  }

  // ---------------------------------------------------------------- the repository

  class InMemoryUserRepository {
    var users: map<int, User>
    var referralEvents: map<int, ReferralEvent>
    var premiumAwards: set<(int, int)>

    function Contents(): Ledger
      reads this
    {
      Ledger(users, referralEvents, premiumAwards)
    }

    constructor ()
      ensures Contents() == EMPTY
    {
      users, referralEvents, premiumAwards := map[], map[], {};
    }

    method UpsertTelegramUser(userId: int, at: int) returns (user: User)
      modifies this
      ensures Contents() == Upsert(old(Contents()), userId, at)
      ensures userId in users && user == users[userId]
    {
      if userId in users {
        user := users[userId].(updatedAt := at);
      } else {
        user := User(userId, None, None, 0, at);
      }
      users := users[userId := user];
    }

    method CreatePendingEvent(referrer: int, referred: int, key: string, at: int) returns (result: Creation)
      modifies this
      ensures (Contents(), result) == CreatePending(old(Contents()), referrer, referred, key, at)
    {
      if referred in referralEvents {
        return Existing(referralEvents[referred]);
      }
      if referred !in users {
        return UnknownUser;
      }
      var user := users[referred];
      if user.referredBy.Some? && user.referredBy.value != referrer {
        return ImmutableReferrer;
      }
      users := users[referred := user.(referredBy := Some(referrer), updatedAt := at)];
      var event := ReferralEvent(referrer, referred, key, Pending, None);
      referralEvents := referralEvents[referred := event];
      result := Created(event);
    }

    method Activate(req: Request) returns (result: Activation)
      modifies this
      ensures (Contents(), result) == ActivateOnce(old(Contents()), req)
    {
      if req.referred !in referralEvents {
        return NoEvent;
      }
      var event := referralEvents[req.referred];
      if event.status.Rejected? {
        return NotPending(event);
      }
      if event.referrer !in users {
        return MissingUser;
      }
      var referrer := users[event.referrer];
      if event.status.Active? {
        return AlreadyActive(event, referrer.activeCount);
      }
      var count := referrer.activeCount + 1;
      var event' := MarkActive(event, req);
      referralEvents := referralEvents[req.referred := event'];
      var award := None;
      var premiumUntil := referrer.premiumUntil;
      var milestone := (referrer.userId, req.threshold);
      if count >= req.threshold && milestone !in premiumAwards {
        var until := Extended(premiumUntil, req.now, req.extension);
        premiumUntil := Some(until);
        premiumAwards := premiumAwards + {milestone};
        award := Some(Award(referrer.userId, req.threshold, until));
      }
      users := users[referrer.userId :=
        referrer.(activeCount := count, premiumUntil := premiumUntil, updatedAt := req.now)];
      result := Activated(event', count, award);
    }
  }

  // ---------------------------------------------------------------- what each operation writes

  /** Everything but the rows of one user and one event, and one award, is as before. */
  ghost predicate ChangesOnly(l: Ledger, l': Ledger, user: int, referred: int) {
    && (forall u :: u != user ==> Lookup(l'.users, u) == Lookup(l.users, u))
    && (forall k :: k != referred ==> Lookup(l'.events, k) == Lookup(l.events, k))
  }

  /** The event of an activation carries the qualifying key and time, and belongs to the same two users. */
  lemma ActivationWritesEvent(l: Ledger, req: Request)
    ensures var (l', r) := ActivateOnce(l, req);
            r.Activated? ==>
              && req.referred in l.events && req.referred in l'.events
              && l.events[req.referred].status == Pending
              && l'.events[req.referred] == r.event
              && r.event.status == Active && r.event.key == req.key && r.event.activatedAt == Some(req.now)
              && r.event.referrer == l.events[req.referred].referrer
              && r.event.referred == l.events[req.referred].referred
  {
  }

  /** It counts one more referral for the referrer, reports that count, and changes no other row. */
  lemma ActivationWritesUser(l: Ledger, req: Request)
    requires forall u :: u in l.users ==> l.users[u].userId == u
    ensures var (l', r) := ActivateOnce(l, req);
            r.Activated? ==>
              var u := l.events[req.referred].referrer;
              && u in l.users && u in l'.users
              && l'.users[u].activeCount == l.users[u].activeCount + 1 == r.count
              && l'.users[u].updatedAt == req.now
              && l'.users[u].userId == u && l'.users[u].referredBy == l.users[u].referredBy
              && ChangesOnly(l, l', u, req.referred)
  {
  }

  /**
   An award is given exactly when the new count reaches the threshold for the first time; the
   premium then runs one extension past the later of its old end and now, and else as before.
   */
  lemma ActivationAwards(l: Ledger, req: Request)
    requires forall u :: u in l.users ==> l.users[u].userId == u
    ensures var (l', r) := ActivateOnce(l, req);
            r.Activated? ==>
              var u := l.events[req.referred].referrer;
              var old', new' := l.users[u].premiumUntil, l'.users[u].premiumUntil;
              && (r.award.Some? <==> r.count >= req.threshold && (u, req.threshold) !in l.awards)
              && l'.awards == (if r.award.Some? then l.awards + {(u, req.threshold)} else l.awards)
              && (r.award.None? ==> new' == old')
              && (r.award.Some? ==>
                    && r.award.value.referrer == u && r.award.value.milestone == req.threshold
                    && new' == Some(r.award.value.premiumUntil)
                    && (var base := r.award.value.premiumUntil - req.extension;
                        && base >= req.now && (old'.Some? ==> base >= old'.value)
                        && (base == req.now || old' == Some(base))))
  {
  }

  /** Each outcome comes from the stored event and its referrer, and only an activation writes. */
  lemma ActivationOutcome(l: Ledger, req: Request)
    ensures var (l', r) := ActivateOnce(l, req);
            var event := Lookup(l.events, req.referred);
            var known := event.Some? && event.value.referrer in l.users;
            && (r.NoEvent? <==> event.None?)
            && (r.NotPending? <==> event.Some? && event.value.status == Rejected)
            && (r.AlreadyActive? <==> known && event.value.status == Active)
            && (r.Activated? <==> known && event.value.status == Pending)
            && (r.AlreadyActive? ==> r.event == event.value && r.count == l.users[event.value.referrer].activeCount)
            && (r.NotPending? ==> r.event == event.value)
            && (!r.Activated? ==> l' == l)
  {
  }

  /** A new event is pending under the given key, and fixes the referrer of the referred user for good. */
  lemma CreationWrites(l: Ledger, referrer: int, referred: int, key: string, at: int)
    ensures var (l', r) := CreatePending(l, referrer, referred, key, at);
            && (r.Existing? <==> referred in l.events) && (r.Existing? ==> r.event == l.events[referred])
            && (r.UnknownUser? <==> referred !in l.events && referred !in l.users)
            && (r.ImmutableReferrer? <==> referred !in l.events && referred in l.users
                                          && l.users[referred].referredBy !in {None, Some(referrer)})
            && (!r.Created? ==> l' == l)
            && (r.Created? ==>
                  && referred in l'.events && l'.events[referred] == r.event
                  && r.event == ReferralEvent(referrer, referred, key, Pending, None)
                  && l'.users.Keys == l.users.Keys && l'.awards == l.awards
                  && l'.users[referred].referredBy == Some(referrer) && l'.users[referred].updatedAt == at
                  && l'.users[referred].activeCount == l.users[referred].activeCount
                  && l'.users[referred].premiumUntil == l.users[referred].premiumUntil
                  && l'.users[referred].userId == l.users[referred].userId
                  && ChangesOnly(l, l', referred, referred))
  {
  }

  /** Greeting a user again only touches the row; a new user starts with nothing. */
  lemma UpsertWrites(l: Ledger, userId: int, at: int)
    ensures var l' := Upsert(l, userId, at);
            && l'.events == l.events && l'.awards == l.awards && l'.users.Keys == l.users.Keys + {userId}
            && l'.users[userId].updatedAt == at
            && (forall u :: u in l.users && u != userId ==> l'.users[u] == l.users[u])
            && (if userId in l.users
                then l'.users[userId].(updatedAt := l.users[userId].updatedAt) == l.users[userId]
                else l'.users[userId] == User(userId, None, None, 0, at))
  {
  }

  /** Rows sit under their own keys in every run. */
  lemma {:induction false} RowsKeepTheirKeys(ops: seq<Op>)
    ensures forall u :: u in Run(ops).users ==> Run(ops).users[u].userId == u
    ensures forall k :: k in Run(ops).events ==> Run(ops).events[k].referred == k
  {
    if ops != [] {
      RowsKeepTheirKeys(ops[..|ops| - 1]);
    }
  }

  // ---------------------------------------------------------------- counts

  ghost function ActiveFor(l: Ledger, u: int): set<int> {
    set k | k in l.events && l.events[k].status.Active? && l.events[k].referrer == u
  }

  /** Counts equal active events, active events have a referrer, awards are earned. */
  ghost predicate Sound(l: Ledger) {
    && (forall u :: u in l.users ==>
          l.users[u].userId == u && l.users[u].activeCount == |ActiveFor(l, u)|)
    && (forall k :: k in l.events && l.events[k].status.Active? ==> l.events[k].referrer in l.users)
    && (forall a :: a in l.awards ==> a.0 in l.users && l.users[a.0].activeCount >= a.1)
  }

  /** Activation adds exactly the activated event to its referrer's active events. */
  lemma ActivationAddsOne(l: Ledger, req: Request, u: int)
    ensures var (l', r) := ActivateOnce(l, req);
            ActiveFor(l', u) == (if r.Activated? && r.event.referrer == u then ActiveFor(l, u) + {req.referred}
                                 else ActiveFor(l, u))
    ensures ActivateOnce(l, req).1.Activated? ==> req.referred !in ActiveFor(l, u)
  {
  }

  lemma NewUserHasNoActiveEvents(l: Ledger, u: int)
    requires Sound(l) && u !in l.users
    ensures ActiveFor(l, u) == {}
  {
    assert forall k :: k in l.events && l.events[k].status.Active? ==> l.events[k].referrer != u;
  }

  lemma CreateKeepsActive(l: Ledger, referrer: int, referred: int, key: string, at: int, u: int)
    ensures ActiveFor(CreatePending(l, referrer, referred, key, at).0, u) == ActiveFor(l, u)
  {
  }

  lemma ApplyKeepsSound(l: Ledger, op: Op)
    requires Sound(l)
    ensures Sound(Apply(l, op))
  {
    var l' := Apply(l, op);
    match op {
      case UpsertOp(userId, at) =>
        forall u | u in l'.users ensures l'.users[u].activeCount == |ActiveFor(l', u)| {
          assert ActiveFor(l', u) == ActiveFor(l, u);
          if u !in l.users { NewUserHasNoActiveEvents(l, u); }
        }
      case CreateOp(referrer, referred, key, at) =>
        forall u | u in l'.users ensures l'.users[u].activeCount == |ActiveFor(l', u)| {
          CreateKeepsActive(l, referrer, referred, key, at, u);
        }
      case ActivateOp(req) =>
        forall u | u in l'.users ensures l'.users[u].activeCount == |ActiveFor(l', u)| {
          ActivationAddsOne(l, req, u);
        }
    }
  }

  /** In every reachable ledger a user's count is the number of active events naming them. */
  lemma {:induction false} CountsMatchEvents(ops: seq<Op>)
    ensures Sound(Run(ops))
  {
    if ops != [] {
      CountsMatchEvents(ops[..|ops| - 1]);
      ApplyKeepsSound(Run(ops[..|ops| - 1]), ops[|ops| - 1]);
    }
  }

  // ---------------------------------------------------------------- awards

  ghost predicate FixedThreshold(ops: seq<Op>, threshold: int) {
    forall i :: 0 <= i < |ops| && ops[i].ActivateOp? ==> ops[i].req.threshold == threshold
  }

  /** With one threshold, the award exists exactly when the count has reached it. */
  lemma {:induction false} AwardIffThresholdReached(ops: seq<Op>, threshold: int, u: int)
    requires threshold >= 1 && FixedThreshold(ops, threshold)
    ensures var l := Run(ops);
            (u, threshold) in l.awards <==> u in l.users && l.users[u].activeCount >= threshold
  {
    if ops != [] {
      var prior := ops[..|ops| - 1];
      AwardIffThresholdReached(prior, threshold, u);
      CountsMatchEvents(prior);
      assert ops[|ops| - 1].ActivateOp? ==> ops[|ops| - 1].req.threshold == threshold;
    }
  }

  // ---------------------------------------------------------------- premium dates

  ghost predicate AwardsTo(l: Ledger, req: Request, u: int) {
    var r := ActivateOnce(l, req).1;
    r.Activated? && r.award.Some? && r.award.value.referrer == u
  }

  ghost predicate WithinBounds(premium: Option<int>, times: seq<int>, e: int) {
    if times == [] then premium == None
    else premium.Some? && times[0] + |times| * e <= premium.value <= times[|times| - 1] + |times| * e
  }

  /** The times of the awards that a run gave to `u`, in order. */
  ghost function AwardTimes(ops: seq<Op>, u: int): seq<int> {
    if ops == [] then []
    else
      var prior, op := ops[..|ops| - 1], ops[|ops| - 1];
      var earlier := AwardTimes(prior, u);
      if op.ActivateOp? then
        if AwardsTo(Run(prior), op.req, u) then earlier + [op.req.now] else earlier
      else earlier
  }

  /** Activations read a clock that never goes back and extend premium by `e`. */
  ghost predicate SteadyClock(ops: seq<Op>, e: int) {
    && (forall i :: 0 <= i < |ops| && ops[i].ActivateOp? ==> ops[i].req.extension == e)
    && (forall i, j :: 0 <= i <= j < |ops| && ops[i].ActivateOp? && ops[j].ActivateOp? ==>
          ops[i].req.now <= ops[j].req.now)
  }

  lemma {:induction false} AwardTimesAreEarlier(ops: seq<Op>, u: int, now: int)
    requires forall i :: 0 <= i < |ops| && ops[i].ActivateOp? ==> ops[i].req.now <= now
    ensures forall k :: 0 <= k < |AwardTimes(ops, u)| ==> AwardTimes(ops, u)[k] <= now
  {
    if ops != [] {
      AwardTimesAreEarlier(ops[..|ops| - 1], u, now);
    }
  }

  /**
   After k awards the premium ends between k extensions past the first award and k
   extensions past the last; a user without awards has no premium.
   */
  lemma {:induction false} PremiumBounds(ops: seq<Op>, u: int, e: int)
    requires e >= 0 && SteadyClock(ops, e) && u in Run(ops).users
    ensures WithinBounds(Run(ops).users[u].premiumUntil, AwardTimes(ops, u), e)
  {
    var prior, op := ops[..|ops| - 1], ops[|ops| - 1];
    CountsMatchEvents(prior);
    if u in Run(prior).users {
      PremiumBounds(prior, u, e);
    } else {
      NoAwardsBeforeUser(prior, u);
    }
    if op.ActivateOp? {
      var l, req := Run(prior), op.req;
      AwardTimesAreEarlier(prior, u, req.now);
      if u in l.users && AwardsTo(l, req, u) {
        ExtensionStep(l.users[u].premiumUntil, AwardTimes(prior, u), req.now, e);
      }
    }
  }

  lemma ExtensionStep(premium: Option<int>, times: seq<int>, now: int, e: int)
    requires e >= 0 && WithinBounds(premium, times, e)
    requires forall k :: 0 <= k < |times| ==> times[k] <= now
    ensures WithinBounds(Some(Extended(premium, now, e)), times + [now], e)
  {
    var k := |times|;
    assert (k + 1) * e == k * e + e;
    assert k * e >= 0;
  }

  lemma {:induction false} NoAwardsBeforeUser(ops: seq<Op>, u: int)
    requires u !in Run(ops).users
    ensures AwardTimes(ops, u) == []
  {
    if ops != [] {
      CountsMatchEvents(ops[..|ops| - 1]);
      NoAwardsBeforeUser(ops[..|ops| - 1], u);
    }
  }
}

/**
 Content automation: channel posts under idempotency keys, with a daily cap, retries after
 a backoff, and a preview of what a day's run is going to publish.

 A key is a day and a kind; the day is the date prefix of the stored key.  What a kind
 renders to on a day and what the publisher does are given from outside.
 */
module ContentAutomation {
  import opened Options
  import opened TelegramText

  datatype Kind = DailyStats | TopOffer | DistrictStats | TransparencyReport

  datatype Key = Key(day: int, kind: Kind)

  datatype Status = Drafted | Published | DryRun | Failed

  datatype Post = Post(
    id: string, key: Key, text: string, status: Status, attempts: nat,
    nextAttempt: Option<int>, publishedAt: Option<int>, createdAt: int)

  datatype SentAs = AsDraft | AsPublished | AsDryRun

  /** What a call of the publisher brings: a result, or a publish error. */
  datatype Outcome = Sent(how: SentAs) | Refused(retryable: bool)

  datatype Call = Call(key: Key, text: string, now: int, outcome: Outcome)

  /** Stored posts, and all publisher calls so far. */
  datatype World = World(posts: map<Key, Post>, calls: seq<Call>)

  datatype Config = Config(limit: int, backoff: int)

  const EMPTY := World(map[], [])

  predicate Counts(s: Status) { s != Failed }

  function CountedKeys(posts: map<Key, Post>, day: int): set<Key> {
    set k | k in posts && k.day == day && Counts(posts[k].status)
  }

  function StatusOf(how: SentAs): Status {
    match how
    case AsDraft => Drafted
    case AsPublished => Published
    case AsDryRun => DryRun
  }

  // ---------------------------------------------------------------- specification

  /** The post stored after a publisher call. */
  function PostAfter(c: Config, existing: Option<Post>, key: Key, now: int, text: string, freshId: string,
                     o: Outcome): Post {
    Post(if existing.Some? then existing.value.id else freshId,
         key, SafeText(text),
         if o.Sent? then StatusOf(o.how) else Failed,
         (if existing.Some? then existing.value.attempts else 0) + 1,
         if o.Refused? && o.retryable then Some(now + c.backoff) else None,
         if o.Sent? && !o.how.AsDraft? then Some(now) else None,
         if existing.Some? then existing.value.createdAt else now)
  }

  /** Whether a call for `key` goes on to the publisher; it then only needs a text. */
  predicate Due(w: World, c: Config, key: Key, now: int) {
    && (key in w.posts ==>
          var existing := w.posts[key];
          !Counts(existing.status) && !(existing.nextAttempt.Some? && existing.nextAttempt.value > now))
    && |CountedKeys(w.posts, key.day)| < c.limit
  }

  function CreateOnce(w: World, c: Config, key: Key, now: int, text: Option<string>, freshId: string,
                      o: Outcome): (World, Option<Post>) {
    var existing := Lookup(w.posts, key);
    if !Due(w, c, key, now) then (w, existing)
    else if text.None? then (w, None)
    else
      var post := PostAfter(c, existing, key, now, text.value, freshId, o);
      (World(w.posts[key := post], w.calls + [Call(key, SafeText(text.value), now, o)]), Some(post))
  }

  /** The kinds of a daily run, in order. */
  const PLANNED := [TopOffer, DistrictStats, TransparencyReport]

  /** What each planned kind meets on one day. */
  datatype Day = Day(day: int, now: int, render: Kind -> Option<string>, freshId: Kind -> string,
                     publish: Kind -> Outcome)

  function CreateKind(w: World, c: Config, d: Day, k: Kind): (World, Option<Post>) {
    CreateOnce(w, c, Key(d.day, k), d.now, d.render(k), d.freshId(k), d.publish(k))
  }

  /** The world after a daily run, and the posts it returns. */
  function Generate(w: World, c: Config, d: Day, kinds: seq<Kind>): (World, seq<Post>)
    decreases |kinds|
  {
    if kinds == [] then (w, [])
    else
      var (w', post) := CreateKind(w, c, d, kinds[0]);
      var (w'', posts) := Generate(w', c, d, kinds[1..]);
      (w'', if post.Some? then [post.value] + posts else posts)
  }

  /** Keys and texts of the previewed posts, while `room` more may be shown. */
  function Preview(posts: map<Key, Post>, d: Day, kinds: seq<Kind>, room: int): seq<(Key, string)> {
    if kinds == [] || room <= 0 then []
    else
      var k := kinds[0];
      if Key(d.day, k) in posts || d.render(k).None? then Preview(posts, d, kinds[1..], room)
      else [(Key(d.day, k), SafeText(d.render(k).value))] + Preview(posts, d, kinds[1..], room - 1)
  }

  // ---------------------------------------------------------------- the service

  class ContentAutomationService {
    const config: Config
    var posts: map<Key, Post>
    var calls: seq<Call>

    constructor (limit: int, backoff: int)
      requires 1 <= limit <= 2
      ensures config == Config(limit, backoff) && Contents() == EMPTY
    {
      config, posts, calls := Config(limit, backoff), map[], [];
    }

    function Contents(): World
      reads this
    {
      World(posts, calls)
    }

    method Publish(key: Key, text: string, now: int, outcome: Outcome)
      modifies this`calls
      ensures calls == old(calls) + [Call(key, text, now, outcome)]
    {
      calls := calls + [Call(key, text, now, outcome)];
    }

    method Create(key: Key, now: int, text: Option<string>, freshId: string, outcome: Outcome)
      returns (result: Option<Post>)
      modifies this`posts, this`calls
      ensures (Contents(), result) == CreateOnce(old(Contents()), config, key, now, text, freshId, outcome)
    {
      var existing := Lookup(posts, key);
      if existing.Some? {
        if existing.value.status.Published? || existing.value.status.DryRun? || existing.value.status.Drafted? {
          return existing;
        }
        if existing.value.nextAttempt.Some? && existing.value.nextAttempt.value > now {
          return existing;
        }
      }
      if |CountedKeys(posts, key.day)| >= config.limit {
        return existing;
      }
      if text.None? {
        return None;
      }
      var attempts := if existing.Some? then existing.value.attempts else 0;
      var id := if existing.Some? then existing.value.id else freshId;
      var createdAt := if existing.Some? then existing.value.createdAt else now;
      Publish(key, SafeText(text.value), now, outcome);
      var post: Post;
      if outcome.Refused? {
        post := Post(id, key, SafeText(text.value), Failed, attempts + 1,
                     if outcome.retryable then Some(now + config.backoff) else None, None, createdAt);
      } else {
        post := Post(id, key, SafeText(text.value), StatusOf(outcome.how), attempts + 1,
                     None, if outcome.how.AsPublished? || outcome.how.AsDryRun? then Some(now) else None, createdAt);
      }
      posts := posts[key := post];
      result := Some(post);
    }

    method GenerateDaily(d: Day) returns (posts': seq<Post>)
      modifies this`posts, this`calls
      ensures (Contents(), posts') == Generate(old(Contents()), config, d, PLANNED)
    {
      posts' := [];
      ghost var goal := Generate(Contents(), config, d, PLANNED);
      assert PLANNED[0..] == PLANNED;
      for i := 0 to |PLANNED|
        invariant goal.0 == Generate(Contents(), config, d, PLANNED[i..]).0
        invariant goal.1 == posts' + Generate(Contents(), config, d, PLANNED[i..]).1
      {
        GenerateNext(Contents(), config, d, PLANNED, i, posts');
        var kind := PLANNED[i];
        var post := Create(Key(d.day, kind), d.now, d.render(kind), d.freshId(kind), d.publish(kind));
        if post.Some? {
          posts' := posts' + [post.value];
        }
      }
      assert PLANNED[|PLANNED|..] == [] && posts' + [] == posts';
    }

    method PreviewDaily(d: Day) returns (posts': seq<(Key, string)>)
      ensures posts' == Preview(posts, d, PLANNED, config.limit - |CountedKeys(posts, d.day)|)
    {
      var remaining := config.limit - |CountedKeys(posts, d.day)|;
      if remaining <= 0 {
        return [];
      }
      posts' := PreviewPlanned(d, remaining);
    }

    method PreviewPlanned(d: Day, remaining: int) returns (posts': seq<(Key, string)>)
      requires remaining > 0
      ensures posts' == Preview(posts, d, PLANNED, remaining)
    {
      posts' := [];
      for i := 0 to |PLANNED|
        invariant |posts'| <= remaining
        invariant posts' + Preview(posts, d, PLANNED[i..], remaining - |posts'|)
                  == Preview(posts, d, PLANNED, remaining)
      {
        if |posts'| >= remaining {
          return;
        }
        PreviewNext(posts, d, PLANNED, i, posts', remaining - |posts'|);
        var kind := PLANNED[i];
        var text := d.render(kind);
        if Key(d.day, kind) !in posts && text.Some? {
          posts' := posts' + [(Key(d.day, kind), SafeText(text.value))];
        }
      }
    }
  }

  /** One turn of the daily loop. */
  lemma GenerateNext(w: World, c: Config, d: Day, kinds: seq<Kind>, i: nat, shown: seq<Post>)
    requires i < |kinds|
    ensures var (w', post) := CreateKind(w, c, d, kinds[i]);
            var (now, next) := (Generate(w, c, d, kinds[i..]), Generate(w', c, d, kinds[i + 1..]));
            && now.0 == next.0
            && shown + now.1 == if post.Some? then shown + [post.value] + next.1 else shown + next.1
  {
    assert kinds[i..][0] == kinds[i] && kinds[i..][1..] == kinds[i + 1..];
  }

  /** One turn of the preview loop. */
  lemma PreviewNext(posts: map<Key, Post>, d: Day, kinds: seq<Kind>, i: nat, shown: seq<(Key, string)>, room: int)
    requires i < |kinds| && room > 0
    ensures var key := Key(d.day, kinds[i]);
            shown + Preview(posts, d, kinds[i..], room) ==
            if key in posts || d.render(kinds[i]).None? then shown + Preview(posts, d, kinds[i + 1..], room)
            else shown + [(key, SafeText(d.render(kinds[i]).value))] + Preview(posts, d, kinds[i + 1..], room - 1)
  {
    assert kinds[i..][0] == kinds[i] && kinds[i..][1..] == kinds[i + 1..];
  }

  // ---------------------------------------------------------------- whole runs

  /** One scheduled message, or one kind of a daily run. */
  datatype Op = Op(key: Key, now: int, text: Option<string>, freshId: string, outcome: Outcome)

  function Step(w: World, c: Config, op: Op): World {
    CreateOnce(w, c, op.key, op.now, op.text, op.freshId, op.outcome).0
  }

  function Run(c: Config, ops: seq<Op>): World {
    if ops == [] then EMPTY else Step(Run(c, ops[..|ops| - 1]), c, ops[|ops| - 1])
  }

  function OpFor(d: Day, k: Kind): Op {
    Op(Key(d.day, k), d.now, d.render(k), d.freshId(k), d.publish(k))
  }

  /** A daily run is three such calls. */
  lemma GenerateIsThreeSteps(c: Config, ops: seq<Op>, d: Day)
    ensures Generate(Run(c, ops), c, d, PLANNED).0 ==
            Run(c, ops + [OpFor(d, TopOffer), OpFor(d, DistrictStats), OpFor(d, TransparencyReport)])
  {
    var w, a, b, e := Run(c, ops), OpFor(d, TopOffer), OpFor(d, DistrictStats), OpFor(d, TransparencyReport);
    RunMore(c, ops, a);
    RunMore(c, ops + [a], b);
    RunMore(c, ops + [a] + [b], e);
    assert ops + [a, b, e] == ops + [a] + [b] + [e];
    GenerateNext(w, c, d, PLANNED, 0, []);
    GenerateNext(Step(w, c, a), c, d, PLANNED, 1, []);
    GenerateNext(Step(Step(w, c, a), c, b), c, d, PLANNED, 2, []);
  }

  lemma RunMore(c: Config, ops: seq<Op>, op: Op)
    ensures Run(c, ops + [op]) == Step(Run(c, ops), c, op)
  {
    assert (ops + [op])[..|ops|] == ops;
  }

  function CallsFor(calls: seq<Call>, key: Key): seq<Call> {
    if calls == [] then []
    else
      var earlier, last := CallsFor(calls[..|calls| - 1], key), calls[|calls| - 1];
      if last.key == key then earlier + [last] else earlier
  }

  lemma CallsForMore(calls: seq<Call>, call: Call, key: Key)
    ensures CallsFor(calls + [call], key) ==
            if call.key == key then CallsFor(calls, key) + [call] else CallsFor(calls, key)
  {
    assert (calls + [call])[..|calls|] == calls;
  }

  /** A key's calls: all but the last were refused, and a retry keeps the backoff. */
  ghost predicate Retries(c: Config, calls: seq<Call>) {
    && (forall i :: 0 <= i < |calls| - 1 ==> calls[i].outcome.Refused?)
    && (forall i :: 0 < i < |calls| ==> Waits(c, calls, i))
  }

  ghost predicate Waits(c: Config, calls: seq<Call>, i: nat)
    requires 0 < i < |calls|
  {
    calls[i - 1].outcome == Refused(true) ==> calls[i].now >= calls[i - 1].now + c.backoff
  }

  /** What the store knows of a key's calls. */
  ghost predicate Remembers(c: Config, w: World, key: Key) {
    var calls := CallsFor(w.calls, key);
    if key !in w.posts then calls == []
    else
      var post := w.posts[key];
      && post.attempts == |calls| > 0
      && post.key == key && post.text == calls[|calls| - 1].text
      && (Counts(post.status) <==> calls[|calls| - 1].outcome.Sent?)
      && post.nextAttempt == (if calls[|calls| - 1].outcome == Refused(true)
                              then Some(calls[|calls| - 1].now + c.backoff) else None)
  }

  ghost predicate Sound(c: Config, w: World) {
    && (forall key :: Remembers(c, w, key) && Retries(c, CallsFor(w.calls, key)))
    && (forall day :: |CountedKeys(w.posts, day)| <= c.limit)
  }

  lemma CallsForOwnKey(w: World, c: Config, op: Op)
    requires Due(w, c, op.key, op.now) && op.text.Some?
    ensures CallsFor(Step(w, c, op).calls, op.key)
            == CallsFor(w.calls, op.key) + [Call(op.key, SafeText(op.text.value), op.now, op.outcome)]
  {
    CallsForMore(w.calls, Call(op.key, SafeText(op.text.value), op.now, op.outcome), op.key);
  }

  /** One more call after refused ones, no earlier than the backoff after the last. */
  lemma RetriesGrow(c: Config, calls: seq<Call>, call: Call)
    requires Retries(c, calls)
    requires calls != [] ==> var last := calls[|calls| - 1];
                             last.outcome.Refused? && (last.outcome.retryable ==> call.now >= last.now + c.backoff)
    ensures Retries(c, calls + [call])
  {
    forall i | 0 < i < |calls + [call]| ensures Waits(c, calls + [call], i) {
      if i < |calls| {
        assert Waits(c, calls, i);
      }
    }
  }

  lemma OwnKeyIsRemembered(w: World, c: Config, op: Op)
    requires Remembers(c, w, op.key)
    ensures Remembers(c, Step(w, c, op), op.key)
  {
    if Due(w, c, op.key, op.now) && op.text.Some? {
      CallsForOwnKey(w, c, op);
    }
  }

  lemma OwnKeyRetries(w: World, c: Config, op: Op)
    requires Remembers(c, w, op.key) && Retries(c, CallsFor(w.calls, op.key))
    ensures Retries(c, CallsFor(Step(w, c, op).calls, op.key))
  {
    if Due(w, c, op.key, op.now) && op.text.Some? {
      CallsForOwnKey(w, c, op);
      RetriesGrow(c, CallsFor(w.calls, op.key), Call(op.key, SafeText(op.text.value), op.now, op.outcome));
    }
  }

  lemma OtherKeyStays(w: World, c: Config, op: Op, key: Key)
    requires key != op.key
    ensures var w' := Step(w, c, op);
            Lookup(w'.posts, key) == Lookup(w.posts, key) && CallsFor(w'.calls, key) == CallsFor(w.calls, key)
  {
    if op.text.Some? {
      CallsForMore(w.calls, Call(op.key, SafeText(op.text.value), op.now, op.outcome), key);
    }
  }

  lemma StepKeepsKey(w: World, c: Config, op: Op, key: Key)
    requires Remembers(c, w, key) && Retries(c, CallsFor(w.calls, key))
    ensures var w' := Step(w, c, op); Remembers(c, w', key) && Retries(c, CallsFor(w'.calls, key))
  {
    if key == op.key {
      OwnKeyIsRemembered(w, c, op);
      OwnKeyRetries(w, c, op);
    } else {
      OtherKeyStays(w, c, op, key);
    }
  }

  /** Storing a post under a key that is not counted yet. */
  lemma CountedAfter(posts: map<Key, Post>, key: Key, post: Post, day: int)
    requires key in posts ==> !Counts(posts[key].status)
    ensures CountedKeys(posts[key := post], day) ==
            if key.day == day && Counts(post.status) then CountedKeys(posts, day) + {key} else CountedKeys(posts, day)
    ensures key !in CountedKeys(posts, day)
  {
  }

  lemma StepKeepsCap(w: World, c: Config, op: Op, day: int)
    requires |CountedKeys(w.posts, day)| <= c.limit
    ensures |CountedKeys(Step(w, c, op).posts, day)| <= c.limit
  {
    if Due(w, c, op.key, op.now) && op.text.Some? {
      CountedAfter(w.posts, op.key, Step(w, c, op).posts[op.key], day);
    }
  }

  lemma {:induction false} RunIsSound(c: Config, ops: seq<Op>)
    requires c.limit >= 0
    ensures Sound(c, Run(c, ops))
  {
    if ops == [] {
      assert forall day :: CountedKeys(EMPTY.posts, day) == {};
    } else {
      var w, op := Run(c, ops[..|ops| - 1]), ops[|ops| - 1];
      RunIsSound(c, ops[..|ops| - 1]);
      forall key ensures Remembers(c, Step(w, c, op), key) && Retries(c, CallsFor(Step(w, c, op).calls, key)) {
        StepKeepsKey(w, c, op, key);
      }
      forall day ensures |CountedKeys(Step(w, c, op).posts, day)| <= c.limit {
        StepKeepsCap(w, c, op, day);
      }
    }
  }

  // ---------------------------------------------------------------- main results

  /** No day ever has more counted posts than the limit. */
  lemma DailyCap(c: Config, ops: seq<Op>, day: int)
    requires c.limit >= 0
    ensures |CountedKeys(Run(c, ops).posts, day)| <= c.limit
  {
    RunIsSound(c, ops);
  }

  /** A key is sent at most once, and after it is sent no call for it follows. */
  lemma SentAtMostOnce(c: Config, ops: seq<Op>, key: Key, i: nat, j: nat)
    requires c.limit >= 0
    requires i < j < |CallsFor(Run(c, ops).calls, key)|
    ensures CallsFor(Run(c, ops).calls, key)[i].outcome.Refused?
  {
    RunIsSound(c, ops);
  }

  /** The stored attempts are the publisher calls for the key, and the stored text the last one sent. */
  lemma AttemptsAreCalls(c: Config, ops: seq<Op>, key: Key)
    requires c.limit >= 0
    ensures var w := Run(c, ops);
            if key in w.posts
            then w.posts[key].attempts == |CallsFor(w.calls, key)| > 0
                 && w.posts[key].text == CallsFor(w.calls, key)[w.posts[key].attempts - 1].text
            else CallsFor(w.calls, key) == []
  {
    RunIsSound(c, ops);
    assert Remembers(c, Run(c, ops), key);
  }

  /** After a retryable failure the next call for the key comes no earlier than the backoff. */
  lemma BackoffIsKept(c: Config, ops: seq<Op>, key: Key, i: nat)
    requires c.limit >= 0
    requires var calls := CallsFor(Run(c, ops).calls, key); 0 < i < |calls| && calls[i - 1].outcome == Refused(true)
    ensures var calls := CallsFor(Run(c, ops).calls, key); calls[i].now >= calls[i - 1].now + c.backoff
  {
    RunIsSound(c, ops);
    assert Waits(c, CallsFor(Run(c, ops).calls, key), i);
  }

  /** Post id and creation time never change once stored. */
  lemma {:induction false} IdentityIsKept(c: Config, ops: seq<Op>, more: seq<Op>, key: Key)
    requires key in Run(c, ops).posts
    ensures var before, after := Run(c, ops).posts, Run(c, ops + more).posts;
            key in after && after[key].id == before[key].id && after[key].createdAt == before[key].createdAt
  {
    if more == [] {
      assert ops + more == ops;
    } else {
      var fewer := more[..|more| - 1];
      assert (ops + more)[..|ops + more| - 1] == ops + fewer;
      IdentityIsKept(c, ops, fewer, key);
    }
  }

  /** What a publisher that normalises once more sends is the stored text, and fits in one message. */
  lemma {:induction false} StoredTextIsSent(c: Config, ops: seq<Op>, key: Key)
    requires key in Run(c, ops).posts
    ensures var text := Run(c, ops).posts[key].text; SafeText(text) == text && |text| <= MAX_MESSAGE_LENGTH
  {
    var before, op := Run(c, ops[..|ops| - 1]), ops[|ops| - 1];
    if Lookup(before.posts, key) == Lookup(Run(c, ops).posts, key) {
      StoredTextIsSent(c, ops[..|ops| - 1], key);
    } else {
      SafeTextIsIdempotent(op.text.value);
      SafeTextIsNormal(op.text.value);
    }
  }

  // ---------------------------------------------------------------- posts and calls

  /** What the last call of a key says of its stored post, and the first of its creation time. */
  ghost predicate Mirrors(post: Post, calls: seq<Call>) {
    && calls != []
    && (var last := calls[|calls| - 1];
        && (post.status == Published <==> last.outcome == Sent(AsPublished))
        && (post.status == DryRun <==> last.outcome == Sent(AsDryRun))
        && (post.status == Drafted <==> last.outcome == Sent(AsDraft))
        && (post.status == Failed <==> last.outcome.Refused?)
        && post.publishedAt == (if last.outcome in {Sent(AsPublished), Sent(AsDryRun)} then Some(last.now) else None)
        && post.text == last.text)
    && post.createdAt == calls[0].now
  }

  ghost predicate MirroredAt(w: World, key: Key) {
    && (key in w.posts <==> CallsFor(w.calls, key) != [])
    && (key in w.posts ==> Mirrors(w.posts[key], CallsFor(w.calls, key)))
  }

  lemma StepMirrors(w: World, c: Config, op: Op, key: Key)
    requires MirroredAt(w, key)
    ensures MirroredAt(Step(w, c, op), key)
  {
    if key != op.key {
      OtherKeyStays(w, c, op, key);
      assert Lookup(Step(w, c, op).posts, key) == Lookup(w.posts, key);
    } else if Due(w, c, key, op.now) && op.text.Some? {
      CallsForOwnKey(w, c, op);
    }
  }

  /**
   In every run the stored status is what the publisher last made of the post: published, dry run,
   drafted, or failed when it refused; it is dated when published or dry run; and it is created
   at its first call.
   */
  lemma {:induction false} StatusIsLastOutcome(c: Config, ops: seq<Op>, key: Key)
    ensures MirroredAt(Run(c, ops), key)
  {
    if ops != [] {
      StatusIsLastOutcome(c, ops[..|ops| - 1], key);
      StepMirrors(Run(c, ops[..|ops| - 1]), c, ops[|ops| - 1], key);
    }
  }

  /** The keys of a day that the publisher has accepted. */
  function SentKeys(calls: seq<Call>, day: int): set<Key> {
    set call | call in calls && call.key.day == day && call.outcome.Sent? :: call.key
  }

  lemma {:induction false} CallsForHas(calls: seq<Call>, key: Key, call: Call)
    ensures call in CallsFor(calls, key) <==> call in calls && call.key == key
  {
    if calls != [] {
      CallsForHas(calls[..|calls| - 1], key, call);
      assert calls == calls[..|calls| - 1] + [calls[|calls| - 1]];
    }
  }

  /** A stored post counts exactly when the publisher accepted it. */
  lemma CountedIsSent(c: Config, ops: seq<Op>, key: Key)
    requires c.limit >= 0
    ensures var w := Run(c, ops);
            key in w.posts && Counts(w.posts[key].status) <==>
            exists call :: call in w.calls && call.key == key && call.outcome.Sent?
  {
    var w := Run(c, ops);
    var calls := CallsFor(w.calls, key);
    StatusIsLastOutcome(c, ops, key);
    RunIsSound(c, ops);
    assert Retries(c, calls);
    if key in w.posts && Counts(w.posts[key].status) {
      CallsForHas(w.calls, key, calls[|calls| - 1]);
    }
    if call :| call in w.calls && call.key == key && call.outcome.Sent? {
      CallsForHas(w.calls, key, call);
      var i :| 0 <= i < |calls| && calls[i] == call;
      assert i == |calls| - 1;
    }
  }

  lemma CountedAreSent(c: Config, ops: seq<Op>, day: int)
    requires c.limit >= 0
    ensures CountedKeys(Run(c, ops).posts, day) == SentKeys(Run(c, ops).calls, day)
  {
    var w := Run(c, ops);
    forall key ensures key in CountedKeys(w.posts, day) <==> key in SentKeys(w.calls, day) {
      CountedIsSent(c, ops, key);
    }
  }

  /** The publisher never accepts more posts of one day than the limit. */
  lemma DailySends(c: Config, ops: seq<Op>, day: int)
    requires c.limit >= 0
    ensures |SentKeys(Run(c, ops).calls, day)| <= c.limit
  {
    DailyCap(c, ops, day);
    CountedAreSent(c, ops, day);
  }

  /** No call for the key was accepted yet, and the backoff after a retryable refusal is over. */
  ghost predicate MayRetry(c: Config, calls: seq<Call>, now: int) {
    && (forall call :: call in calls ==> call.outcome.Refused?)
    && (calls != [] && calls[|calls| - 1].outcome == Refused(true) ==> now >= calls[|calls| - 1].now + c.backoff)
  }

  /**
   A message or a run goes to the publisher exactly when there is a text, the key may still be
   sent, and the day has room; the call then carries that text, and otherwise nothing changes.
   */
  lemma CalledIff(c: Config, ops: seq<Op>, op: Op)
    requires c.limit >= 0
    ensures var w := Run(c, ops);
            Step(w, c, op).calls ==
            if op.text.Some? && MayRetry(c, CallsFor(w.calls, op.key), op.now)
               && |SentKeys(w.calls, op.key.day)| < c.limit
            then w.calls + [Call(op.key, SafeText(op.text.value), op.now, op.outcome)] else w.calls
    ensures Step(Run(c, ops), c, op).calls == Run(c, ops).calls ==> Step(Run(c, ops), c, op) == Run(c, ops)
  {
    var w := Run(c, ops);
    RunIsSound(c, ops);
    assert Remembers(c, w, op.key) && Retries(c, CallsFor(w.calls, op.key));
    CountedAreSent(c, ops, op.key.day);
    DueIff(c, w, op.key, op.now);
  }

  lemma DueIff(c: Config, w: World, key: Key, now: int)
    requires Remembers(c, w, key) && Retries(c, CallsFor(w.calls, key))
    ensures Due(w, c, key, now) <==>
            MayRetry(c, CallsFor(w.calls, key), now) && |CountedKeys(w.posts, key.day)| < c.limit
  {
    var calls := CallsFor(w.calls, key);
    if calls != [] {
      assert calls[|calls| - 1] in calls;
    }
  }

  /** A first call stores the fresh id, a later one keeps the old one; each call is one more attempt. */
  lemma CallKeepsIdentity(w: World, c: Config, op: Op)
    requires Step(w, c, op) != w
    ensures var posts := Step(w, c, op).posts;
            && op.key in posts && posts[op.key].key == op.key
            && (op.key !in w.posts ==> posts[op.key].id == op.freshId && posts[op.key].attempts == 1)
            && (op.key in w.posts ==>
                  posts[op.key].id == w.posts[op.key].id && posts[op.key].attempts == w.posts[op.key].attempts + 1)
            && forall k :: k != op.key ==> Lookup(posts, k) == Lookup(w.posts, k)
  {
  }

  /** A message returns the stored post after the call, or the post as it was when it is not due. */
  lemma ReturnedPost(w: World, c: Config, op: Op)
    ensures var (w', r) := CreateOnce(w, c, op.key, op.now, op.text, op.freshId, op.outcome);
            && (w' != w ==> r == Lookup(w'.posts, op.key))
            && (w' == w ==> r == if Due(w, c, op.key, op.now) then None else Lookup(w.posts, op.key))
  {
    if Due(w, c, op.key, op.now) && op.text.Some? {
      assert |Step(w, c, op).calls| == |w.calls| + 1;
    }
  }
}

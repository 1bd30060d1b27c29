/**
 What the preview of a day says about the day's run, when the publisher refuses nothing:
 the run publishes exactly the previewed posts, unless it comes to retry a failed one.
 */
module ContentPreview {
  import opened Options
  import opened TelegramText
  import opened ContentAutomation

  function KeysAndTexts(calls: seq<Call>): seq<(Key, string)> {
    if calls == [] then []
    else KeysAndTexts(calls[..|calls| - 1]) + [(calls[|calls| - 1].key, calls[|calls| - 1].text)]
  }

  function Room(w: World, c: Config, d: Day): int {
    c.limit - |CountedKeys(w.posts, d.day)|
  }

  function Line(d: Day, k: Kind): (Key, string)
    requires d.render(k).Some?
  {
    (Key(d.day, k), SafeText(d.render(k).value))
  }

  /** A failed post that is not waiting for its backoff any more. */
  predicate RetryDue(posts: map<Key, Post>, d: Day, k: Kind) {
    Key(d.day, k) in posts
    && var post := posts[Key(d.day, k)];
       !Counts(post.status) && !(post.nextAttempt.Some? && post.nextAttempt.value > d.now)
  }

  /** Going through the kinds with `room` posts left, a failed post is due before the room is used up. */
  predicate MeetsRetry(posts: map<Key, Post>, d: Day, kinds: seq<Kind>, room: int) {
    if kinds == [] || room <= 0 then false
    else if d.render(kinds[0]).None? then MeetsRetry(posts, d, kinds[1..], room)
    else if Key(d.day, kinds[0]) in posts then RetryDue(posts, d, kinds[0]) || MeetsRetry(posts, d, kinds[1..], room)
    else MeetsRetry(posts, d, kinds[1..], room - 1)
  }

  /** The kinds are distinct, as the planned ones are, and the publisher refuses none of them. */
  ghost predicate AllSent(d: Day, kinds: seq<Kind>) {
    && (forall i, j :: 0 <= i < j < |kinds| ==> kinds[i] != kinds[j])
    && (forall k :: k in kinds ==> d.publish(k).Sent?)
  }

  lemma AllSentRest(d: Day, kinds: seq<Kind>)
    requires kinds != [] && AllSent(d, kinds)
    ensures AllSent(d, kinds[1..]) && d.publish(kinds[0]).Sent? && kinds[0] !in kinds[1..]
  {
    assert kinds[0] in kinds;
  }

  predicate Sends(w: World, c: Config, d: Day, k: Kind) {
    && Key(d.day, k) !in w.posts && d.render(k).Some? && d.publish(k).Sent?
    && Room(w, c, d) > 0
  }

  /** The post sent for a new kind is stored and counted ... */
  lemma SentIsCounted(w: World, c: Config, d: Day, k: Kind)
    requires Sends(w, c, d, k)
    ensures var w' := CreateKind(w, c, d, k).0;
            && w'.posts.Keys == w.posts.Keys + {Key(d.day, k)}
            && Room(w', c, d) == Room(w, c, d) - 1
            && Counts(w'.posts[Key(d.day, k)].status)
            && (forall x :: x in w.posts ==> w'.posts[x] == w.posts[x])
  {
    CountedAfter(w.posts, Key(d.day, k), CreateKind(w, c, d, k).0.posts[Key(d.day, k)], d.day);
  }

  /** ... and is the next one the publisher gets. */
  lemma SentIsCalled(w: World, c: Config, d: Day, k: Kind)
    requires Sends(w, c, d, k)
    ensures KeysAndTexts(CreateKind(w, c, d, k).0.calls) == KeysAndTexts(w.calls) + [Line(d, k)]
  {
    var w' := CreateKind(w, c, d, k).0;
    assert w'.calls[..|w'.calls| - 1] == w.calls;
  }

  /** Preview and retries only look at the posts of the kinds still to come. */
  lemma {:induction false} OnlyKindsMatter(p: map<Key, Post>, q: map<Key, Post>, d: Day, kinds: seq<Kind>, room: int)
    requires forall k :: k in kinds ==> Lookup(p, Key(d.day, k)) == Lookup(q, Key(d.day, k))
    ensures Preview(p, d, kinds, room) == Preview(q, d, kinds, room)
    ensures MeetsRetry(p, d, kinds, room) == MeetsRetry(q, d, kinds, room)
  {
    if kinds != [] && room > 0 {
      assert kinds[0] in kinds;
      assert forall k :: k in kinds[1..] ==> k in kinds;
      OnlyKindsMatter(p, q, d, kinds[1..], room);
      OnlyKindsMatter(p, q, d, kinds[1..], room - 1);
    }
  }

  predicate PassesOver(w: World, c: Config, d: Day, k: Kind) {
    Room(w, c, d) <= 0 || d.render(k).None? || (Key(d.day, k) in w.posts && !RetryDue(w.posts, d, k))
  }

  /** A kind that is stored, without a text, or beyond the cap is passed over by run and preview alike. */
  lemma PassedOver(w: World, c: Config, d: Day, kinds: seq<Kind>)
    requires kinds != [] && PassesOver(w, c, d, kinds[0])
    ensures Generate(w, c, d, kinds).0 == Generate(w, c, d, kinds[1..]).0
    ensures Preview(w.posts, d, kinds, Room(w, c, d)) == Preview(w.posts, d, kinds[1..], Room(w, c, d))
    ensures MeetsRetry(w.posts, d, kinds, Room(w, c, d)) == MeetsRetry(w.posts, d, kinds[1..], Room(w, c, d))
  {
    assert CreateKind(w, c, d, kinds[0]).0 == w;
  }

  /** A kind that is sent is shown first, and the rest goes on from the store with it. */
  lemma ShownFirst(w: World, c: Config, d: Day, kinds: seq<Kind>)
    requires kinds != [] && AllSent(d, kinds) && Sends(w, c, d, kinds[0])
    ensures var w' := CreateKind(w, c, d, kinds[0]).0;
            && Preview(w.posts, d, kinds, Room(w, c, d))
               == [Line(d, kinds[0])] + Preview(w'.posts, d, kinds[1..], Room(w', c, d))
            && MeetsRetry(w.posts, d, kinds, Room(w, c, d)) == MeetsRetry(w'.posts, d, kinds[1..], Room(w', c, d))
  {
    var w' := CreateKind(w, c, d, kinds[0]).0;
    AllSentRest(d, kinds);
    SentIsCounted(w, c, d, kinds[0]);
    OnlyKindsMatter(w'.posts, w.posts, d, kinds[1..], Room(w', c, d));
  }

  lemma AppendIsAssociative<T>(a: seq<T>, b: seq<T>, e: seq<T>)
    ensures (a + b) + e == a + (b + e)
  {
  }

  lemma {:induction false} RunIsPreviewed(w: World, c: Config, d: Day, kinds: seq<Kind>)
    requires AllSent(d, kinds) && !MeetsRetry(w.posts, d, kinds, Room(w, c, d))
    ensures KeysAndTexts(Generate(w, c, d, kinds).0.calls) ==
            KeysAndTexts(w.calls) + Preview(w.posts, d, kinds, Room(w, c, d))
    decreases |kinds|
  {
    if kinds != [] {
      AllSentRest(d, kinds);
      if PassesOver(w, c, d, kinds[0]) {
        PassedOver(w, c, d, kinds);
        RunIsPreviewed(w, c, d, kinds[1..]);
      } else {
        ShownFirst(w, c, d, kinds);
        SentIsCalled(w, c, d, kinds[0]);
        var w' := CreateKind(w, c, d, kinds[0]).0;
        RunIsPreviewed(w', c, d, kinds[1..]);
        AppendIsAssociative(KeysAndTexts(w.calls), [Line(d, kinds[0])],
                            Preview(w'.posts, d, kinds[1..], Room(w', c, d)));
      }
    }
  }

  lemma {:induction false} PreviewShowsNewOnly(posts: map<Key, Post>, d: Day, kinds: seq<Kind>, room: int)
    ensures forall p :: p in Preview(posts, d, kinds, room) ==> p.0 !in posts
  {
    if kinds != [] && room > 0 {
      PreviewShowsNewOnly(posts, d, kinds[1..], room);
      PreviewShowsNewOnly(posts, d, kinds[1..], room - 1);
    }
  }

  lemma {:induction false} GenerateAppends(w: World, c: Config, d: Day, kinds: seq<Kind>)
    ensures w.calls <= Generate(w, c, d, kinds).0.calls
    decreases |kinds|
  {
    if kinds != [] {
      GenerateAppends(CreateKind(w, c, d, kinds[0]).0, c, d, kinds[1..]);
    }
  }

  lemma {:induction false} KeyAt(calls: seq<Call>, i: nat)
    requires i < |calls|
    ensures |KeysAndTexts(calls)| == |calls| && KeysAndTexts(calls)[i].0 == calls[i].key
  {
    if i < |calls| - 1 {
      KeyAt(calls[..|calls| - 1], i);
    } else if i > 0 {
      KeyAt(calls[..i], i - 1);
    }
  }

  /** A retry that is met is sent: some new call is for a post that was stored before. */
  lemma {:induction false} RetryIsSent(w: World, c: Config, d: Day, kinds: seq<Kind>) returns (i: nat)
    requires AllSent(d, kinds) && MeetsRetry(w.posts, d, kinds, Room(w, c, d))
    ensures var calls := Generate(w, c, d, kinds).0.calls;
            && |w.calls| <= i < |calls| && calls[i].key in w.posts
            && calls[i].key.day == d.day && calls[i].key.kind in kinds
    decreases |kinds|
  {
    AllSentRest(d, kinds);
    var w' := CreateKind(w, c, d, kinds[0]).0;
    if PassesOver(w, c, d, kinds[0]) {
      PassedOver(w, c, d, kinds);
      i := RetryIsSent(w, c, d, kinds[1..]);
    } else if Key(d.day, kinds[0]) in w.posts {
      GenerateAppends(w', c, d, kinds[1..]);
      i := |w.calls|;
    } else {
      ShownFirst(w, c, d, kinds);
      SentIsCounted(w, c, d, kinds[0]);
      i := RetryIsSent(w', c, d, kinds[1..]);
    }
  }

  lemma InTail<T>(a: seq<T>, b: seq<T>, i: nat)
    requires |a| <= i < |a + b|
    ensures (a + b)[i] in b
  {
    assert (a + b)[i] == b[i - |a|];
  }

  lemma RetryIsNotPreviewed(w: World, c: Config, d: Day, kinds: seq<Kind>)
    requires AllSent(d, kinds) && MeetsRetry(w.posts, d, kinds, Room(w, c, d))
    ensures KeysAndTexts(Generate(w, c, d, kinds).0.calls) !=
            KeysAndTexts(w.calls) + Preview(w.posts, d, kinds, Room(w, c, d))
  {
    var calls, shown := Generate(w, c, d, kinds).0.calls, Preview(w.posts, d, kinds, Room(w, c, d));
    var i := RetryIsSent(w, c, d, kinds);
    KeyAt(calls, i);
    if |w.calls| > 0 {
      KeyAt(w.calls, 0);
    }
    PreviewShowsNewOnly(w.posts, d, kinds, Room(w, c, d));
    if i < |KeysAndTexts(w.calls) + shown| {
      InTail(KeysAndTexts(w.calls), shown, i);
    }
  }

  /**
   When the publisher refuses nothing, the run publishes exactly the previewed keys and texts
   in the previewed order, if and only if it meets no failed post that is due for a retry.
   */
  lemma PreviewPredictsRun(w: World, c: Config, d: Day)
    requires forall k :: k in PLANNED ==> d.publish(k).Sent?
    ensures KeysAndTexts(Generate(w, c, d, PLANNED).0.calls) ==
            KeysAndTexts(w.calls) + Preview(w.posts, d, PLANNED, Room(w, c, d))
            <==> !MeetsRetry(w.posts, d, PLANNED, Room(w, c, d))
  {
    if MeetsRetry(w.posts, d, PLANNED, Room(w, c, d)) {
      RetryIsNotPreviewed(w, c, d, PLANNED);
    } else {
      RunIsPreviewed(w, c, d, PLANNED);
    }
  }

  // ---------------------------------------------------------------- a retry that the preview misses

  const ONE_A_DAY := Config(1, 600)

  const OFFER := Key(0, TopOffer)

  /** A first attempt that Telegram asks to repeat ... */
  const REFUSED := Op(OFFER, 0, Some("offer"), "post-1", Refused(true))

  /** ... and the daily run at the end of the backoff. */
  const LATER := Day(0, 600, k => if k == TopOffer then Some("offer") else None, k => "post-2", k => Sent(AsPublished))

  /** In this reachable store the preview shows nothing, and the run publishes the offer. */
  lemma RetryIsMissed()
    ensures var w := Run(ONE_A_DAY, [REFUSED]);
            && MeetsRetry(w.posts, LATER, PLANNED, Room(w, ONE_A_DAY, LATER))
            && (forall p :: p in Preview(w.posts, LATER, PLANNED, Room(w, ONE_A_DAY, LATER)) ==> p.0 != OFFER)
            && (exists i :: 1 <= i < |Generate(w, ONE_A_DAY, LATER, PLANNED).0.calls|
                            && Generate(w, ONE_A_DAY, LATER, PLANNED).0.calls[i].key == OFFER)
  {
    var w := Run(ONE_A_DAY, [REFUSED]);
    RunMore(ONE_A_DAY, [], REFUSED);
    assert [] + [REFUSED] == [REFUSED];
    assert CountedKeys(EMPTY.posts, 0) == {};
    assert w == Step(EMPTY, ONE_A_DAY, REFUSED);
    assert w.posts.Keys == {OFFER} && w.posts[OFFER].status == Failed && w.posts[OFFER].nextAttempt == Some(600);
    assert CountedKeys(w.posts, 0) == {};
    assert PLANNED[0] == TopOffer && RetryDue(w.posts, LATER, TopOffer);
    PreviewShowsNewOnly(w.posts, LATER, PLANNED, Room(w, ONE_A_DAY, LATER));
    assert AllSent(LATER, PLANNED);
    var i := RetryIsSent(w, ONE_A_DAY, LATER, PLANNED);
  }
}

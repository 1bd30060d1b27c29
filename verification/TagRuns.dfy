/**
 Whole runs of the audience tag service: no reference points to a rejected tag, references
 follow the merges, an idempotency key is spent once, and usage grows by the matches.
 */
module TagRuns {
  import opened Options
  import opened Counting
  import opened PythonText
  import opened TagKeys
  import opened AudienceTags
  import opened AudienceTagService

  datatype Op = ResolveOp(value: string) | ResolveManyOp(values: seq<string>)
              | ApproveOp(request: Request) | MergeOp(request: Request) | RejectOp(request: Request)

  ghost function Step(x: Text, s: Store, op: Op): Store {
    match op
    case ResolveOp(value) => Resolve(x, s, value).0
    case ResolveManyOp(values) => ResolveMany(x, s, values).0
    case ApproveOp(q) => Approve(x, s, q).0
    case MergeOp(q) => Merge(x, s, q).0
    case RejectOp(q) => Reject(x, s, q).0
  }

  ghost function Run(x: Text, s: Store, ops: seq<Op>): Store {
    if ops == [] then s else Step(x, Run(x, s, ops[..|ops| - 1]), ops[|ops| - 1])
  }

  // ---------------------------------------------------------------- what each operation changes

  predicate IsRejected(s: Store, key: string) {
    key in s.tags && s.tags[key].status.Rejected?
  }

  /** References and audit as before, known tags with their status, new ones pending. */
  ghost predicate Resolves(s: Store, t: Store) {
    && t.refs == s.refs && t.events == s.events
    && (forall k :: k in s.tags ==> k in t.tags && t.tags[k].status == s.tags[k].status)
    && (forall k :: k in t.tags && k !in s.tags ==> t.tags[k].status.Pending?)
  }

  lemma ResolveKeyResolves(x: Text, s: Store, input: string, key: string)
    ensures Resolves(s, ResolveKey(x, s, input, key).0)
  {
  }

  lemma {:induction false} ResolveKeysResolves(x: Text, s: Store, keys: seq<string>)
    ensures Resolves(s, ResolveKeys(x, s, keys).0)
  {
    if keys != [] {
      var fewer, key := keys[..|keys| - 1], keys[|keys| - 1];
      ResolveKeysResolves(x, s, fewer);
      ResolveKeyResolves(x, ResolveKeys(x, s, fewer).0, key, key);
    }
  }

  /** What an administrator's first use of a key needs to change anything. */
  predicate Applies(x: Text, s: Store, q: Request) {
    var key := Normalize(x.fold, q.key);
    key.Some? && q.idem !in s.events && key.value in s.tags && Expected(q, s.tags[key.value])
  }

  predicate Merges(x: Text, s: Store, q: Request) {
    var target := Normalize(x.fold, q.target);
    Applies(x, s, q) && target.Some? && target != Normalize(x.fold, q.key) && IsApproved(s.tags, target.value)
  }

  lemma MergeChanges(x: Text, s: Store, q: Request)
    ensures var t := Merge(x, s, q).0;
            if Merges(x, s, q) then
              var source, target := Normalize(x.fold, q.key).value, Normalize(x.fold, q.target).value;
              && t.refs == Remap(s.refs, source, target) && t.tags.Keys == s.tags.Keys
              && IsRejected(t, source) && IsApproved(t.tags, target)
              && (forall k :: k in s.tags && k != source ==> t.tags[k].status == s.tags[k].status)
            else t.refs == s.refs && t.tags == s.tags
  {
  }

  lemma ApproveChanges(x: Text, s: Store, q: Request)
    ensures var t := Approve(x, s, q).0;
            && t.refs == s.refs && t.tags.Keys == s.tags.Keys
            && (forall k :: k in s.tags ==> (t.tags[k].status == s.tags[k].status
                                           || (t.tags[k].status.Approved? && Normalize(x.fold, q.key) == Some(k))))
            && (!Applies(x, s, q) ==> t.tags == s.tags)
  {
  }

  lemma RejectChanges(x: Text, s: Store, q: Request)
    ensures var t := Reject(x, s, q).0;
            && t.refs == s.refs && t.tags.Keys == s.tags.Keys
            && (if Applies(x, s, q) then
                  var key := Normalize(x.fold, q.key).value;
                  IsRejected(t, key) && forall k :: k in s.tags && k != key ==> t.tags[k] == s.tags[k]
                else t.tags == s.tags)
  {
  }

  // ---------------------------------------------------------------- results and errors

  /** The event that an idempotency key stands for after a request carried it. */
  function EventFor(s: Store, idem: string, event: AuditEvent): AuditEvent {
    if idem in s.events then s.events[idem] else event
  }

  predicate Refuses(q: Request, tag: Tag) {
    q.expected.Some? && q.expected.value != tag.status
  }

  /** An approval: which error, which event is spent, and the tag as it is returned and stored. */
  lemma ApproveResult(x: Text, s: Store, q: Request)
    ensures var (t, r) := Approve(x, s, q);
            var key := Normalize(x.fold, q.key);
            (r == Err(InvalidKey) <==> key == None) && (key == None ==> t == s)
            && (key.Some? ==>
                  var event := EventFor(s, q.idem, AuditEvent(ToApprove, key.value, None));
                  var first, k := q.idem !in s.events, event.key;
                  && t.events == s.events[q.idem := event] && r != Err(SelfMerge)
                  && (r == Err(MissingTag) <==> k !in s.tags)
                  && (r == Err(StateConflict) <==> first && k in s.tags && Refuses(q, s.tags[k]))
                  && (r.Err? || !first ==> t.tags == s.tags)
                  && (r.Ok? ==> k in t.tags && r.value == t.tags[k])
                  && (r.Ok? && first ==>
                        && t.tags[k].status == Approved
                        && t.tags[k].usage == s.tags[k].usage && t.tags[k].key == s.tags[k].key
                        && t.tags[k].name == (if q.name in {None, Some("")} then s.tags[k].name else q.name.value)
                        && forall o :: o in s.tags && o != k ==> t.tags[o] == s.tags[o]))
  {
  }

  lemma RejectResult(x: Text, s: Store, q: Request)
    ensures var (t, r) := Reject(x, s, q);
            var key := Normalize(x.fold, q.key);
            (r == Err(InvalidKey) <==> key == None) && (key == None ==> t == s)
            && (key.Some? ==>
                  var event := EventFor(s, q.idem, AuditEvent(ToReject, key.value, None));
                  var first, k := q.idem !in s.events, event.key;
                  && t.events == s.events[q.idem := event] && r != Err(SelfMerge)
                  && (r == Err(MissingTag) <==> k !in s.tags)
                  && (r == Err(StateConflict) <==> first && k in s.tags && Refuses(q, s.tags[k]))
                  && (r.Err? || !first ==> t.tags == s.tags)
                  && (r.Ok? ==> k in t.tags && r.value == t.tags[k])
                  && (r.Ok? && first ==>
                        && t.tags[k].status == Rejected && t.tags[k].usage == s.tags[k].usage
                        && t.tags[k].name == s.tags[k].name
                        && forall o :: o in s.tags && o != k ==> t.tags[o] == s.tags[o]))
  {
  }

  /** A merge also counts as one use of its target, which has to be approved. */
  lemma MergeResult(x: Text, s: Store, q: Request)
    ensures var (t, r) := Merge(x, s, q);
            var source, target := Normalize(x.fold, q.key), Normalize(x.fold, q.target);
            && (r == Err(InvalidKey) <==> source == None || target == None)
            && (r == Err(SelfMerge) <==> source.Some? && source == target)
            && (source == None || target == None || source == target ==> t == s)
            && (source.Some? && target.Some? && source != target ==>
                  var event := EventFor(s, q.idem, AuditEvent(ToMerge, source.value, target));
                  var first, k, o := q.idem !in s.events, event.key, target.value;
                  && t.events == s.events[q.idem := event]
                  && (r == Err(MissingTag) <==> k !in s.tags || o !in s.tags || s.tags[o].status != Approved)
                  && (r == Err(StateConflict) <==>
                        first && k in s.tags && o in s.tags && s.tags[o].status == Approved && Refuses(q, s.tags[k]))
                  && (r.Err? || !first ==> t.tags == s.tags && t.refs == s.refs)
                  && (r.Ok? ==> k in t.tags && r.value == t.tags[k]))
  {
  }

  lemma MergeWrites(x: Text, s: Store, q: Request)
    requires Merge(x, s, q).1.Ok? && q.idem !in s.events
    ensures var t := Merge(x, s, q).0;
            var k, o := Normalize(x.fold, q.key).value, Normalize(x.fold, q.target).value;
            && k in s.tags && o in s.tags && k != o && t.tags.Keys == s.tags.Keys
            && t.tags[k].status == Rejected && t.tags[k].usage == s.tags[k].usage && t.tags[k].name == s.tags[k].name
            && t.tags[o].status == Approved
            && t.tags[o].usage == s.tags[o].usage + 1 && t.tags[o].name == s.tags[o].name
            && (forall i :: i in s.tags && i != k && i != o ==> t.tags[i] == s.tags[i])
  {
  }

  /** Similar enough, and no other approved tag more similar, nor as similar and used more or of smaller key. */
  ghost predicate Closest(x: Text, s: Store, key: string, k: string) {
    && k in s.tags && s.tags[k].status == Approved && x.ratio(key, k) >= x.threshold
    && forall o :: o in s.tags && s.tags[o].status == Approved && o != k ==>
         || x.ratio(key, o) < x.ratio(key, k)
         || (x.ratio(key, o) == x.ratio(key, k)
             && (s.tags[o].usage < s.tags[k].usage || (s.tags[o].usage == s.tags[k].usage && Less(k, o))))
  }

  lemma ClosestIsBest(x: Text, s: Store, key: string, k: string)
    ensures Closest(x, s, key, k) <==> IsBest(x, s.tags, key, k)
  {
    if Closest(x, s, key, k) {
      forall o | IsApproved(s.tags, o) && o != k ensures Better(x, s.tags, key, k, o) {
        assert o in s.tags && s.tags[o].status == Approved;
      }
    }
    if IsBest(x, s.tags, key, k) {
      forall o | o in s.tags && s.tags[o].status == Approved && o != k ensures Better(x, s.tags, key, k, o) {
        assert IsApproved(s.tags, o);
      }
    }
  }

  /** A text is matched by the tag of its key unless rejected, else by the closest one, and only then counted. */
  lemma ResolveResult(x: Text, s: Store, input: string, key: string)
    ensures var (t, r) := ResolveKey(x, s, input, key);
            var own := key in s.tags && s.tags[key].status != Rejected;
            && r.input == input && t.refs == s.refs && t.events == s.events
            && (own ==> r.matched && r.key == key)
            && (r.matched ==>
                  && (own || Closest(x, s, key, r.key)) && !r.created
                  && r.key in s.tags && r.status == s.tags[r.key].status
                  && t.tags == s.tags[r.key := s.tags[r.key].(usage := s.tags[r.key].usage + 1)])
            && (r.created <==> !r.matched && key !in s.tags)
            && (r.created ==> t.tags == s.tags[key := Tag(key, x.title(key), Pending, 0)] && r.status == Pending)
            && (!r.matched && !r.created ==> t == s && r.status == Rejected)
            && (!r.matched ==> r.key == key && forall k :: !Closest(x, s, key, k))
  {
    forall k ensures Closest(x, s, key, k) <==> IsBest(x, s.tags, key, k) {
      ClosestIsBest(x, s, key, k);
    }
  }

  // ---------------------------------------------------------------- no reference to a rejected tag

  ghost predicate NoRejectedRefs(s: Store) {
    forall k :: IsRejected(s, k) ==> !Referenced(s.refs, k)
  }

  /** After a remap nothing refers to the source, and only the target gains references. */
  lemma RemapMovesReferences(r: Refs, source: string, target: string, k: string)
    requires source != target && Referenced(Remap(r, source, target), k)
    ensures k != source && (k == target || Referenced(r, k))
  {
    var r' := Remap(r, source, target);
    if i :| i in r'.announcements && k in r'.announcements[i] {
      assert k in Moved(r.announcements[i], source, target);
    } else if i :| i in r'.excluded && k in r'.excluded[i] {
      assert k in Moved(r.excluded[i], source, target);
    } else {
      var f :| f in r'.filters && r'.filters[f] == k;
      assert f in r.filters;
    }
  }

  lemma MergeKeepsNoRejectedRefs(x: Text, s: Store, q: Request)
    requires NoRejectedRefs(s)
    ensures NoRejectedRefs(Merge(x, s, q).0)
  {
    var t := Merge(x, s, q).0;
    MergeChanges(x, s, q);
    if Merges(x, s, q) {
      var source, target := Normalize(x.fold, q.key).value, Normalize(x.fold, q.target).value;
      forall k | IsRejected(t, k) ensures !Referenced(t.refs, k) {
        assert k != target && (k != source ==> IsRejected(s, k));
        if Referenced(t.refs, k) {
          RemapMovesReferences(s.refs, source, target, k);
        }
      }
    }
  }

  /** The one way to break the property: rejecting a tag that is still referenced. */
  ghost predicate RejectsReferenced(x: Text, s: Store, op: Op) {
    op.RejectOp? && Applies(x, s, op.request) && Referenced(s.refs, Normalize(x.fold, op.request.key).value)
  }

  lemma StepKeepsNoRejectedRefs(x: Text, s: Store, op: Op)
    requires NoRejectedRefs(s)
    ensures NoRejectedRefs(Step(x, s, op)) <==> !RejectsReferenced(x, s, op)
  {
    match op
    case ResolveOp(value) =>
      if Normalize(x.fold, value).Some? {
        ResolveKeyResolves(x, s, value, Normalize(x.fold, value).value);
      }
      assert Resolves(s, Step(x, s, op));
      assert forall k :: IsRejected(Step(x, s, op), k) ==> IsRejected(s, k);
    case ResolveManyOp(values) =>
      ResolveKeysResolves(x, s, FirstSeen(x, values[..ValidPrefix(x, values)]));
      assert Resolves(s, Step(x, s, op));
      assert forall k :: IsRejected(Step(x, s, op), k) ==> IsRejected(s, k);
    case ApproveOp(q) =>
      ApproveChanges(x, s, q);
      assert forall k :: IsRejected(Step(x, s, op), k) ==> IsRejected(s, k);
    case MergeOp(q) =>
      MergeKeepsNoRejectedRefs(x, s, q);
    case RejectOp(q) =>
      RejectChanges(x, s, q);
      var t := Step(x, s, op);
      if Applies(x, s, q) {
        var key := Normalize(x.fold, q.key).value;
        assert forall k :: k != key && IsRejected(t, k) ==> IsRejected(s, k);
        assert IsRejected(t, key);
      } else {
        assert forall k :: IsRejected(t, k) ==> IsRejected(s, k);
      }
  }

  /** Runs that never reject a referenced tag never leave a reference to a rejected one. */
  lemma {:induction false} NoReferenceToRejected(x: Text, s: Store, ops: seq<Op>)
    requires NoRejectedRefs(s)
    requires forall i :: 0 <= i < |ops| ==> !RejectsReferenced(x, Run(x, s, ops[..i]), ops[i])
    ensures NoRejectedRefs(Run(x, s, ops))
  {
    if ops != [] {
      var n := |ops| - 1;
      forall i | 0 <= i < n ensures !RejectsReferenced(x, Run(x, s, ops[..n][..i]), ops[..n][i]) {
        assert ops[..n][..i] == ops[..i];
      }
      NoReferenceToRejected(x, s, ops[..n]);
      StepKeepsNoRejectedRefs(x, Run(x, s, ops[..n]), ops[n]);
    }
  }

  /** A text whose characters are key characters folds to itself, and nothing is similar. */
  const PLAIN_TEXT := Text(s => s, s => s, (a, b) => 0.0, 1.0)

  /** An approved tag with one announcement that refers to it. */
  const ONE_FAMILY := Store(map["family" := Tag("family", "Oila", Approved, 0)], map[],
                            Refs(map["flat" := {"family"}], map[], map[]))

  const REJECT_FAMILY := RejectOp(Request("family", "", None, "request", Some(Approved)))

  /** Rejecting it leaves the announcement with a rejected tag. */
  lemma RejectedFamilyIsReferenced()
    ensures NoRejectedRefs(ONE_FAMILY) && RejectsReferenced(PLAIN_TEXT, ONE_FAMILY, REJECT_FAMILY)
    ensures !NoRejectedRefs(Step(PLAIN_TEXT, ONE_FAMILY, REJECT_FAMILY))
  {
    FamilyIsNormal();
    NormalStays(PLAIN_TEXT.fold, "family");
    assert "flat" in ONE_FAMILY.refs.announcements && "family" in ONE_FAMILY.refs.announcements["flat"];
    StepKeepsNoRejectedRefs(PLAIN_TEXT, ONE_FAMILY, REJECT_FAMILY);
  }

  // ---------------------------------------------------------------- references follow the merges

  /** The merges of a run that took effect, in order, as source and target. */
  ghost function MergesOf(x: Text, s: Store, ops: seq<Op>): seq<(string, string)> {
    if ops == [] then []
    else
      var n := |ops| - 1;
      var earlier, op := MergesOf(x, s, ops[..n]), ops[n];
      if op.MergeOp? && Merges(x, Run(x, s, ops[..n]), op.request)
      then earlier + [(Normalize(x.fold, op.request.key).value, Normalize(x.fold, op.request.target).value)]
      else earlier
  }

  /** One reference taken through merges. */
  function Follow(key: string, merges: seq<(string, string)>): string {
    if merges == [] then key
    else
      var k, last := Follow(key, merges[..|merges| - 1]), merges[|merges| - 1];
      if k == last.0 then last.1 else k
  }

  function FollowAll(keys: set<string>, merges: seq<(string, string)>): set<string> {
    set k | k in keys :: Follow(k, merges)
  }

  ghost predicate Follows(r: Refs, r': Refs, merges: seq<(string, string)>) {
    && r' == Refs(map k | k in r.announcements :: FollowAll(r.announcements[k], merges),
                  map k | k in r.excluded :: FollowAll(r.excluded[k], merges),
                  map f | f in r.filters :: Follow(r.filters[f], merges))
  }

  lemma FollowMore(key: string, merges: seq<(string, string)>, m: (string, string))
    ensures Follow(key, merges + [m]) == if Follow(key, merges) == m.0 then m.1 else Follow(key, merges)
  {
    assert (merges + [m])[..|merges|] == merges;
  }

  lemma FollowAllMore(keys: set<string>, merges: seq<(string, string)>, m: (string, string))
    requires m.0 != m.1
    ensures FollowAll(keys, merges + [m]) == Moved(FollowAll(keys, merges), m.0, m.1)
  {
    var moved := Moved(FollowAll(keys, merges), m.0, m.1);
    forall k | k in keys ensures Follow(k, merges + [m]) in moved {
      FollowMore(k, merges, m);
      assert Follow(k, merges) in FollowAll(keys, merges);
    }
    forall t | t in moved ensures t in FollowAll(keys, merges + [m]) {
      var k :| k in keys && (Follow(k, merges) == t || (Follow(k, merges) == m.0 && t == m.1));
      FollowMore(k, merges, m);
    }
  }

  lemma FollowsMore(r: Refs, r': Refs, merges: seq<(string, string)>, m: (string, string))
    requires Follows(r, r', merges) && m.0 != m.1
    ensures Follows(r, Remap(r', m.0, m.1), merges + [m])
  {
    forall k | k in r.announcements
      ensures FollowAll(r.announcements[k], merges + [m]) == Moved(r'.announcements[k], m.0, m.1) {
      FollowAllMore(r.announcements[k], merges, m);
    }
    forall k | k in r.excluded ensures FollowAll(r.excluded[k], merges + [m]) == Moved(r'.excluded[k], m.0, m.1) {
      FollowAllMore(r.excluded[k], merges, m);
    }
    forall f | f in r.filters
      ensures Follow(r.filters[f], merges + [m]) == if r'.filters[f] == m.0 then m.1 else r'.filters[f] {
      FollowMore(r.filters[f], merges, m);
    }
  }

  lemma OnlyMergesMoveReferences(x: Text, s: Store, op: Op)
    requires !(op.MergeOp? && Merges(x, s, op.request))
    ensures Step(x, s, op).refs == s.refs
  {
    match op
    case ResolveOp(value) =>
    case ResolveManyOp(values) => ResolveKeysResolves(x, s, FirstSeen(x, values[..ValidPrefix(x, values)]));
    case ApproveOp(q) => ApproveChanges(x, s, q);
    case MergeOp(q) => MergeChanges(x, s, q);
    case RejectOp(q) => RejectChanges(x, s, q);
  }

  /** Final references are the initial ones, each taken through the merges in order. */
  lemma {:induction false} ReferencesFollowMerges(x: Text, s: Store, ops: seq<Op>)
    ensures Follows(s.refs, Run(x, s, ops).refs, MergesOf(x, s, ops))
  {
    if ops == [] {
      assert forall keys :: FollowAll(keys, []) == keys;
    } else {
      var n := |ops| - 1;
      var before, op := Run(x, s, ops[..n]), ops[n];
      ReferencesFollowMerges(x, s, ops[..n]);
      if op.MergeOp? && Merges(x, before, op.request) {
        MergeChanges(x, before, op.request);
        FollowsMore(s.refs, before.refs, MergesOf(x, s, ops[..n]),
                    (Normalize(x.fold, op.request.key).value, Normalize(x.fold, op.request.target).value));
      } else {
        OnlyMergesMoveReferences(x, before, op);
      }
    }
  }

  // ---------------------------------------------------------------- idempotency keys

  predicate ByAdmin(op: Op) { op.ApproveOp? || op.MergeOp? || op.RejectOp? }

  /** A spent key changes nothing at all; a request that changes anything spends its key. */
  lemma SpentKeyChangesNothing(x: Text, s: Store, op: Op)
    requires ByAdmin(op)
    ensures op.request.idem in s.events ==> Step(x, s, op) == s
    ensures Step(x, s, op) != s ==> op.request.idem in Step(x, s, op).events
  {
  }

  lemma EventsStay(x: Text, s: Store, op: Op, idem: string)
    requires idem in s.events
    ensures idem in Step(x, s, op).events
  {
    match op
    case ResolveOp(value) =>
    case ResolveManyOp(values) => ResolveKeysResolves(x, s, FirstSeen(x, values[..ValidPrefix(x, values)]));
    case ApproveOp(q) =>
    case MergeOp(q) => MergeRecords(x, s, q);
    case RejectOp(q) =>
  }

  lemma MergeRecords(x: Text, s: Store, q: Request)
    ensures var t := Merge(x, s, q).0;
            t.events == s.events || (q.idem !in s.events && t.events.Keys == s.events.Keys + {q.idem})
  {
  }

  lemma RunMore(x: Text, s: Store, ops: seq<Op>, i: nat)
    requires i < |ops|
    ensures Run(x, s, ops[..i + 1]) == Step(x, Run(x, s, ops[..i]), ops[i])
  {
    assert ops[..i + 1][..i] == ops[..i];
  }

  lemma EventsStayNext(x: Text, s: Store, ops: seq<Op>, i: nat, idem: string)
    requires i < |ops| && idem in Run(x, s, ops[..i]).events
    ensures idem in Run(x, s, ops[..i + 1]).events
  {
    RunMore(x, s, ops, i);
    EventsStay(x, Run(x, s, ops[..i]), ops[i], idem);
  }

  lemma {:induction false} EventsStayInRuns(x: Text, s: Store, ops: seq<Op>, i: nat, j: nat, idem: string)
    requires i <= j <= |ops| && idem in Run(x, s, ops[..i]).events
    ensures idem in Run(x, s, ops[..j]).events
    decreases j
  {
    if i < j {
      EventsStayInRuns(x, s, ops, i, j - 1, idem);
      EventsStayNext(x, s, ops, j - 1, idem);
    }
  }

  /** One idempotency key changes tags, references or audit at most once, whatever it is sent with. */
  lemma KeyActsOnce(x: Text, s: Store, ops: seq<Op>, i: nat, j: nat)
    requires i < j < |ops| && ByAdmin(ops[i]) && ByAdmin(ops[j])
    requires ops[i].request.idem == ops[j].request.idem
    ensures Run(x, s, ops[..i + 1]) == Run(x, s, ops[..i]) || Run(x, s, ops[..j + 1]) == Run(x, s, ops[..j])
  {
    RunMore(x, s, ops, i);
    RunMore(x, s, ops, j);
    SpentKeyChangesNothing(x, Run(x, s, ops[..i]), ops[i]);
    if ops[i].request.idem in Run(x, s, ops[..i + 1]).events {
      EventsStayInRuns(x, s, ops, i + 1, j, ops[i].request.idem);
      SpentKeyChangesNothing(x, Run(x, s, ops[..j]), ops[j]);
    }
  }

  // ---------------------------------------------------------------- resolving many

  /** First-seen keys: each once, all of them, and ordered by first occurrence. */
  lemma {:induction false} FirstSeenIsDistinct(x: Text, values: seq<string>)
    ensures var keys := FirstSeen(x, values);
            && (forall i, j :: 0 <= i < j < |keys| ==> keys[i] != keys[j])
            && (forall k :: k in keys <==> Occurs(x, values, k))
  {
    if values != [] {
      FirstSeenIsDistinct(x, values[..|values| - 1]);
      forall k ensures k in FirstSeen(x, values) <==> Occurs(x, values, k) {
        OccursMore(x, values, k);
      }
    }
  }

  ghost predicate Occurs(x: Text, values: seq<string>, key: string) {
    exists i :: 0 <= i < |values| && Normalize(x.fold, values[i]) == Some(key)
  }

  lemma OccursMore(x: Text, values: seq<string>, key: string)
    requires values != []
    ensures Occurs(x, values, key) <==>
            Occurs(x, values[..|values| - 1], key) || Normalize(x.fold, values[|values| - 1]) == Some(key)
  {
    var fewer := values[..|values| - 1];
    if i :| 0 <= i < |values| && Normalize(x.fold, values[i]) == Some(key) {
      assert i < |fewer| ==> fewer[i] == values[i];
    }
    if i :| 0 <= i < |fewer| && Normalize(x.fold, fewer[i]) == Some(key) {
      assert values[i] == fewer[i];
    }
  }

  /** Some prefix of the values holds the earlier key but not yet the later one. */
  lemma {:induction false} FirstSeenIsOrdered(x: Text, values: seq<string>, i: nat, j: nat)
    requires i < j < |FirstSeen(x, values)|
    ensures exists n :: 0 <= n <= |values| && FirstSeen(x, values)[i] in FirstSeen(x, values[..n])
                        && FirstSeen(x, values)[j] !in FirstSeen(x, values[..n])
  {
    var fewer := values[..|values| - 1];
    if j < |FirstSeen(x, fewer)| {
      FirstSeenIsOrdered(x, fewer, i, j);
      var n :| 0 <= n <= |fewer| && FirstSeen(x, fewer)[i] in FirstSeen(x, fewer[..n])
               && FirstSeen(x, fewer)[j] !in FirstSeen(x, fewer[..n]);
      assert fewer[..n] == values[..n];
    }
  }

  /** Each distinct key has one result, in first-seen order. */
  lemma {:induction false} OneResultPerKey(x: Text, s: Store, keys: seq<string>)
    ensures |ResolveKeys(x, s, keys).1| == |keys|
    ensures forall i :: 0 <= i < |keys| ==> ResolveKeys(x, s, keys).1[i].input == keys[i]
  {
    if keys != [] {
      OneResultPerKey(x, s, keys[..|keys| - 1]);
    }
  }

  function Usages(tags: map<string, Tag>): map<string, nat> {
    map k | k in tags :: tags[k].usage
  }

  ghost function TotalUsage(tags: map<string, Tag>): nat {
    MapSum(Usages(tags))
  }

  lemma UsageOfUpdate(tags: map<string, Tag>, key: string, tag: Tag)
    ensures TotalUsage(tags[key := tag]) == TotalUsage(tags) + tag.usage - if key in tags then tags[key].usage else 0
  {
    assert Usages(tags[key := tag]) == Usages(tags)[key := tag.usage];
    MapSumUpdate(Usages(tags), key, tag.usage);
  }

  function Matched(results: seq<Resolved>): nat {
    if results == [] then 0
    else Matched(results[..|results| - 1]) + if results[|results| - 1].matched then 1 else 0
  }

  lemma ResolvedStatus(x: Text, s: Store, input: string, key: string)
    ensures var (s', r) := ResolveKey(x, s, input, key); r.key in s'.tags && s'.tags[r.key].status == r.status
  {
  }

  lemma ResolveKeyUsage(x: Text, s: Store, input: string, key: string)
    ensures var (s', r) := ResolveKey(x, s, input, key);
            TotalUsage(s'.tags) == TotalUsage(s.tags) + if r.matched then 1 else 0
  {
    var (s', r) := ResolveKey(x, s, input, key);
    if s' != s {
      UsageOfUpdate(s.tags, r.key, s'.tags[r.key]);
    }
  }

  /** Usage grows by exactly the number of matched results, also when a later value is refused. */
  lemma {:induction false} UsageGrowsByMatches(x: Text, s: Store, keys: seq<string>)
    ensures var (s', results) := ResolveKeys(x, s, keys);
            TotalUsage(s'.tags) == TotalUsage(s.tags) + Matched(results)
  {
    if keys != [] {
      var fewer, key := keys[..|keys| - 1], keys[|keys| - 1];
      UsageGrowsByMatches(x, s, fewer);
      ResolveKeyUsage(x, ResolveKeys(x, s, fewer).0, key, key);
    }
  }

  lemma CanonicalMore(results: seq<Resolved>, r: Resolved)
    ensures var before := Canonical(results).0;
            Canonical(results + [r]).0 == if r.status.Approved? && r.key !in before then before + [r.key] else before
  {
    assert (results + [r])[..|results|] == results;
  }

  ghost predicate DistinctApproved(s: Store, keys: seq<string>) {
    && (forall k :: k in keys ==> IsApproved(s.tags, k))
    && (forall i, j :: 0 <= i < j < |keys| ==> keys[i] != keys[j])
  }

  lemma DistinctApprovedStays(s: Store, s': Store, keys: seq<string>, key: string)
    requires DistinctApproved(s, keys) && Resolves(s, s')
    ensures DistinctApproved(s', keys)
    ensures IsApproved(s'.tags, key) && key !in keys ==> DistinctApproved(s', keys + [key])
  {
  }

  /** Tags handed to a listing as approved are approved tags, each once. */
  lemma {:induction false} CanonicalTagsAreApproved(x: Text, s: Store, keys: seq<string>)
    ensures DistinctApproved(ResolveKeys(x, s, keys).0, Canonical(ResolveKeys(x, s, keys).1).0)
  {
    if keys != [] {
      var fewer, key := keys[..|keys| - 1], keys[|keys| - 1];
      var before := ResolveKeys(x, s, fewer);
      var (after, r) := ResolveKey(x, before.0, key, key);
      CanonicalTagsAreApproved(x, s, fewer);
      ResolveKeyResolves(x, before.0, key, key);
      ResolvedStatus(x, before.0, key, key);
      CanonicalMore(before.1, r);
      DistinctApprovedStays(before.0, after, Canonical(before.1).0, r.key);
    }
  }

  predicate Noted(r: Resolved, note: Assumption) {
    match note
    case MappedTag(input, key) => r.status == Approved && r.input == input && r.key == key && input != key
    case PendingTag(key) => r.status == Pending && r.key == key
    case RejectedTag(key) => r.status == Rejected && r.key == key
  }

  /** Approved keys are all kept, and every other outcome or replaced input is noted. */
  lemma {:induction false} CanonicalSays(results: seq<Resolved>, key: string, note: Assumption)
    ensures key in Canonical(results).0 <==> exists r :: r in results && r.status == Approved && r.key == key
    ensures note in Canonical(results).1 <==> exists r :: r in results && Noted(r, note)
  {
    if results != [] {
      var fewer, last := results[..|results| - 1], results[|results| - 1];
      CanonicalSays(fewer, key, note);
      assert results == fewer + [last];
      assert forall r :: r in results <==> r in fewer || r == last;
      assert note in Canonical(results).1 <==> note in Canonical(fewer).1 || Noted(last, note);
      assert key in Canonical(results).0 <==> key in Canonical(fewer).0 || (last.status == Approved && last.key == key);
    }
  }

  /** Resolving many is refused exactly when some value is no key; the results are those of the values before it. */
  lemma ResolveManyFails(x: Text, s: Store, values: seq<string>)
    ensures ResolveMany(x, s, values).1.Err? <==>
            exists i :: 0 <= i < |values| && Normalize(x.fold, values[i]) == None
    ensures ResolveMany(x, s, values).1.Ok? ==>
              ResolveMany(x, s, values).1.value == ResolveKeys(x, s, FirstSeen(x, values)).1
    ensures ResolveMany(x, s, values).1.Err? ==> ResolveMany(x, s, values).1.error == InvalidKey
  {
    PrefixIsValid(x, values);
    if ValidPrefix(x, values) == |values| {
      assert values[..|values|] == values;
    }
  }

  /** All values before the end of the valid prefix are keys, and the one at its end is none. */
  lemma {:induction false} PrefixIsValid(x: Text, values: seq<string>)
    ensures var n := ValidPrefix(x, values);
            && (forall i :: 0 <= i < n ==> Normalize(x.fold, values[i]).Some?)
            && (n < |values| ==> Normalize(x.fold, values[n]) == None)
  {
    if values != [] && Normalize(x.fold, values[0]).Some? {
      PrefixIsValid(x, values[1..]);
    }
  }
}

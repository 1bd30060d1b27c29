/**
 Audience tags: a vocabulary with usage counts, an audit record per idempotency key, and the
 references to tags held by announcements, exclusions and filters.

 `Store` and the functions on it say what each operation does; the two classes work in place.
 */
module AudienceTags {
  import opened Options
  import opened PythonText
  import opened TagKeys

  datatype Status = Approved | Pending | Rejected

  datatype Tag = Tag(key: string, name: string, status: Status, usage: nat)

  datatype Action = ToApprove | ToMerge | ToReject

  datatype AuditEvent = AuditEvent(action: Action, key: string, target: Option<string>)

  datatype Refs = Refs(
    announcements: map<string, set<string>>, excluded: map<string, set<string>>, filters: map<string, string>)

  datatype Store = Store(tags: map<string, Tag>, events: map<string, AuditEvent>, refs: Refs)

  datatype Error = InvalidKey | SelfMerge | MissingTag | StateConflict

  datatype Resolved = Resolved(input: string, key: string, status: Status, created: bool, matched: bool)

  /** Text functions from outside: case folding, display names, similarity, and its threshold. */
  datatype Text = Text(
    fold: string -> string, title: string -> string, ratio: (string, string) -> real, threshold: real)

  // ---------------------------------------------------------------- list order and fuzzy match

  /** Most used first, then by key. */
  predicate Ranked(tags: map<string, Tag>, a: string, b: string)
    requires a in tags && b in tags
  {
    tags[a].usage > tags[b].usage || (tags[a].usage == tags[b].usage && Less(a, b))
  }

  predicate IsApproved(tags: map<string, Tag>, k: string) {
    k in tags && tags[k].status.Approved?
  }

  ghost predicate Better(x: Text, tags: map<string, Tag>, key: string, a: string, b: string)
    requires a in tags && b in tags
  {
    x.ratio(key, a) > x.ratio(key, b) || (x.ratio(key, a) == x.ratio(key, b) && Ranked(tags, a, b))
  }

  /** The most similar approved tag; the more used, then the smaller key, wins a tie. */
  ghost predicate IsBest(x: Text, tags: map<string, Tag>, key: string, k: string) {
    && IsApproved(tags, k) && x.ratio(key, k) >= x.threshold
    && forall other :: IsApproved(tags, other) && other != k ==> Better(x, tags, key, k, other)
  }

  ghost function Fuzzy(x: Text, tags: map<string, Tag>, key: string): Option<string> {
    if k :| IsBest(x, tags, key, k) then Some(k) else None
  }

  lemma BestIsUnique(x: Text, tags: map<string, Tag>, key: string, k: string)
    requires IsBest(x, tags, key, k)
    ensures Fuzzy(x, tags, key) == Some(k)
  {
    var chosen := Fuzzy(x, tags, key).value;
    LessIsAsymmetric(k, chosen);
  }

  // ---------------------------------------------------------------- references

  function Moved(keys: set<string>, source: string, target: string): set<string> {
    if source in keys then keys - {source} + {target} else keys
  }

  function Remap(r: Refs, source: string, target: string): Refs {
    Refs(map k | k in r.announcements :: Moved(r.announcements[k], source, target),
         map k | k in r.excluded :: Moved(r.excluded[k], source, target),
         map f | f in r.filters :: if r.filters[f] == source then target else r.filters[f])
  }

  ghost predicate Referenced(r: Refs, key: string) {
    || (exists k :: k in r.announcements && key in r.announcements[k])
    || (exists k :: k in r.excluded && key in r.excluded[k])
    || (exists f :: f in r.filters && r.filters[f] == key)
  }

  // ---------------------------------------------------------------- specification

  function Bump(s: Store, key: string): Store
    requires key in s.tags
  {
    s.(tags := s.tags[key := s.tags[key].(usage := s.tags[key].usage + 1)])
  }

  function WithStatus(s: Store, key: string, status: Status, name: Option<string>): Store
    requires key in s.tags
  {
    var tag := s.tags[key];
    var name' := if name.Some? && name.value != "" then name.value else tag.name;
    s.(tags := s.tags[key := tag.(status := status, name := name')])
  }

  /** The event stored under the idempotency key, and whether it is new. */
  function AuditOnce(s: Store, idem: string, event: AuditEvent): (Store, AuditEvent, bool) {
    if idem in s.events then (s, s.events[idem], false) else (s.(events := s.events[idem := event]), event, true)
  }

  /** An existing tag that is not rejected, else the fuzzy match. */
  ghost function Match(x: Text, s: Store, key: string): Option<string> {
    if key in s.tags && !s.tags[key].status.Rejected? then Some(key) else Fuzzy(x, s.tags, key)
  }

  ghost function ResolveKey(x: Text, s: Store, input: string, key: string): (Store, Resolved) {
    var found := Match(x, s, key);
    if found.Some? && found.value in s.tags then
      (Bump(s, found.value), Resolved(input, found.value, s.tags[found.value].status, false, true))
    else if key in s.tags then (s, Resolved(input, key, s.tags[key].status, false, false))
    else (s.(tags := s.tags[key := Tag(key, x.title(key), Pending, 0)]), Resolved(input, key, Pending, true, false))
  }

  ghost function Resolve(x: Text, s: Store, value: string): (Store, Result<Resolved, Error>) {
    var key := Normalize(x.fold, value);
    if key.None? then (s, Err(InvalidKey))
    else
      var (s', r) := ResolveKey(x, s, value, key.value);
      (s', Ok(r))
  }

  ghost function ResolveKeys(x: Text, s: Store, keys: seq<string>): (Store, seq<Resolved>) {
    if keys == [] then (s, [])
    else
      var (s', results) := ResolveKeys(x, s, keys[..|keys| - 1]);
      var (s'', r) := ResolveKey(x, s', keys[|keys| - 1], keys[|keys| - 1]);
      (s'', results + [r])
  }

  /** The values before the first one that is no key. */
  function ValidPrefix(x: Text, values: seq<string>): (n: nat)
    ensures n <= |values|
  {
    if values == [] || Normalize(x.fold, values[0]).None? then 0 else 1 + ValidPrefix(x, values[1..])
  }

  /** Distinct normalised keys in first-seen order. */
  function FirstSeen(x: Text, values: seq<string>): seq<string> {
    if values == [] then []
    else
      var earlier, key := FirstSeen(x, values[..|values| - 1]), Normalize(x.fold, values[|values| - 1]);
      if key.None? || key.value in earlier then earlier else earlier + [key.value]
  }

  /** An administrator's request. */
  datatype Request = Request(key: string, target: string, name: Option<string>, idem: string, expected: Option<Status>)

  predicate Expected(q: Request, tag: Tag) {
    q.expected.Some? ==> tag.status == q.expected.value
  }

  function Approve(x: Text, s: Store, q: Request): (Store, Result<Tag, Error>) {
    var key := Normalize(x.fold, q.key);
    if key.None? then (s, Err(InvalidKey))
    else
      var (s1, event, created) := AuditOnce(s, q.idem, AuditEvent(ToApprove, key.value, None));
      if event.key !in s1.tags then (s1, Err(MissingTag))
      else if !created then (s1, Ok(s1.tags[event.key]))
      else if !Expected(q, s1.tags[event.key]) then (s1, Err(StateConflict))
      else
        var s2 := WithStatus(s1, event.key, Approved, q.name);
        (s2, Ok(s2.tags[event.key]))
  }

  function Reject(x: Text, s: Store, q: Request): (Store, Result<Tag, Error>) {
    var key := Normalize(x.fold, q.key);
    if key.None? then (s, Err(InvalidKey))
    else
      var (s1, event, created) := AuditOnce(s, q.idem, AuditEvent(ToReject, key.value, None));
      if event.key !in s1.tags then (s1, Err(MissingTag))
      else if !created then (s1, Ok(s1.tags[event.key]))
      else if !Expected(q, s1.tags[event.key]) then (s1, Err(StateConflict))
      else
        var s2 := WithStatus(s1, event.key, Rejected, None);
        (s2, Ok(s2.tags[event.key]))
  }

  function Merge(x: Text, s: Store, q: Request): (Store, Result<Tag, Error>) {
    var source, target := Normalize(x.fold, q.key), Normalize(x.fold, q.target);
    if source.None? || target.None? then (s, Err(InvalidKey))
    else if source == target then (s, Err(SelfMerge))
    else
      var (s1, event, created) := AuditOnce(s, q.idem, AuditEvent(ToMerge, source.value, target));
      if event.key !in s1.tags || !IsApproved(s1.tags, target.value) then (s1, Err(MissingTag))
      else if !created then (s1, Ok(s1.tags[event.key]))
      else if !Expected(q, s1.tags[event.key]) then (s1, Err(StateConflict))
      else
        var s2 := s1.(refs := Remap(s1.refs, event.key, target.value));
        var s3 := WithStatus(Bump(s2, target.value), event.key, Rejected, None);
        (s3, Ok(s3.tags[event.key]))
  }

  // ---------------------------------------------------------------- the repository

  class InMemoryAudienceTagRepository {
    var tags: map<string, Tag>
    var auditEvents: map<string, AuditEvent>
    var announcementRefs: map<string, set<string>>
    var excludedRefs: map<string, set<string>>
    var filterRefs: map<string, string>

    /** The seed tags, all approved and unused. */
    constructor (seeds: map<string, string>)
      ensures Contents() == Store(map k | k in seeds :: Tag(k, seeds[k], Approved, 0), map[], Refs(map[], map[], map[]))
    {
      tags := map k | k in seeds :: Tag(k, seeds[k], Approved, 0);
      auditEvents, announcementRefs, excludedRefs, filterRefs := map[], map[], map[], map[];
    }

    function Contents(): Store
      reads this
    {
      Store(tags, auditEvents, Refs(announcementRefs, excludedRefs, filterRefs))
    }

    /** Approved keys, most used first, then by key. */
    method ListApproved() returns (keys: seq<string>)
      ensures forall k :: k in keys <==> IsApproved(tags, k)
      ensures Sorted(tags, keys)
    {
      keys := [];
      var remaining := tags.Keys;
      while remaining != {}
        invariant remaining <= tags.Keys
        invariant forall k :: k in keys <==> IsApproved(tags, k) && k !in remaining
        invariant Sorted(tags, keys)
      {
        var k :| k in remaining;
        remaining := remaining - {k};
        if tags[k].status.Approved? {
          InsertedIsSorted(tags, keys, k);
          keys := Inserted(tags, keys, k);
        }
      }
    }

    method UpsertPending(key: string, name: string) returns (tag: Tag, created: bool)
      modifies this`tags
      ensures created <==> key !in old(tags)
      ensures tags == if created then old(tags)[key := Tag(key, name, Pending, 0)] else old(tags)
      ensures key in tags && tag == tags[key]
    {
      if key in tags {
        return tags[key], false;
      }
      tag := Tag(key, name, Pending, 0);
      tags := tags[key := tag];
      created := true;
    }

    method IncrementUsage(key: string) returns (tag: Tag)
      requires key in tags
      modifies this`tags
      ensures Contents() == Bump(old(Contents()), key) && tag == tags[key]
    {
      tag := tags[key].(usage := tags[key].usage + 1);
      tags := tags[key := tag];
    }

    method SetStatus(key: string, status: Status, name: Option<string>) returns (tag: Tag)
      requires key in tags
      modifies this`tags
      ensures Contents() == WithStatus(old(Contents()), key, status, name) && tag == tags[key]
    {
      tag := tags[key].(status := status);
      if name.Some? && name.value != "" {
        tag := tag.(name := name.value);
      }
      tags := tags[key := tag];
    }

    method RecordOnce(idem: string, event: AuditEvent) returns (stored: AuditEvent, created: bool)
      modifies this`auditEvents
      ensures (Contents(), stored, created) == AuditOnce(old(Contents()), idem, event)
    {
      if idem in auditEvents {
        return auditEvents[idem], false;
      }
      auditEvents := auditEvents[idem := event];
      return event, true;
    }

    method RemapReferences(source: string, target: string) returns (announcements: nat, filters: nat)
      modifies this`announcementRefs, this`excludedRefs, this`filterRefs
      ensures Contents() == old(Contents()).(refs := Remap(old(Contents().refs), source, target))
      ensures announcements == |Holding(old(announcementRefs), source)| + |Holding(old(excludedRefs), source)|
      ensures filters == |Pointing(old(filterRefs), source)|
    {
      var a, b;
      announcementRefs, a := RemapSets(announcementRefs, source, target);
      excludedRefs, b := RemapSets(excludedRefs, source, target);
      announcements := a + b;
      filterRefs, filters := RemapFilters(filterRefs, source, target);
    }
  }

  ghost predicate Sorted(tags: map<string, Tag>, keys: seq<string>) {
    && (forall k :: k in keys ==> k in tags)
    && (forall i, j :: 0 <= i < j < |keys| ==> Ranked(tags, keys[i], keys[j]))
  }

  function Inserted(tags: map<string, Tag>, keys: seq<string>, k: string): seq<string>
    requires k in tags && forall x :: x in keys ==> x in tags
  {
    if keys == [] || Ranked(tags, k, keys[0]) then [k] + keys
    else
      assert forall x :: x in keys[1..] ==> x in keys;
      [keys[0]] + Inserted(tags, keys[1..], k)
  }

  lemma RankedIsOrder(tags: map<string, Tag>, a: string, b: string, c: string)
    requires a in tags && b in tags && c in tags
    ensures Ranked(tags, a, b) && Ranked(tags, b, c) ==> Ranked(tags, a, c)
    ensures a == b || Ranked(tags, a, b) || Ranked(tags, b, a)
  {
    LessIsTotal(a, b);
    if Less(a, b) && Less(b, c) {
      LessIsTransitive(a, b, c);
    }
  }

  lemma {:induction false} InsertedIsSorted(tags: map<string, Tag>, keys: seq<string>, k: string)
    requires Sorted(tags, keys) && k in tags && k !in keys
    ensures Sorted(tags, Inserted(tags, keys, k))
    ensures forall x :: x in Inserted(tags, keys, k) <==> x in keys || x == k
  {
    if keys == [] {
    } else if Ranked(tags, k, keys[0]) {
      forall j | 0 <= j < |keys| ensures Ranked(tags, k, keys[j]) {
        RankedIsOrder(tags, k, keys[0], keys[j]);
      }
    } else {
      RankedIsOrder(tags, keys[0], k, k);
      InsertedIsSorted(tags, keys[1..], k);
      var rest := Inserted(tags, keys[1..], k);
      forall x | x in rest ensures Ranked(tags, keys[0], x) {
        if x != k {
          var j :| 0 <= j < |keys| - 1 && keys[1..][j] == x;
          assert keys[j + 1] == x;
        }
      }
      assert keys == [keys[0]] + keys[1..];
    }
  }

  function Holding(refs: map<string, set<string>>, source: string): set<string> {
    set k | k in refs && source in refs[k]
  }

  lemma OneMore(within: set<string>, done: set<string>, k: string)
    requires k !in done
    ensures |within * (done + {k})| == |within * done| + if k in within then 1 else 0
  {
    assert within * (done + {k}) == if k in within then within * done + {k} else within * done;
  }

  /** The sets of the entries in `done` have their source replaced. */
  ghost predicate SetsMoved(refs: map<string, set<string>>, now: map<string, set<string>>, done: set<string>,
                            source: string, target: string) {
    && now.Keys == refs.Keys
    && forall k :: k in refs ==> now[k] == if k in done then Moved(refs[k], source, target) else refs[k]
  }

  lemma OneMoreSet(refs: map<string, set<string>>, now: map<string, set<string>>, done: set<string>, source: string,
                   target: string, k: string)
    requires SetsMoved(refs, now, done, source, target) && k in refs && k !in done
    ensures var now' := if source in now[k] then now[k := now[k] - {source} + {target}] else now;
            SetsMoved(refs, now', done + {k}, source, target)
  {
  }

  method RemapSets(refs: map<string, set<string>>, source: string, target: string)
    returns (refs': map<string, set<string>>, updated: nat)
    ensures refs' == map k | k in refs :: Moved(refs[k], source, target)
    ensures updated == |Holding(refs, source)|
  {
    refs', updated := refs, 0;
    var done := {};
    while done != refs.Keys
      invariant done <= refs.Keys && SetsMoved(refs, refs', done, source, target)
      invariant updated == |Holding(refs, source) * done|
      decreases |refs.Keys - done|
    {
      var key := OneOf(refs.Keys, done);
      OneMore(Holding(refs, source), done, key);
      OneMoreSet(refs, refs', done, source, target, key);
      if source in refs'[key] {
        refs' := refs'[key := refs'[key] - {source} + {target}];
        updated := updated + 1;
      }
      done := done + {key};
    }
    assert Holding(refs, source) * done == Holding(refs, source);
  }

  method OneOf(keys: set<string>, done: set<string>) returns (k: string)
    requires done < keys
    ensures k in keys && k !in done && |keys - (done + {k})| < |keys - done|
  {
    assert keys - done != {};
    k :| k in keys - done;
    assert keys - (done + {k}) == keys - done - {k};
  }

  ghost predicate FiltersMoved(refs: map<string, string>, now: map<string, string>, done: set<string>,
                               source: string, target: string) {
    && now.Keys == refs.Keys
    && forall f :: f in refs ==> now[f] == if f in done && refs[f] == source then target else refs[f]
  }

  lemma OneMoreFilter(refs: map<string, string>, now: map<string, string>, done: set<string>, source: string,
                      target: string, f: string)
    requires FiltersMoved(refs, now, done, source, target) && f in refs && f !in done
    ensures FiltersMoved(refs, if refs[f] == source then now[f := target] else now, done + {f}, source, target)
  {
  }

  function Pointing(refs: map<string, string>, source: string): set<string> {
    set f | f in refs && refs[f] == source
  }

  /** Who is counted by a remap: entries whose set has the source, filters that are on it. */
  lemma RemappedMeans(sets: map<string, set<string>>, filters: map<string, string>, source: string, k: string)
    ensures k in Holding(sets, source) <==> k in sets && source in sets[k]
    ensures k in Pointing(filters, source) <==> k in filters && filters[k] == source
  {
  }

  method RemapFilters(refs: map<string, string>, source: string, target: string)
    returns (refs': map<string, string>, updated: nat)
    ensures refs' == map f | f in refs :: if refs[f] == source then target else refs[f]
    ensures updated == |Pointing(refs, source)|
  {
    refs', updated := refs, 0;
    var done := {};
    while done != refs.Keys
      invariant done <= refs.Keys && FiltersMoved(refs, refs', done, source, target)
      invariant updated == |Pointing(refs, source) * done|
      decreases |refs.Keys - done|
    {
      var f := OneOf(refs.Keys, done);
      OneMore(Pointing(refs, source), done, f);
      OneMoreFilter(refs, refs', done, source, target, f);
      if refs[f] == source {
        refs' := refs'[f := target];
        updated := updated + 1;
      }
      done := done + {f};
    }
    assert Pointing(refs, source) * done == Pointing(refs, source);
  }
}

/** The audience tag service: resolving texts to tags, and the administrators' decisions. */
module AudienceTagService {
  import opened Options
  import opened TagKeys
  import opened AudienceTags

  datatype Assumption = MappedTag(input: string, key: string) | PendingTag(key: string) | RejectedTag(key: string)

  /** Distinct approved keys in order, and a note on every other outcome. */
  function Canonical(results: seq<Resolved>): (seq<string>, seq<Assumption>) {
    if results == [] then ([], [])
    else
      var (approved, notes) := Canonical(results[..|results| - 1]);
      var r := results[|results| - 1];
      match r.status
      case Approved => (if r.key in approved then approved else approved + [r.key],
                        if r.input != r.key then notes + [MappedTag(r.input, r.key)] else notes)
      case Pending => (approved, notes + [PendingTag(r.key)])
      case Rejected => (approved, notes + [RejectedTag(r.key)])
  }

  class AudienceTagService {
    const repository: InMemoryAudienceTagRepository
    const text: Text

    constructor (repository: InMemoryAudienceTagRepository, text: Text)
      ensures this.repository == repository && this.text == text
    {
      this.repository, this.text := repository, text;
    }

    method FuzzyMatch(key: string) returns (found: Option<string>)
      ensures found == Fuzzy(text, repository.tags, key)
    {
      var approved := repository.ListApproved();
      ghost var tags := repository.tags;
      var best: nat := 0;
      for i := 0 to |approved|
        invariant i == 0 ==> best == 0
        invariant i > 0 ==> best < i
        invariant forall j :: 0 <= j < i && j != best ==> Better(text, tags, key, approved[best], approved[j])
      {
        if text.ratio(key, approved[i]) > text.ratio(key, approved[best]) {
          best := i;
        }
      }
      if approved != [] && text.ratio(key, approved[best]) >= text.threshold {
        assert IsBest(text, tags, key, approved[best]);
        BestIsUnique(text, tags, key, approved[best]);
        return Some(approved[best]);
      }
      return None;
    }

    method ResolveTag(value: string) returns (r: Result<Resolved, Error>)
      modifies repository
      ensures (repository.Contents(), r) == Resolve(text, old(repository.Contents()), value)
    {
      var normalized := Normalize(text.fold, value);
      if normalized.None? {
        return Err(InvalidKey);
      }
      var key := normalized.value;
      if key in repository.tags && !repository.tags[key].status.Rejected? {
        var status := repository.tags[key].status;
        var _ := repository.IncrementUsage(key);
        return Ok(Resolved(value, key, status, false, true));
      }
      var fuzzy := FuzzyMatch(key);
      if fuzzy.Some? {
        var status := repository.tags[fuzzy.value].status;
        var _ := repository.IncrementUsage(fuzzy.value);
        return Ok(Resolved(value, fuzzy.value, status, false, true));
      }
      var tag, created := repository.UpsertPending(key, text.title(key));
      r := Ok(Resolved(value, key, tag.status, created, false));
    }

    /** One result per distinct key; the first value that is no key stops the call. */
    method ResolveTags(values: seq<string>) returns (r: Result<seq<Resolved>, Error>)
      requires Folds(text.fold)
      modifies repository
      ensures (repository.Contents(), r) == ResolveMany(text, old(repository.Contents()), values)
    {
      var results: seq<Resolved> := [];
      var seen: set<string> := {};
      ghost var before, keys := repository.Contents(), [];
      for i := 0 to |values|
        invariant i <= ValidPrefix(text, values)
        invariant keys == FirstSeen(text, values[..i])
        invariant forall k :: k in seen <==> k in keys
        invariant (repository.Contents(), results) == ResolveKeys(text, before, keys)
      {
        PrefixGoesOn(text, values, i);
        var key := Normalize(text.fold, values[i]);
        if key.None? {
          return Err(InvalidKey);
        }
        NextSeen(text, values, i, key.value);
        if key.value !in seen {
          seen := seen + {key.value};
          NormalizeIsIdempotent(text.fold, values[i]);
          ResolveKeysMore(text, before, keys, key.value);
          keys := keys + [key.value];
          var result := ResolveTag(key.value);
          results := results + [result.value];
        }
      }
      assert values[..|values|] == values;
      r := Ok(results);
    }

    method ResolveForCanonical(values: seq<string>) returns (r: Result<(seq<string>, seq<Assumption>), Error>)
      requires Folds(text.fold)
      modifies repository
      ensures var (store, results) := ResolveMany(text, old(repository.Contents()), values);
              && repository.Contents() == store
              && r == if results.Err? then Err(results.error) else Ok(Canonical(results.value))
    {
      var results := ResolveTags(values);
      if results.Err? {
        return Err(results.error);
      }
      var approved: seq<string>, notes: seq<Assumption> := [], [];
      for i := 0 to |results.value|
        invariant (approved, notes) == Canonical(results.value[..i])
      {
        assert results.value[..i + 1][..i] == results.value[..i];
        var result := results.value[i];
        match result.status {
          case Approved =>
            if result.key !in approved {
              approved := approved + [result.key];
            }
            if result.input != result.key {
              notes := notes + [MappedTag(result.input, result.key)];
            }
          case Pending => notes := notes + [PendingTag(result.key)];
          case Rejected => notes := notes + [RejectedTag(result.key)];
        }
      }
      assert results.value[..|results.value|] == results.value;
      r := Ok((approved, notes));
    }

    method Approve(q: Request) returns (r: Result<Tag, Error>)
      modifies repository
      ensures (repository.Contents(), r) == AudienceTags.Approve(text, old(repository.Contents()), q)
    {
      var key := Normalize(text.fold, q.key);
      if key.None? {
        return Err(InvalidKey);
      }
      var event, created := repository.RecordOnce(q.idem, AuditEvent(ToApprove, key.value, None));
      var tag := Lookup(repository.tags, event.key);
      if tag.None? {
        return Err(MissingTag);
      }
      if !created {
        return Ok(tag.value);
      }
      if q.expected.Some? && tag.value.status != q.expected.value {
        return Err(StateConflict);
      }
      var updated := repository.SetStatus(event.key, Approved, q.name);
      r := Ok(updated);
    }

    method Reject(q: Request) returns (r: Result<Tag, Error>)
      modifies repository
      ensures (repository.Contents(), r) == AudienceTags.Reject(text, old(repository.Contents()), q)
    {
      var key := Normalize(text.fold, q.key);
      if key.None? {
        return Err(InvalidKey);
      }
      var event, created := repository.RecordOnce(q.idem, AuditEvent(ToReject, key.value, None));
      var tag := Lookup(repository.tags, event.key);
      if tag.None? {
        return Err(MissingTag);
      }
      if !created {
        return Ok(tag.value);
      }
      if q.expected.Some? && tag.value.status != q.expected.value {
        return Err(StateConflict);
      }
      var updated := repository.SetStatus(event.key, Rejected, None);
      r := Ok(updated);
    }

    method Merge(q: Request) returns (r: Result<Tag, Error>)
      modifies repository
      ensures (repository.Contents(), r) == AudienceTags.Merge(text, old(repository.Contents()), q)
    {
      var sourceKey, targetKey := Normalize(text.fold, q.key), Normalize(text.fold, q.target);
      if sourceKey.None? || targetKey.None? {
        return Err(InvalidKey);
      }
      if sourceKey.value == targetKey.value {
        return Err(SelfMerge);
      }
      var event, created := repository.RecordOnce(q.idem, AuditEvent(ToMerge, sourceKey.value, targetKey));
      var source, target := Lookup(repository.tags, event.key), Lookup(repository.tags, targetKey.value);
      if source.None? || target.None? || !target.value.status.Approved? {
        return Err(MissingTag);
      }
      if !created {
        return Ok(source.value);
      }
      if q.expected.Some? && source.value.status != q.expected.value {
        return Err(StateConflict);
      }
      var _, _ := repository.RemapReferences(event.key, targetKey.value);
      var _ := repository.IncrementUsage(targetKey.value);
      var updated := repository.SetStatus(event.key, Rejected, None);
      r := Ok(updated);
    }
  }

  lemma NextSeen(x: Text, values: seq<string>, i: nat, key: string)
    requires i < |values| && Normalize(x.fold, values[i]) == Some(key)
    ensures FirstSeen(x, values[..i + 1]) ==
            if key in FirstSeen(x, values[..i]) then FirstSeen(x, values[..i]) else FirstSeen(x, values[..i]) + [key]
  {
    assert values[..i + 1][..i] == values[..i];
  }

  lemma ResolveKeysMore(x: Text, s: Store, keys: seq<string>, key: string)
    ensures var (s', results) := ResolveKeys(x, s, keys);
            var (s'', r) := ResolveKey(x, s', key, key);
            ResolveKeys(x, s, keys + [key]) == (s'', results + [r])
  {
    assert (keys + [key])[..|keys|] == keys;
  }

  ghost function ResolveMany(x: Text, s: Store, values: seq<string>): (Store, Result<seq<Resolved>, Error>) {
    var n := ValidPrefix(x, values);
    var (s', results) := ResolveKeys(x, s, FirstSeen(x, values[..n]));
    (s', if n == |values| then Ok(results) else Err(InvalidKey))
  }

  /** The valid prefix goes on exactly while values are keys. */
  lemma {:induction false} PrefixGoesOn(x: Text, values: seq<string>, i: nat)
    requires i <= ValidPrefix(x, values)
    ensures i < ValidPrefix(x, values) <==> i < |values| && Normalize(x.fold, values[i]).Some?
  {
    if i > 0 {
      PrefixGoesOn(x, values[1..], i - 1);
    }
  }
}

/**
 The model fallback client: models are tried in order until a response is accepted, an
 error forbids going on, or the list ends; then the best usable response is taken.

 The loop is the same for every way of judging responses, so it is stated over an
 arbitrary `decide`; the client uses `LlmDecisions.Judge(request)`.
 */
module LlmClient {
  import opened Options
  import opened LlmDecisions

  /** What the transport does when a model is called. */
  datatype Outcome =
    | Reply(response: Response)
    | TransportError(retryable: bool)
    | Malformed
    | OtherLlmError
    | Foreign(error: ForeignError)

  /** An error that is none of the client's own, by how a caller's handlers tell it apart. */
  datatype ForeignError = RuntimeFailure | OtherFailure

  datatype Selection = ResponseAccepted | BestValidReturned

  datatype Attempt = Attempt(
    model: string, stage: nat, status: Status, reason: Reason, selection: Option<Selection>, trigger: Option<Reason>)

  datatype Completion =
    | Returned(response: Response, attempts: seq<Attempt>)
    | AllFailed(attempts: seq<Attempt>)
    | Propagated(stage: nat, error: ForeignError)

  predicate Less(a: Rank, b: Rank) {
    || a.complete < b.complete
    || (a.complete == b.complete &&
        (|| a.present < b.present
         || (a.present == b.present &&
             (|| a.rental < b.rental
              || (a.rental == b.rental &&
                  (|| a.signals < b.signals
                   || (a.signals == b.signals && a.confidence < b.confidence)))))))
  }

  // ---------------------------------------------------------------- meaning of one call

  /** An outcome together with what the client makes of it. */
  datatype Step =
    | Answered(response: Response, decision: Decision)
    | Error(goesOn: bool, cause: Reason)
    | Stopped(error: ForeignError)

  function StepOf(decide: Response -> Decision, o: Outcome): Step {
    match o
    case Reply(response) => Answered(response, decide(response))
    case TransportError(retryable) => Error(retryable, if retryable then RetryableTransport else PermanentTransport)
    case Malformed => Error(true, MalformedResponse)
    case OtherLlmError => Error(true, ModelError)
    case Foreign(error) => Stopped(error)
  }

  /** What calling every model would bring. */
  function Steps(decide: Response -> Decision, outcomes: seq<Outcome>): seq<Step> {
    seq(|outcomes|, i requires 0 <= i < |outcomes| => StepOf(decide, outcomes[i]))
  }

  predicate Accepted(s: Step) { s.Answered? && !s.decision.retry }

  predicate Usable(s: Step) { s.Answered? && s.decision.returnable }

  /** Whether the client goes on to the next model. */
  predicate GoesOn(s: Step) {
    match s
    case Answered(_, decision) => decision.retry
    case Error(goesOn, _) => goesOn
    case Stopped(_) => false
  }

  function ReasonOf(s: Step): Reason
    requires !s.Stopped?
  {
    if s.Answered? then s.decision.reason else s.cause
  }

  function StatusOf(s: Step): Status {
    if s.Answered? then s.decision.status else Failed
  }

  /** What the audit entry of stage `i` says; from the second on, why the stage was tried. */
  ghost predicate AuditAt(models: seq<string>, steps: seq<Step>, a: Attempt, i: nat) {
    && i < |models| == |steps|
    && !steps[i].Stopped?
    && a.model == models[i] && a.stage == i
    && a.status == StatusOf(steps[i]) && a.reason == ReasonOf(steps[i])
    && (if i == 0 then a.trigger == None
        else !steps[i - 1].Stopped? && a.trigger == Some(ReasonOf(steps[i - 1])))
  }

  /** The audit trail: stages in order, each entry for its own model. */
  ghost predicate Audits(models: seq<string>, steps: seq<Step>, attempts: seq<Attempt>) {
    && |attempts| <= |models| == |steps|
    && forall i :: 0 <= i < |attempts| ==> AuditAt(models, steps, attempts[i], i)
  }

  /** Each stage after the first is triggered by the decision of the stage before. */
  lemma TriggerIsPreviousReason(models: seq<string>, steps: seq<Step>, attempts: seq<Attempt>, i: nat)
    requires Audits(models, steps, attempts) && 0 < i < |attempts|
    ensures attempts[i].trigger == Some(attempts[i - 1].reason)
  {
    assert AuditAt(models, steps, attempts[i], i) && AuditAt(models, steps, attempts[i - 1], i - 1);
  }

  ghost predicate OnlySelected(attempts: seq<Attempt>, stage: nat, selection: Selection) {
    && stage < |attempts| && attempts[stage].selection == Some(selection)
    && forall i :: 0 <= i < |attempts| && i != stage ==> attempts[i].selection == None
  }

  /** No model after the first that stops the loop is tried, and the loop did stop. */
  ghost predicate Exhausted(steps: seq<Step>, k: nat) {
    && k <= |steps|
    && (forall i :: 0 <= i < k - 1 ==> GoesOn(steps[i]))
    && (forall i :: 0 <= i < k ==> !Accepted(steps[i]) && !steps[i].Stopped?)
    && (k == |steps| || (k > 0 && !GoesOn(steps[k - 1])))
  }

  /** `b` is the earliest stage of greatest rank among the usable replies. */
  ghost predicate BestStage(steps: seq<Step>, k: nat, b: nat)
    requires k <= |steps|
  {
    && b < k && Usable(steps[b])
    && forall i :: 0 <= i < k && Usable(steps[i]) ==>
         && !Less(RankAt(steps[b]), RankAt(steps[i]))
         && (i < b ==> Less(RankAt(steps[i]), RankAt(steps[b])))
  }

  function RankAt(s: Step): Rank
    requires s.Answered?
  {
    s.decision.rank
  }

  ghost predicate Completes(models: seq<string>, steps: seq<Step>, r: Completion) {
    match r
    case Propagated(stage, error) =>
      && stage < |steps| && steps[stage] == Stopped(error)
      && forall i :: 0 <= i < stage ==> GoesOn(steps[i])
    case AllFailed(attempts) =>
      && Audits(models, steps, attempts)
      && Exhausted(steps, |attempts|)
      && (forall i :: 0 <= i < |attempts| ==> !Usable(steps[i]))
      && (forall i :: 0 <= i < |attempts| ==> attempts[i].selection == None)
    case Returned(response, attempts) =>
      && Audits(models, steps, attempts)
      && ((&& |attempts| > 0
           && (forall i :: 0 <= i < |attempts| - 1 ==> GoesOn(steps[i]))
           && Accepted(steps[|attempts| - 1])
           && response == steps[|attempts| - 1].response
           && OnlySelected(attempts, |attempts| - 1, ResponseAccepted))
          || (&& Exhausted(steps, |attempts|)
              && exists b: nat :: BestStage(steps, |attempts|, b)
                  && response == steps[b].response
                  && OnlySelected(attempts, b, BestValidReturned)))
  }

  // ---------------------------------------------------------------- the client

  function MarkSelected(attempts: seq<Attempt>, stage: nat): (r: seq<Attempt>)
    ensures |r| == |attempts|
    ensures forall i :: 0 <= i < |attempts| ==>
              r[i] == if attempts[i].stage == stage
                      then attempts[i].(selection := Some(BestValidReturned)) else attempts[i]
  {
    seq(|attempts|, i requires 0 <= i < |attempts| =>
      if attempts[i].stage == stage then attempts[i].(selection := Some(BestValidReturned)) else attempts[i])
  }

  datatype Candidate = Candidate(response: Response, stage: nat, rank: Rank)

  /** The replies among the first `k` that could be returned, in order. */
  function Candidates(steps: seq<Step>, k: nat): seq<Candidate>
    requires k <= |steps|
  {
    if k == 0 then []
    else Candidates(steps, k - 1)
         + (if Usable(steps[k - 1]) then [Candidate(steps[k - 1].response, k - 1, steps[k - 1].decision.rank)] else [])
  }

  lemma {:induction false} CandidatesAreUsable(steps: seq<Step>, k: nat)
    requires k <= |steps|
    ensures var r := Candidates(steps, k);
            && (forall n :: 0 <= n < |r| ==>
                  && r[n].stage < k && Usable(steps[r[n].stage])
                  && r[n] == Candidate(steps[r[n].stage].response, r[n].stage, RankAt(steps[r[n].stage])))
            && (forall m, n :: 0 <= m < n < |r| ==> r[m].stage < r[n].stage)
            && (forall i :: 0 <= i < k && Usable(steps[i]) ==> exists n :: 0 <= n < |r| && r[n].stage == i)
  {
    if k != 0 {
      CandidatesAreUsable(steps, k - 1);
      var prior, r := Candidates(steps, k - 1), Candidates(steps, k);
      assert forall n :: 0 <= n < |prior| ==> r[n] == prior[n];
      forall i | 0 <= i < k && Usable(steps[i]) ensures exists n :: 0 <= n < |r| && r[n].stage == i {
        if i < k - 1 {
          var n :| 0 <= n < |prior| && prior[n].stage == i;
          assert r[n].stage == i;
        } else {
          assert r[|prior|].stage == i;
        }
      }
    }
  }

  lemma LessIsWeakOrder(a: Rank, b: Rank, c: Rank)
    ensures !Less(a, a) && (Less(a, b) ==> !Less(b, a))
    ensures Less(b, c) && !Less(b, a) ==> Less(a, c)
  {
  }

  function Components(r: Rank): seq<real> {
    [r.complete as real, r.present as real, r.rental as real, r.signals as real, r.confidence]
  }

  /** A rank is less where it first differs. */
  lemma LessIsLexicographic(a: Rank, b: Rank)
    ensures Less(a, b) <==>
            exists i :: 0 <= i < 5 && Components(a)[i] < Components(b)[i]
                        && forall j :: 0 <= j < i ==> Components(a)[j] == Components(b)[j]
  {
    var x, y := Components(a), Components(b);
    if Less(a, b) {
      var i := if x[0] < y[0] then 0 else if x[1] < y[1] then 1 else if x[2] < y[2] then 2
               else if x[3] < y[3] then 3 else 4;
      assert x[i] < y[i] && forall j :: 0 <= j < i ==> x[j] == y[j];
    }
    if i :| 0 <= i < 5 && x[i] < y[i] && forall j :: 0 <= j < i ==> x[j] == y[j] {
      assert i > 0 ==> x[0] == y[0];
      assert i > 1 ==> x[1] == y[1];
      assert i > 2 ==> x[2] == y[2];
      assert i > 3 ==> x[3] == y[3];
    }
  }

  /** Python's `max` by rank: the first of the greatest. */
  method BestCandidate(ghost steps: seq<Step>, candidates: seq<Candidate>, ghost k: nat) returns (best: Candidate)
    requires k <= |steps| && candidates == Candidates(steps, k) != []
    ensures BestStage(steps, k, best.stage) && best.response == steps[best.stage].response
  {
    CandidatesAreUsable(steps, k);
    best := candidates[0];
    ghost var p := 0;
    for n := 1 to |candidates|
      invariant p < n && best == candidates[p]
      invariant forall m :: 0 <= m < n ==>
        && !Less(best.rank, candidates[m].rank)
        && (m < p ==> Less(candidates[m].rank, best.rank))
    {
      forall m | 0 <= m <= n {
        LessIsWeakOrder(candidates[m].rank, best.rank, candidates[n].rank);
      }
      if Less(best.rank, candidates[n].rank) {
        best, p := candidates[n], n;
      }
    }
    forall i | 0 <= i < k && Usable(steps[i])
      ensures !Less(RankAt(steps[best.stage]), RankAt(steps[i]))
      ensures i < best.stage ==> Less(RankAt(steps[i]), RankAt(steps[best.stage]))
    {
      var m :| 0 <= m < |candidates| && candidates[m].stage == i;
      assert i < best.stage ==> m < p;
    }
  }

  /** The loop before its turn for model `|attempts|`. */
  ghost predicate Trying(models: seq<string>, steps: seq<Step>, attempts: seq<Attempt>, candidates: seq<Candidate>) {
    && Audits(models, steps, attempts)
    && (forall i :: 0 <= i < |attempts| ==> GoesOn(steps[i]))
    && (forall i :: 0 <= i < |attempts| ==> attempts[i].selection == None)
    && candidates == Candidates(steps, |attempts|)
  }

  /** The loop over and nothing accepted: the audit trail, unselected, and the candidates. */
  ghost predicate LoopedThrough(models: seq<string>, steps: seq<Step>, attempts: seq<Attempt>,
                                candidates: seq<Candidate>) {
    && Audits(models, steps, attempts) && Exhausted(steps, |attempts|)
    && (forall i :: 0 <= i < |attempts| ==> attempts[i].selection == None)
    && candidates == Candidates(steps, |attempts|)
  }

  lemma AuditsExtend(models: seq<string>, steps: seq<Step>, attempts: seq<Attempt>, a: Attempt)
    requires Audits(models, steps, attempts) && AuditAt(models, steps, a, |attempts|)
    ensures Audits(models, steps, attempts + [a])
  {
    forall i | 0 <= i < |attempts| + 1 ensures AuditAt(models, steps, (attempts + [a])[i], i) {
      if i < |attempts| {
        assert (attempts + [a])[i] == attempts[i];
      }
    }
  }

  /** The candidates after one more model. */
  function WithCandidate(steps: seq<Step>, k: nat, candidates: seq<Candidate>): seq<Candidate>
    requires k < |steps|
  {
    if Usable(steps[k]) then candidates + [Candidate(steps[k].response, k, steps[k].decision.rank)] else candidates
  }

  lemma AuditExtends(models: seq<string>, steps: seq<Step>, attempts: seq<Attempt>, candidates: seq<Candidate>,
                     a: Attempt)
    requires Trying(models, steps, attempts, candidates) && AuditAt(models, steps, a, |attempts|)
    ensures Audits(models, steps, attempts + [a])
    ensures forall i :: 0 <= i < |attempts| ==> (attempts + [a])[i].selection == None
    ensures GoesOn(steps[|attempts|]) && a.selection == None ==>
              Trying(models, steps, attempts + [a], WithCandidate(steps, |attempts|, candidates))
  {
    AuditsExtend(models, steps, attempts, a);
    var k, attempts' := |attempts|, attempts + [a];
    forall i | 0 <= i < k ensures attempts'[i].selection == None {
      assert attempts'[i] == attempts[i];
    }
    assert WithCandidate(steps, k, candidates) == Candidates(steps, k + 1);
  }

  lemma AcceptedCompletes(models: seq<string>, steps: seq<Step>, attempts: seq<Attempt>,
                          candidates: seq<Candidate>, a: Attempt)
    requires Trying(models, steps, attempts, candidates) && AuditAt(models, steps, a, |attempts|)
    requires Accepted(steps[|attempts|]) && a.selection == Some(ResponseAccepted)
    ensures Completes(models, steps, Returned(steps[|attempts|].response, attempts + [a]))
  {
    AuditExtends(models, steps, attempts, candidates, a);
    assert OnlySelected(attempts + [a], |attempts|, ResponseAccepted);
  }

  lemma NoneUsableCompletes(models: seq<string>, steps: seq<Step>, attempts: seq<Attempt>)
    requires Audits(models, steps, attempts) && Exhausted(steps, |attempts|)
    requires forall i :: 0 <= i < |attempts| ==> attempts[i].selection == None
    requires Candidates(steps, |attempts|) == []
    ensures Completes(models, steps, AllFailed(attempts))
  {
    CandidatesAreUsable(steps, |attempts|);
  }

  /** Marking one stage of a trail without a selection selects that attempt alone and keeps the trail. */
  lemma MarkedIsOnlySelected(models: seq<string>, steps: seq<Step>, attempts: seq<Attempt>, b: nat)
    requires Audits(models, steps, attempts) && b < |attempts|
    requires forall i :: 0 <= i < |attempts| ==> attempts[i].selection == None
    ensures OnlySelected(MarkSelected(attempts, b), b, BestValidReturned)
    ensures Audits(models, steps, MarkSelected(attempts, b))
  {
    var marked := MarkSelected(attempts, b);
    forall i | 0 <= i < |marked| ensures AuditAt(models, steps, marked[i], i) {
      assert AuditAt(models, steps, attempts[i], i);
    }
  }

  /** With every stage used up, the best usable response and the marked trail complete the request. */
  lemma BestCompletes(models: seq<string>, steps: seq<Step>, attempts: seq<Attempt>, b: nat)
    requires Audits(models, steps, attempts) && Exhausted(steps, |attempts|)
    requires forall i :: 0 <= i < |attempts| ==> attempts[i].selection == None
    requires BestStage(steps, |attempts|, b)
    ensures Completes(models, steps, Returned(steps[b].response, MarkSelected(attempts, b)))
  {
    MarkedIsOnlySelected(models, steps, attempts, b);
  }

  /** A first answer that is accepted completes the request at once. */
  lemma AcceptedAtOnce(model: string, decide: Response -> Decision, response: Response)
    requires !decide(response).retry
    ensures var d := decide(response);
            Completes([model], Steps(decide, [Reply(response)]),
                      Returned(response, [Attempt(model, 0, d.status, d.reason, Some(ResponseAccepted), None)]))
  {
    var d, steps := decide(response), Steps(decide, [Reply(response)]);
    assert AuditAt([model], steps, Attempt(model, 0, d.status, d.reason, Some(ResponseAccepted), None), 0);
  }

  lemma AllTriedIsExhausted(models: seq<string>, steps: seq<Step>,
                            attempts: seq<Attempt>, candidates: seq<Candidate>)
    requires Trying(models, steps, attempts, candidates) && |attempts| == |steps|
    ensures Exhausted(steps, |attempts|)
  {
  }

  lemma StoppedIsExhausted(models: seq<string>, steps: seq<Step>,
                           attempts: seq<Attempt>, candidates: seq<Candidate>)
    requires Trying(models, steps, attempts, candidates) && |attempts| < |steps|
    requires steps[|attempts|] == Error(false, PermanentTransport)
    ensures Exhausted(steps, |attempts| + 1)
    ensures Candidates(steps, |attempts| + 1) == candidates
  {
  }

  /** The loop over the models: it ends with a completion, or with every candidate to choose from. */
  method TryModels(models: seq<string>, decide: Response -> Decision, outcomes: seq<Outcome>)
    returns (done: Option<Completion>, attempts: seq<Attempt>, candidates: seq<Candidate>)
    requires |models| == |outcomes|
    ensures done.Some? ==> Completes(models, Steps(decide, outcomes), done.value)
    ensures done.None? ==> LoopedThrough(models, Steps(decide, outcomes), attempts, candidates)
  {
    ghost var steps := Steps(decide, outcomes);
    attempts, candidates := [], [];
    for stage := 0 to |models|
      invariant stage == |attempts| && Trying(models, steps, attempts, candidates)
    {
      var outcome := outcomes[stage];
      assert steps[stage] == StepOf(decide, outcome);
      if outcome.Foreign? {
        return Some(Propagated(stage, outcome.error)), attempts, candidates;
      }
      ghost var attempts0, candidates0 := attempts, candidates;
      assert stage > 0 ==> AuditAt(models, steps, attempts[stage - 1], stage - 1);
      var trigger := if stage > 0 && attempts != [] then Some(attempts[|attempts| - 1].reason) else None;
      if outcome.Reply? {
        var decision := decide(outcome.response);
        var selection := if decision.retry then None else Some(ResponseAccepted);
        attempts := attempts + [Attempt(models[stage], stage, decision.status, decision.reason, selection, trigger)];
        AuditExtends(models, steps, attempts0, candidates0, attempts[stage]);
        if !decision.retry {
          AcceptedCompletes(models, steps, attempts0, candidates0, attempts[stage]);
          return Some(Returned(outcome.response, attempts)), attempts, candidates;
        }
        if decision.returnable {
          candidates := candidates + [Candidate(outcome.response, stage, decision.rank)];
        }
      } else if outcome.TransportError? {
        var reason := if outcome.retryable then RetryableTransport else PermanentTransport;
        attempts := attempts + [Attempt(models[stage], stage, Failed, reason, None, trigger)];
        AuditExtends(models, steps, attempts0, candidates0, attempts[stage]);
        if !outcome.retryable {
          StoppedIsExhausted(models, steps, attempts0, candidates0);
          return None, attempts, candidates;
        }
      } else {
        var reason := if outcome.Malformed? then MalformedResponse else ModelError;
        attempts := attempts + [Attempt(models[stage], stage, Failed, reason, None, trigger)];
        AuditExtends(models, steps, attempts0, candidates0, attempts[stage]);
      }
    }
    AllTriedIsExhausted(models, steps, attempts, candidates);
    done := None;
  }

  method CompleteJson(models: seq<string>, decide: Response -> Decision, outcomes: seq<Outcome>) returns (r: Completion)
    requires |models| == |outcomes|
    ensures Completes(models, Steps(decide, outcomes), r)
  {
    var done, attempts, candidates := TryModels(models, decide, outcomes);
    if done.Some? {
      return done.value;
    }
    ghost var steps := Steps(decide, outcomes);
    if candidates == [] {
      NoneUsableCompletes(models, steps, attempts);
      return AllFailed(attempts);
    }
    var best := BestCandidate(steps, candidates, |attempts|);
    BestCompletes(models, steps, attempts, best.stage);
    r := Returned(best.response, MarkSelected(attempts, best.stage));
  }

  // ---------------------------------------------------------------- what the description determines

  /** How many models are called: up to and with the first that ends the loop. */
  ghost predicate Calls(steps: seq<Step>, k: nat) {
    && k <= |steps|
    && (forall i :: 0 <= i < k - 1 ==> GoesOn(steps[i]))
    && (k == |steps| || (k > 0 && !GoesOn(steps[k - 1])))
  }

  lemma CallsAreDetermined(steps: seq<Step>, j: nat, k: nat)
    requires Calls(steps, j) && Calls(steps, k)
    ensures j == k
  {
  }

  lemma CompletionCalls(models: seq<string>, steps: seq<Step>, r: Completion)
    requires Completes(models, steps, r) && !r.Propagated?
    ensures Calls(steps, |r.attempts|) && Audits(models, steps, r.attempts)
    ensures forall i :: 0 <= i < |r.attempts| ==> !steps[i].Stopped?
  {
    forall i | 0 <= i < |r.attempts| ensures !steps[i].Stopped? {
      assert AuditAt(models, steps, r.attempts[i], i);
    }
  }

  lemma PropagatedHasNoOther(models: seq<string>, steps: seq<Step>, r1: Completion, r2: Completion)
    requires Completes(models, steps, r1) && r1.Propagated? && Completes(models, steps, r2)
    ensures r2 == r1
  {
    if r2.Propagated? {
      assert r1.stage < r2.stage ==> GoesOn(steps[r1.stage]);
      assert r2.stage < r1.stage ==> GoesOn(steps[r2.stage]);
    } else {
      CompletionCalls(models, steps, r2);
    }
  }

  lemma BestStageIsUnique(steps: seq<Step>, k: nat, b1: nat, b2: nat)
    requires k <= |steps| && BestStage(steps, k, b1) && BestStage(steps, k, b2)
    ensures b1 == b2
  {
  }

  lemma SameAudit(models: seq<string>, steps: seq<Step>, a1: seq<Attempt>, a2: seq<Attempt>)
    requires Audits(models, steps, a1) && Audits(models, steps, a2) && |a1| == |a2|
    requires forall i :: 0 <= i < |a1| ==> a1[i].selection == a2[i].selection
    ensures a1 == a2
  {
    forall i | 0 <= i < |a1| ensures a1[i] == a2[i] {
      assert AuditAt(models, steps, a1[i], i) && AuditAt(models, steps, a2[i], i);
    }
  }

  /** The outcomes of the models determine the response, the failure and the whole audit trail. */
  lemma CompletionIsDetermined(models: seq<string>, steps: seq<Step>, r1: Completion, r2: Completion)
    requires Completes(models, steps, r1) && Completes(models, steps, r2)
    ensures r1 == r2
  {
    if r1.Propagated? {
      PropagatedHasNoOther(models, steps, r1, r2);
    } else if r2.Propagated? {
      PropagatedHasNoOther(models, steps, r2, r1);
    } else {
      CompletionCalls(models, steps, r1);
      CompletionCalls(models, steps, r2);
      CallsAreDetermined(steps, |r1.attempts|, |r2.attempts|);
      var k := |r1.attempts|;
      if r1.Returned? && r2.Returned? && Exhausted(steps, k) {
        var b1: nat :| BestStage(steps, k, b1) && r1.response == steps[b1].response
                       && OnlySelected(r1.attempts, b1, BestValidReturned);
        var b2: nat :| BestStage(steps, k, b2) && r2.response == steps[b2].response
                       && OnlySelected(r2.attempts, b2, BestValidReturned);
        BestStageIsUnique(steps, k, b1, b2);
      }
      SameAudit(models, steps, r1.attempts, r2.attempts);
    }
  }

  /** A returned response is the accepted one, or the best of the stages that were tried. */
  lemma ReturnedWasAcceptedOrBest(models: seq<string>, steps: seq<Step>, response: Response, attempts: seq<Attempt>)
    requires Completes(models, steps, Returned(response, attempts))
    ensures |attempts| <= |steps|
    ensures if Exhausted(steps, |attempts|)
            then exists b: nat :: BestStage(steps, |attempts|, b) && response == steps[b].response
            else |attempts| > 0 && Accepted(steps[|attempts| - 1]) && response == steps[|attempts| - 1].response
  {
  }

  // ---------------------------------------------------------------- in terms of the outcomes

  /** What makes the client call the next model: an answer to retry, or an error that may pass. */
  predicate Continues(decide: Response -> Decision, o: Outcome) {
    || (o.Reply? && decide(o.response).retry)
    || (o.TransportError? && o.retryable)
    || o.Malformed? || o.OtherLlmError?
  }

  /** How many models a completion stands for. */
  function Tried(r: Completion): nat {
    match r
    case Propagated(stage, _) => stage + 1
    case AllFailed(attempts) => |attempts|
    case Returned(_, attempts) => |attempts|
  }

  /** The models tried are those up to the first outcome that does not make the client continue. */
  lemma TriedUntilDone(models: seq<string>, decide: Response -> Decision, outcomes: seq<Outcome>, r: Completion)
    requires |models| == |outcomes| && Completes(models, Steps(decide, outcomes), r)
    ensures Tried(r) <= |outcomes|
    ensures forall i :: 0 <= i < Tried(r) - 1 ==> Continues(decide, outcomes[i])
    ensures Tried(r) < |outcomes| ==> Tried(r) > 0 && !Continues(decide, outcomes[Tried(r) - 1])
  {
    var steps := Steps(decide, outcomes);
    assert forall i :: 0 <= i < |outcomes| ==> (GoesOn(steps[i]) <==> Continues(decide, outcomes[i]));
    if !r.Propagated? {
      CompletionCalls(models, steps, r);
    }
  }

  /** Which of the three results it is: an error of no model call, nothing returnable at all, or a response. */
  lemma ResultIff(models: seq<string>, decide: Response -> Decision, outcomes: seq<Outcome>, r: Completion)
    requires |models| == |outcomes| && Completes(models, Steps(decide, outcomes), r)
    requires forall response :: !decide(response).retry ==> decide(response).returnable
    ensures Tried(r) <= |outcomes|
    ensures r.Propagated? <==> exists i :: 0 <= i < Tried(r) && outcomes[i].Foreign?
    ensures r.AllFailed? <==>
            forall i :: 0 <= i < Tried(r) ==>
              !outcomes[i].Foreign? && (outcomes[i].Reply? ==> !decide(outcomes[i].response).returnable)
  {
    var steps := Steps(decide, outcomes);
    TriedUntilDone(models, decide, outcomes, r);
    assert forall i :: 0 <= i < |outcomes| ==> steps[i] == StepOf(decide, outcomes[i]);
    match r
    case Propagated(stage, _) => assert outcomes[stage].Foreign?;
    case AllFailed(attempts) =>
      forall i | 0 <= i < |attempts| ensures !outcomes[i].Foreign? {
        assert !steps[i].Stopped? && !Usable(steps[i]);
      }
    case Returned(_, attempts) =>
      CompletionCalls(models, steps, r);
      forall i | 0 <= i < |attempts| ensures !outcomes[i].Foreign? {
        assert !steps[i].Stopped?;
      }
      if Exhausted(steps, |attempts|) {
        ReturnedWasAcceptedOrBest(models, steps, r.response, attempts);
        var b: nat :| BestStage(steps, |attempts|, b);
        assert outcomes[b].Reply?;
      } else {
        ReturnedWasAcceptedOrBest(models, steps, r.response, attempts);
        assert outcomes[|attempts| - 1].Reply?;
      }
  }

  /** What the audit entry of a tried model says. */
  lemma AuditSays(models: seq<string>, decide: Response -> Decision, outcomes: seq<Outcome>, r: Completion, i: nat)
    requires |models| == |outcomes| && Completes(models, Steps(decide, outcomes), r) && !r.Propagated?
    requires i < |r.attempts|
    ensures |r.attempts| <= |outcomes|
    ensures var a, o := r.attempts[i], outcomes[i];
            && a.model == models[i] && a.stage == i && !o.Foreign?
            && (o.Reply? ==> a.status == decide(o.response).status && a.reason == decide(o.response).reason)
            && (!o.Reply? ==> a.status == Failed)
            && (o == TransportError(true) ==> a.reason == RetryableTransport)
            && (o == TransportError(false) ==> a.reason == PermanentTransport)
            && (o.Malformed? ==> a.reason == MalformedResponse)
            && (o.OtherLlmError? ==> a.reason == ModelError)
            && a.trigger == (if i == 0 then None else Some(r.attempts[i - 1].reason))
  {
    var steps := Steps(decide, outcomes);
    CompletionCalls(models, steps, r);
    assert AuditAt(models, steps, r.attempts[i], i);
    assert steps[i] == StepOf(decide, outcomes[i]);
    if i > 0 {
      TriggerIsPreviousReason(models, steps, r.attempts, i);
    }
  }

  /** One attempt is selected on return, none otherwise; the response is that attempt's. */
  lemma SelectionSays(models: seq<string>, decide: Response -> Decision, outcomes: seq<Outcome>, r: Completion)
    requires |models| == |outcomes| && Completes(models, Steps(decide, outcomes), r)
    ensures r.AllFailed? ==> forall i :: 0 <= i < |r.attempts| ==> r.attempts[i].selection == None
    ensures r.Returned? ==>
              exists b :: 0 <= b < |r.attempts| <= |outcomes| && outcomes[b] == Reply(r.response)
                          && r.attempts[b].selection.Some?
                          && (r.attempts[b].selection == Some(ResponseAccepted) <==> !decide(r.response).retry)
                          && forall i :: 0 <= i < |r.attempts| && i != b ==> r.attempts[i].selection == None
  {
    var steps := Steps(decide, outcomes);
    if r.Returned? {
      var k := |r.attempts|;
      if Exhausted(steps, k) {
        var b: nat :| BestStage(steps, k, b) && r.response == steps[b].response
                      && OnlySelected(r.attempts, b, BestValidReturned);
        assert steps[b] == StepOf(decide, outcomes[b]) && !Accepted(steps[b]);
      } else {
        assert steps[k - 1] == StepOf(decide, outcomes[k - 1]);
      }
    }
  }
}

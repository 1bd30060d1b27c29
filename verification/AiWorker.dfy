/**
 The extraction worker: one queue message is turned into one processing record, which is
 published to the next queue at most once however often the message is redelivered.
 */
module AiWorker {
  import opened Options
  import opened LlmDecisions
  import Client = LlmClient
  import PythonText

  datatype RecordStatus = Succeeded | ManualReview | FailedStatus

  datatype Failure =
    | ContradictoryRental | NotRental | RentalConfidenceLow
    | NotRealEstate | LowRelevance
    | FieldsMissing(fields: seq<FieldName>) | EssentialMissing | ConfidenceLow
    | AllModelsFailed | StorageRetryable | StoragePermanent | ErrorType

  datatype Canonical = Canonical(
    price: Option<real>, rooms: Option<int>, district: Option<string>, phones: seq<string>,
    description: string, confidence: real)

  datatype Record = Record(status: RecordStatus, canonical: Option<Canonical>, reason: Option<Failure>, published: bool)

  datatype Message = Message(key: string, canonical: Canonical, reviewReason: Option<Failure>)

  /** Stored records, messages enqueued for the next stage, and model calls made. */
  datatype World = World(records: map<string, Record>, queue: seq<Message>, calls: nat)

  /** A step that may raise: an error the worker's handler catches, or any other. */
  datatype Effect = Works | RaisesCaught | RaisesOther

  datatype Setup = Ready | StorageFailed(retryable: bool) | SetupRaises(effect: Effect)

  /** What the surroundings of one delivery do; saving a record never fails. */
  datatype Env = Env(setup: Setup, tags: Effect, publish: Effect, notify: Effect)

  datatype Settings = Settings(
    minConfidence: real, rentalMinConfidence: real, validator: Content -> Option<Content>,
    normalize: Content -> Canonical)

  datatype Delivery = Done(record: Record) | Raised

  // ---------------------------------------------------------------- the verdict on a response

  datatype Verdict = Verdict(status: RecordStatus, reason: Option<Failure>)

  function IsRental(content: Content): bool {
    if Contradicts(content) then false
    else match Get(content, IsRentalAnnouncement)
         case Flag(b) => b
         case _ => !Listed(content, Sale)
  }

  function ConfidenceInRental(content: Content, response: Response): real {
    match Get(content, FieldName.RentalConfidence)
    case Number(n) => n
    case _ => response.confidence
  }

  predicate Essential(c: Canonical) {
    c.price.Some? || c.rooms.Some? || c.district.Some? || c.phones != []
  }

  predicate Junk(c: Canonical) {
    |PythonText.Strip(c.description)| < 5 || !Essential(c)
  }

  function RentalVerdict(st: Settings, content: Content, response: Response): Option<Failure> {
    if !IsRental(content) || ConfidenceInRental(content, response) <= st.rentalMinConfidence then
      Some(if Contradicts(content) then ContradictoryRental
           else if !IsRental(content) then NotRental
           else RentalConfidenceLow)
    else None
  }

  function QualityVerdict(st: Settings, c: Canonical, missing: seq<FieldName>): Verdict {
    if c.confidence < 0.40 || (Junk(c) && c.confidence < 0.60) then
      Verdict(FailedStatus, Some(if !Essential(c) then NotRealEstate else LowRelevance))
    else if missing != [] then Verdict(ManualReview, Some(FieldsMissing(missing)))
    else if c.confidence < st.minConfidence || Junk(c) then
      Verdict(ManualReview, Some(if Junk(c) then EssentialMissing else ConfidenceLow))
    else Verdict(Succeeded, None)
  }

  // ---------------------------------------------------------------- specification of a delivery

  function Save(w: World, key: string, r: Record): World {
    w.(records := w.records[key := r])
  }

  function Enqueue(w: World, key: string, r: Record): World
    requires r.canonical.Some?
  {
    w.(queue := w.queue + [Message(key, r.canonical.value, if r.status.ManualReview? then r.reason else None)])
  }

  function Plain(status: RecordStatus, reason: Failure): Record {
    Record(status, None, Some(reason), false)
  }

  /** A final notification inside the handled block, after `r` has been saved. */
  function Notified(w: World, key: string, r: Record, notify: Effect): (World, Delivery) {
    match notify
    case Works => (w, Done(r))
    case RaisesOther => (w, Raised)
    case RaisesCaught =>
      // the handler overwrites the record, and its own notification raises again
      (Save(w, key, Plain(FailedStatus, ErrorType)), Raised)
  }

  /** A record saved by an exception handler, whose notification is not handled any more. */
  function Handled(w: World, key: string, r: Record, notify: Effect): (World, Delivery) {
    (Save(w, key, r), if notify.Works? then Done(r) else Raised)
  }

  function SaveAndPublish(w: World, key: string, r: Record, env: Env): (World, Delivery)
    requires r.canonical.Some?
  {
    var saved := Save(w, key, r);
    match env.publish
    case RaisesOther => (saved, Raised)
    case RaisesCaught => Handled(saved, key, Plain(FailedStatus, ErrorType), env.notify)
    case Works =>
      var r' := r.(published := true);
      Notified(Save(Enqueue(saved, key, r), key, r'), key, r', env.notify)
  }

  function Extracted(w: World, key: string, st: Settings, env: Env, content: Content, response: Response,
                     required: seq<FieldName>): (World, Delivery) {
    var rental := RentalVerdict(st, content, response);
    if rental.Some? then
      Notified(Save(w, key, Plain(FailedStatus, rental.value)), key, Plain(FailedStatus, rental.value), env.notify)
    else match env.tags
      case RaisesOther => (w, Raised)
      case RaisesCaught => Handled(w, key, Plain(FailedStatus, ErrorType), env.notify)
      case Works =>
        var c := st.normalize(content);
        var v := QualityVerdict(st, c, MissingFields(content, required));
        var r := Record(v.status, Some(c), v.reason, false);
        if v.status.FailedStatus? then Notified(Save(w, key, r), key, r, env.notify)
        else SaveAndPublish(w, key, r, env)
  }

  /** What follows the client's answer. */
  function Answered(w: World, key: string, st: Settings, env: Env, required: seq<FieldName>,
                    answer: Client.Completion): (World, Delivery) {
    match answer
    case Propagated(stage, error) =>
      var w1 := w.(calls := w.calls + stage + 1);
      if error.RuntimeFailure? then Handled(w1, key, Plain(FailedStatus, ErrorType), env.notify) else (w1, Raised)
    case AllFailed(attempts) =>
      Handled(w.(calls := w.calls + |attempts|), key, Plain(FailedStatus, AllModelsFailed), env.notify)
    case Returned(response, attempts) =>
      var w1 := w.(calls := w.calls + |attempts|);
      var content := st.validator(response.content);
      if content.None? then Handled(w1, key, Plain(FailedStatus, ErrorType), env.notify)
      else Extracted(w1, key, st, env, content.value, response, required)
  }

  /** A delivery that has to extract; `answer` is what the client makes of the models. */
  function Extract(w: World, key: string, st: Settings, env: Env, required: seq<FieldName>,
                   answer: Client.Completion): (World, Delivery) {
    match env.setup
    case StorageFailed(retryable) =>
      Handled(w, key, Plain(FailedStatus, if retryable then StorageRetryable else StoragePermanent), env.notify)
    case SetupRaises(effect) =>
      if effect.RaisesCaught? then Handled(w, key, Plain(FailedStatus, ErrorType), env.notify) else (w, Raised)
    case Ready => Answered(w, key, st, env, required, answer)
  }

  /** Publishing a record that an earlier delivery saved but did not get out. */
  function Republish(w: World, key: string, r: Record, env: Env): (World, Delivery) {
    if r.canonical.Some? && !env.publish.Works? then (w, Raised)
    else
      var r' := r.(published := true);
      (Save(if r.canonical.Some? then Enqueue(w, key, r) else w, key, r'), Done(r'))
  }

  function Deliver(w: World, key: string, st: Settings, env: Env, required: seq<FieldName>,
                   answer: Client.Completion): (World, Delivery) {
    if key in w.records && !w.records[key].status.FailedStatus? then
      if w.records[key].published then (w, Done(w.records[key])) else Republish(w, key, w.records[key], env)
    else Extract(w, key, st, env, required, answer)
  }

  /** Whether a delivery comes to asking the models. */
  predicate NeedsModel(w: World, key: string, env: Env) {
    (key in w.records ==> w.records[key].status.FailedStatus?) && env.setup.Ready?
  }

  // ---------------------------------------------------------------- the worker

  function RequestFor(st: Settings, schema: Schema, required: seq<FieldName>): Request {
    Request(st.minConfidence, ListingQuality, required, schema, Some(st.validator))
  }

  class AiExtractionWorker {
    const settings: Settings
    const schema: Schema
    const models: seq<string>
    var records: map<string, Record>
    var queue: seq<Message>
    var calls: nat

    constructor (settings: Settings, schema: Schema, models: seq<string>)
      ensures this.settings == settings && this.schema == schema && this.models == models
      ensures Contents() == World(map[], [], 0)
    {
      this.settings, this.schema, this.models := settings, schema, models;
      records, queue, calls := map[], [], 0;
    }

    function Contents(): World
      reads this
    {
      World(records, queue, calls)
    }

    method PublishPostAi(key: string, r: Record, effect: Effect) returns (raised: bool)
      modifies this`queue
      ensures raised <==> r.canonical.Some? && !effect.Works?
      ensures Contents() == if r.canonical.Some? && effect.Works?
                            then Enqueue(old(Contents()), key, r) else old(Contents())
    {
      if r.canonical.None? {
        return false;
      }
      if !effect.Works? {
        return true;
      }
      queue := queue + [Message(key, r.canonical.value, if r.status.ManualReview? then r.reason else None)];
      raised := false;
    }

    /** Notification at the end of the handled block. */
    method NotifyInside(key: string, r: Record, effect: Effect) returns (result: Delivery)
      modifies this`records
      ensures (Contents(), result) == Notified(old(Contents()), key, r, effect)
    {
      if effect.Works? {
        return Done(r);
      }
      if effect.RaisesCaught? {
        records := records[key := Plain(FailedStatus, ErrorType)];
      }
      result := Raised;
    }

    method Handle(key: string, r: Record, effect: Effect) returns (result: Delivery)
      modifies this`records
      ensures (Contents(), result) == Handled(old(Contents()), key, r, effect)
    {
      records := records[key := r];
      result := if effect.Works? then Done(r) else Raised;
    }

    method KeepExtracted(key: string, env: Env, content: Content, response: Response, required: seq<FieldName>)
      returns (result: Delivery)
      modifies this`records, this`queue
      ensures (Contents(), result) == Extracted(old(Contents()), key, settings, env, content, response, required)
    {
      var isRental := Get(content, IsRentalAnnouncement) == Flag(true);
      if Contradicts(content) {
        isRental := false;
      } else if !Get(content, IsRentalAnnouncement).Flag? {
        isRental := !Listed(content, Sale);
      }
      if !isRental || ConfidenceInRental(content, response) <= settings.rentalMinConfidence {
        var reason := RentalConfidenceLow;
        if Contradicts(content) {
          reason := ContradictoryRental;
        } else if !isRental {
          reason := NotRental;
        }
        records := records[key := Plain(FailedStatus, reason)];
        result := NotifyInside(key, Plain(FailedStatus, reason), env.notify);
        return;
      }
      if env.tags.RaisesOther? {
        return Raised;
      }
      if env.tags.RaisesCaught? {
        result := Handle(key, Plain(FailedStatus, ErrorType), env.notify);
        return;
      }
      var canonical := settings.normalize(content);
      var verdict := QualityVerdict(settings, canonical, MissingFields(content, required));
      var record := Record(verdict.status, Some(canonical), verdict.reason, false);
      records := records[key := record];
      if verdict.status.FailedStatus? {
        result := NotifyInside(key, record, env.notify);
        return;
      }
      var raised := PublishPostAi(key, record, env.publish);
      if raised {
        if env.publish.RaisesOther? {
          return Raised;
        }
        result := Handle(key, Plain(FailedStatus, ErrorType), env.notify);
        return;
      }
      record := record.(published := true);
      records := records[key := record];
      result := NotifyInside(key, record, env.notify);
    }

    /** The handled block of a delivery. */
    method ExtractRecord(key: string, env: Env, required: seq<FieldName>, outcomes: seq<Client.Outcome>)
      returns (result: Delivery, ghost answer: Client.Completion)
      requires |outcomes| == |models|
      modifies this`records, this`queue, this`calls
      ensures env.setup.Ready? ==>
                Client.Completes(models, Client.Steps(Judge(RequestFor(settings, schema, required)), outcomes), answer)
      ensures (Contents(), result) == Extract(old(Contents()), key, settings, env, required, answer)
    {
      answer := Client.Propagated(0, Client.OtherFailure);
      if env.setup.StorageFailed? {
        var reason := if env.setup.retryable then StorageRetryable else StoragePermanent;
        result := Handle(key, Plain(FailedStatus, reason), env.notify);
        return;
      }
      if env.setup.SetupRaises? {
        result := Raised;
        if env.setup.effect.RaisesCaught? {
          result := Handle(key, Plain(FailedStatus, ErrorType), env.notify);
        }
        return;
      }
      var completion := Client.CompleteJson(models, Judge(RequestFor(settings, schema, required)), outcomes);
      answer := completion;
      result := UseAnswer(key, env, required, completion);
    }

    method UseAnswer(key: string, env: Env, required: seq<FieldName>, completion: Client.Completion)
      returns (result: Delivery)
      modifies this`records, this`queue, this`calls
      ensures (Contents(), result) == Answered(old(Contents()), key, settings, env, required, completion)
    {
      if completion.Propagated? {
        calls := calls + completion.stage + 1;
        if completion.error.OtherFailure? {
          return Raised;
        }
        result := Handle(key, Plain(FailedStatus, ErrorType), env.notify);
        return;
      }
      calls := calls + |completion.attempts|;
      if completion.AllFailed? {
        result := Handle(key, Plain(FailedStatus, AllModelsFailed), env.notify);
        return;
      }
      var content := settings.validator(completion.response.content);
      if content.None? {
        result := Handle(key, Plain(FailedStatus, ErrorType), env.notify);
        return;
      }
      result := KeepExtracted(key, env, content.value, completion.response, required);
    }

    method Process(key: string, env: Env, required: seq<FieldName>, outcomes: seq<Client.Outcome>)
      returns (result: Delivery, ghost answer: Client.Completion)
      requires |outcomes| == |models|
      modifies this`records, this`queue, this`calls
      ensures NeedsModel(old(Contents()), key, env) ==>
                Client.Completes(models, Client.Steps(Judge(RequestFor(settings, schema, required)), outcomes), answer)
      ensures (Contents(), result) == Deliver(old(Contents()), key, settings, env, required, answer)
    {
      if key !in records || records[key].status.FailedStatus? {
        result, answer := ExtractRecord(key, env, required, outcomes);
        return;
      }
      answer := Client.Propagated(0, Client.OtherFailure);
      var existing := records[key];
      if existing.published {
        return Done(existing), answer;
      }
      var raised := PublishPostAi(key, existing, env.publish);
      if raised {
        return Raised, answer;
      }
      existing := existing.(published := true);
      records := records[key := existing];
      result := Done(existing);
    }
  }

  // ---------------------------------------------------------------- redelivery

  /** One delivery of the event, with whatever the models answer in it. */
  datatype Turn = Turn(env: Env, required: seq<FieldName>, answer: Client.Completion)

  function Redeliver(w: World, key: string, st: Settings, turns: seq<Turn>): World {
    if turns == [] then w
    else
      var last := turns[|turns| - 1];
      Deliver(Redeliver(w, key, st, turns[..|turns| - 1]), key, st, last.env, last.required, last.answer).0
  }

  function Published(queue: seq<Message>, key: string): nat {
    if queue == [] then 0
    else Published(queue[..|queue| - 1], key) + (if queue[|queue| - 1].key == key then 1 else 0)
  }

  predicate InQueue(queue: seq<Message>, key: string, i: int) {
    0 <= i < |queue| && queue[i].key == key
  }

  /** At most one is published exactly when no two places of the queue are the key's; none when no place is. */
  lemma {:induction false} PublishedIff(queue: seq<Message>, key: string)
    ensures Published(queue, key) == 0 <==> forall i :: !InQueue(queue, key, i)
    ensures Published(queue, key) <= 1 <==> forall i, j :: InQueue(queue, key, i) && InQueue(queue, key, j) ==> i == j
  {
    if queue != [] {
      var fewer, n := queue[..|queue| - 1], |queue| - 1;
      PublishedIff(fewer, key);
      assert forall i :: InQueue(queue, key, i) <==> InQueue(fewer, key, i) || (i == n && queue[n].key == key);
      if queue[n].key == key {
        assert InQueue(queue, key, n);
        if i :| InQueue(fewer, key, i) {
          assert InQueue(queue, key, i) && i != n;
        }
      }
    }
  }

  /** A record that may be published carries a listing, and only published records are marked so. */
  ghost predicate Sound(w: World, key: string) {
    key in w.records ==>
      && (!w.records[key].status.FailedStatus? ==> w.records[key].canonical.Some?)
      && (w.records[key].published ==> !w.records[key].status.FailedStatus?)
  }

  ghost predicate Sealed(w: World, key: string) {
    key in w.records && w.records[key].published
  }

  /** Only the record of `key` changes, and at most one message for `key` joins the queue. */
  ghost predicate TouchesOnly(w: World, w': World, key: string) {
    && (forall k :: k != key ==> Lookup(w'.records, k) == Lookup(w.records, k))
    && (w'.queue == w.queue || (w'.queue != [] && w'.queue[|w'.queue| - 1].key == key
                                && w'.queue[..|w'.queue| - 1] == w.queue))
  }

  lemma HandledTouchesOnly(w0: World, w: World, key: string, r: Record, notify: Effect)
    requires TouchesOnly(w0, w, key)
    ensures TouchesOnly(w0, Save(w, key, r), key)
    ensures TouchesOnly(w0, Handled(w, key, r, notify).0, key)
    ensures TouchesOnly(w0, Notified(w, key, r, notify).0, key)
  {
  }

  lemma EnqueueTouchesOnly(w: World, key: string, r: Record)
    requires r.canonical.Some?
    ensures TouchesOnly(w, Enqueue(Save(w, key, r), key, r), key)
  {
    var queue := Enqueue(Save(w, key, r), key, r).queue;
    assert queue[..|queue| - 1] == w.queue;
  }

  lemma PublishTouchesOnly(w: World, key: string, r: Record, env: Env)
    requires r.canonical.Some?
    ensures TouchesOnly(w, SaveAndPublish(w, key, r, env).0, key)
  {
    var saved, r' := Save(w, key, r), r.(published := true);
    HandledTouchesOnly(w, w, key, r, env.notify);
    match env.publish
    case RaisesOther =>
    case RaisesCaught => HandledTouchesOnly(w, saved, key, Plain(FailedStatus, ErrorType), env.notify);
    case Works =>
      var sent := Enqueue(saved, key, r);
      EnqueueTouchesOnly(w, key, r);
      HandledTouchesOnly(w, sent, key, r', env.notify);
      HandledTouchesOnly(w, Save(sent, key, r'), key, r', env.notify);
  }

  lemma ExtractedTouchesOnly(w: World, key: string, st: Settings, env: Env, content: Content, response: Response,
                             required: seq<FieldName>)
    ensures TouchesOnly(w, Extracted(w, key, st, env, content, response, required).0, key)
  {
    var rental := RentalVerdict(st, content, response);
    if rental.Some? {
      HandledTouchesOnly(w, w, key, Plain(FailedStatus, rental.value), env.notify);
      HandledTouchesOnly(w, Save(w, key, Plain(FailedStatus, rental.value)), key, Plain(FailedStatus, rental.value),
                         env.notify);
    } else {
      HandledTouchesOnly(w, w, key, Plain(FailedStatus, ErrorType), env.notify);
      var c := st.normalize(content);
      var v := QualityVerdict(st, c, MissingFields(content, required));
      var r := Record(v.status, Some(c), v.reason, false);
      HandledTouchesOnly(w, w, key, r, env.notify);
      HandledTouchesOnly(w, Save(w, key, r), key, r, env.notify);
      PublishTouchesOnly(w, key, r, env);
    }
  }

  lemma RepublishTouchesOnly(w: World, key: string, r: Record, env: Env)
    ensures TouchesOnly(w, Republish(w, key, r, env).0, key)
  {
    var r' := r.(published := true);
    HandledTouchesOnly(w, w, key, r', env.notify);
    if r.canonical.Some? {
      HandledTouchesOnly(w, Enqueue(w, key, r), key, r', env.notify);
    }
  }

  lemma AnsweredTouchesOnly(w: World, key: string, st: Settings, env: Env, required: seq<FieldName>,
                            answer: Client.Completion)
    ensures TouchesOnly(w, Answered(w, key, st, env, required, answer).0, key)
  {
    if answer.Returned? {
      var w1, content := w.(calls := w.calls + |answer.attempts|), st.validator(answer.response.content);
      if content.Some? {
        ExtractedTouchesOnly(w1, key, st, env, content.value, answer.response, required);
      } else {
        HandledTouchesOnly(w, w1, key, Plain(FailedStatus, ErrorType), env.notify);
      }
    } else if answer.Propagated? {
      var w1 := w.(calls := w.calls + answer.stage + 1);
      HandledTouchesOnly(w, w1, key, Plain(FailedStatus, ErrorType), env.notify);
    } else {
      var w1 := w.(calls := w.calls + |answer.attempts|);
      HandledTouchesOnly(w, w1, key, Plain(FailedStatus, AllModelsFailed), env.notify);
    }
  }

  lemma DeliveryTouchesOnly(w: World, key: string, st: Settings, env: Env, required: seq<FieldName>,
                            answer: Client.Completion)
    ensures TouchesOnly(w, Deliver(w, key, st, env, required, answer).0, key)
  {
    if key in w.records && !w.records[key].status.FailedStatus? {
      RepublishTouchesOnly(w, key, w.records[key], env);
    } else if env.setup.Ready? {
      AnsweredTouchesOnly(w, key, st, env, required, answer);
    } else {
      forall r: Record {
        HandledTouchesOnly(w, w, key, r, env.notify);
      }
    }
  }

  lemma DeliveryKeepsSound(w: World, key: string, st: Settings, env: Env, required: seq<FieldName>,
                           answer: Client.Completion)
    requires Sound(w, key)
    ensures Sound(Deliver(w, key, st, env, required, answer).0, key)
  {
  }

  /** Every stored succeeded or manual-review record carries a listing, so republishing really publishes. */
  lemma {:induction false} StoredRecordsCarryListing(w: World, key: string, st: Settings, turns: seq<Turn>)
    requires Sound(w, key)
    ensures Sound(Redeliver(w, key, st, turns), key)
  {
    if turns != [] {
      var last := turns[|turns| - 1];
      StoredRecordsCarryListing(w, key, st, turns[..|turns| - 1]);
      DeliveryKeepsSound(Redeliver(w, key, st, turns[..|turns| - 1]), key, st, last.env, last.required, last.answer);
    }
  }

  /** A published record is final: later deliveries ask no model, publish nothing, store nothing. */
  lemma {:induction false} PublishedIsFinal(w: World, key: string, st: Settings, turns: seq<Turn>)
    requires Sound(w, key) && Sealed(w, key)
    ensures Redeliver(w, key, st, turns) == w
  {
    if turns != [] {
      PublishedIsFinal(w, key, st, turns[..|turns| - 1]);
    }
  }

  /**
   A delivery that publishes leaves the record marked as published exactly when it was
   a republication or no notification raised an error that the handler catches.
   */
  lemma SealedUnlessNotifierRaises(w: World, key: string, st: Settings, env: Env, required: seq<FieldName>,
                                   answer: Client.Completion)
    requires Sound(w, key)
    requires Deliver(w, key, st, env, required, answer).0.queue != w.queue
    ensures Sealed(Deliver(w, key, st, env, required, answer).0, key) <==>
            (key in w.records && !w.records[key].status.FailedStatus?) || !env.notify.RaisesCaught?
  {
  }

  /** However often the event is redelivered, its key is published at most once. */
  lemma {:induction false} PublishedAtMostOnce(w: World, key: string, st: Settings, turns: seq<Turn>)
    requires Sound(w, key) && Published(w.queue, key) == 0
    requires forall t :: t in turns ==> !t.env.notify.RaisesCaught?
    ensures var w' := Redeliver(w, key, st, turns);
            && Published(w'.queue, key) <= 1
            && (Published(w'.queue, key) == 1 ==> Sealed(w', key))
  {
    if turns != [] {
      var last, prior := turns[|turns| - 1], turns[..|turns| - 1];
      PublishedAtMostOnce(w, key, st, prior);
      StoredRecordsCarryListing(w, key, st, prior);
      var w1 := Redeliver(w, key, st, prior);
      DeliveryTouchesOnly(w1, key, st, last.env, last.required, last.answer);
      if Sealed(w1, key) {
        PublishedIsFinal(w1, key, st, [last]);
      } else if Deliver(w1, key, st, last.env, last.required, last.answer).0.queue != w1.queue {
        SealedUnlessNotifierRaises(w1, key, st, last.env, last.required, last.answer);
      }
    }
  }

  /** If a notification after publishing raises such an error, the same delivery again publishes again. */
  lemma RaisingNotifierRepublishes(w: World, key: string, st: Settings, t: Turn)
    requires key !in w.records && t.env.notify.RaisesCaught?
    requires Deliver(w, key, st, t.env, t.required, t.answer).0.queue != w.queue
    ensures |Redeliver(w, key, st, [t, t]).queue| == |w.queue| + 2
  {
    var w1 := Deliver(w, key, st, t.env, t.required, t.answer).0;
    assert [t, t][..1] == [t] && [t][..0] == [];
    assert Redeliver(w, key, st, [t]) == w1;
    assert w1.records[key] == Plain(FailedStatus, ErrorType);
  }

  /** A rental with a price and rooms, answered at once by the only model. */
  const FLAT: Content := map[IsRentalAnnouncement := Flag(true), Price := Number(1.0), Rooms := Number(2.0)]

  const FLAT_LISTING := Canonical(Some(1.0), Some(2), None, [], "A flat", 0.9)

  const FLAT_SETTINGS := Settings(0.8, 0.6, c => Some(c), c => FLAT_LISTING)

  const FLAT_ANSWER := Client.Returned(
    Response(FLAT, 0.9),
    [Client.Attempt("model", 0, Success, GatePassed, Some(Client.ResponseAccepted), None)])

  const OPEN_SCHEMA := Schema([], None, true)

  lemma FlatIsAnswered()
    ensures var decide := Judge(RequestFor(FLAT_SETTINGS, OPEN_SCHEMA, []));
            Client.Completes(["model"], Client.Steps(decide, [Client.Reply(Response(FLAT, 0.9))]), FLAT_ANSWER)
  {
    FlatIsAccepted();
    Client.AcceptedAtOnce("model", Judge(RequestFor(FLAT_SETTINGS, OPEN_SCHEMA, [])), Response(FLAT, 0.9));
  }

  lemma FlatHasSignals()
    ensures CountMeaningful(FLAT, CORE_SIGNALS) >= 2
  {
    var rest := CORE_SIGNALS[1..];
    assert CORE_SIGNALS[0] == Price && rest[0] == Rooms;
    assert Meaningful(Get(FLAT, Price)) && Meaningful(Get(FLAT, Rooms));
    assert CountMeaningful(FLAT, CORE_SIGNALS) == 1 + CountMeaningful(FLAT, rest);
    assert CountMeaningful(FLAT, rest) == 1 + CountMeaningful(FLAT, rest[1..]);
  }

  lemma FlatIsAccepted()
    ensures var d := Decide(RequestFor(FLAT_SETTINGS, OPEN_SCHEMA, []), Response(FLAT, 0.9));
            !d.retry && d.status == Success && d.reason == GatePassed
  {
    FlatHasSignals();
    CompleteRentalPasses(RequestFor(FLAT_SETTINGS, OPEN_SCHEMA, []), Response(FLAT, 0.9), FLAT);
  }

  /** Under a notifier of that kind, two deliveries of this rental publish two messages. */
  lemma RepublishedRental()
    ensures var t := Turn(Env(Ready, Works, Works, RaisesCaught), [], FLAT_ANSWER);
            |Redeliver(World(map[], [], 0), "event", FLAT_SETTINGS, [t, t]).queue| == 2
  {
    var w, t := World(map[], [], 0), Turn(Env(Ready, Works, Works, RaisesCaught), [], FLAT_ANSWER);
    FlatIsPublished(t);
    RaisingNotifierRepublishes(w, "event", FLAT_SETTINGS, t);
  }

  lemma FlatIsPublished(t: Turn)
    requires t == Turn(Env(Ready, Works, Works, RaisesCaught), [], FLAT_ANSWER)
    ensures Deliver(World(map[], [], 0), "event", FLAT_SETTINGS, t.env, [], FLAT_ANSWER).0.queue
            == [Message("event", FLAT_LISTING, None)]
  {
    var w1 := World(map[], [], 1);
    PythonText.TightStripsToItself("A flat");
    assert !Contradicts(FLAT) && IsRental(FLAT);
    assert RentalVerdict(FLAT_SETTINGS, FLAT, Response(FLAT, 0.9)).None?;
    assert QualityVerdict(FLAT_SETTINGS, FLAT_LISTING, MissingFields(FLAT, [])) == Verdict(Succeeded, None);
    assert Extract(World(map[], [], 0), "event", FLAT_SETTINGS, t.env, [], FLAT_ANSWER)
        == Extracted(w1, "event", FLAT_SETTINGS, t.env, FLAT, Response(FLAT, 0.9), []);
    assert Extracted(w1, "event", FLAT_SETTINGS, t.env, FLAT, Response(FLAT, 0.9), [])
        == SaveAndPublish(w1, "event", Record(Succeeded, Some(FLAT_LISTING), None, false), t.env);
  }

  // ---------------------------------------------------------------- the notifiers of the program

  /** One service does nothing; the other sends, unless it is in a cooldown or limits the rate. */
  datatype Notifier = Disabled | Telegram(silent: bool)

  datatype Sending = Replied(status: int) | SendRaises | SendCancelled

  /** Every error of sending is logged and dropped; a cancellation goes through. */
  function Notify(n: Notifier, sending: Sending): Effect {
    match n
    case Disabled => Works
    case Telegram(silent) =>
      if silent then Works
      else match sending
           case Replied(_) => Works
           case SendRaises => Works
           case SendCancelled => RaisesOther
  }

  ghost predicate UsesShippedNotifier(t: Turn) {
    exists n, sending :: t.env.notify == Notify(n, sending)
  }

  /** With the notifiers of the program, whatever sending does, a key is published at most once. */
  lemma ShippedNotifiersPublishOnce(w: World, key: string, st: Settings, turns: seq<Turn>)
    requires Sound(w, key) && Published(w.queue, key) == 0
    requires forall t :: t in turns ==> UsesShippedNotifier(t)
    ensures Published(Redeliver(w, key, st, turns).queue, key) <= 1
  {
    forall t | t in turns ensures !t.env.notify.RaisesCaught? {
      var n, sending :| t.env.notify == Notify(n, sending);
    }
    PublishedAtMostOnce(w, key, st, turns);
  }

  lemma OnlyCancellationRaises(n: Notifier, sending: Sending)
    ensures Notify(n, sending) == if n == Telegram(false) && sending.SendCancelled? then RaisesOther else Works
  {
  }

  // ---------------------------------------------------------------- what a verdict means

  /** The confidence in a rental, where the answer gives one. */
  predicate SureOfRental(st: Settings, content: Content, response: Response) {
    (if Get(content, FieldName.RentalConfidence).Number? then Get(content, FieldName.RentalConfidence).number
     else response.confidence) > st.rentalMinConfidence
  }

  /** An answer goes on to extraction exactly when it neither denies a rental nor is for sale, and is sure enough. */
  lemma RentalIff(st: Settings, content: Content, response: Response)
    ensures var said, verdict := ClaimsOf(content), RentalVerdict(st, content, response);
            var contradicts := (said.rental && said.sale) || (said.notRental && said.rent);
            && (verdict == None <==> !said.notRental && !said.sale && SureOfRental(st, content, response))
            && (verdict == Some(ContradictoryRental) <==> contradicts)
            && (verdict == Some(NotRental) <==> (said.notRental || said.sale) && !contradicts)
            && (verdict == Some(Failure.RentalConfidenceLow) <==>
                  !said.notRental && !said.sale && !SureOfRental(st, content, response))
  {
  }

  /** Too little text, or none of price, rooms, district and phone. */
  predicate Poor(c: Canonical) {
    |PythonText.Strip(c.description)| < 5 || Bare(c)
  }

  predicate Bare(c: Canonical) {
    c.price == None && c.rooms == None && c.district == None && c.phones == []
  }

  /** Each verdict on a listing with its own condition. */
  lemma QualityIff(st: Settings, c: Canonical, missing: seq<FieldName>)
    ensures var v := QualityVerdict(st, c, missing);
            var rejected := c.confidence < 0.40 || (Poor(c) && c.confidence < 0.60);
            && (v == Verdict(FailedStatus, Some(NotRealEstate)) <==> rejected && Bare(c))
            && (v == Verdict(FailedStatus, Some(LowRelevance)) <==> rejected && !Bare(c))
            && (v == Verdict(ManualReview, Some(FieldsMissing(missing))) <==> !rejected && missing != [])
            && (v == Verdict(ManualReview, Some(EssentialMissing)) <==> !rejected && missing == [] && Poor(c))
            && (v == Verdict(ManualReview, Some(ConfidenceLow)) <==>
                  !rejected && missing == [] && !Poor(c) && c.confidence < st.minConfidence)
            && (v == Verdict(Succeeded, None) <==>
                  !rejected && missing == [] && !Poor(c) && c.confidence >= st.minConfidence)
  {
  }

  // ---------------------------------------------------------------- what is stored and published

  /** The answer of this delivery is a rental that normalises to this listing. */
  ghost predicate Extracts(st: Settings, t: Turn, c: Canonical, content: Content) {
    && t.answer.Returned? && st.validator(t.answer.response.content) == Some(content)
    && c == st.normalize(content)
    && !ClaimsOf(content).notRental && !ClaimsOf(content).sale && SureOfRental(st, content, t.answer.response)
    && c.confidence >= 0.40 && (Poor(c) ==> c.confidence >= 0.60)
  }

  ghost predicate HasField(content: Content, n: FieldName) {
    Meaningful(Get(content, n))
  }

  /** The delivery earns the listing this outcome: succeeded without a reason, or review with the right one. */
  ghost predicate Earns(st: Settings, t: Turn, status: RecordStatus, c: Canonical, reason: Option<Failure>) {
    exists content :: Extracts(st, t, c, content) && EarnsFrom(st, t, status, c, reason, content)
  }

  ghost predicate EarnsFrom(st: Settings, t: Turn, status: RecordStatus, c: Canonical, reason: Option<Failure>,
                            content: Content) {
    var complete := forall n :: n in t.required ==> HasField(content, n);
    match status
    case FailedStatus => false
    case Succeeded => reason == None && complete && !Poor(c) && c.confidence >= st.minConfidence
    case ManualReview =>
      && reason.Some?
      && (match reason.value
          case FieldsMissing(fields) =>
            !complete && forall n :: n in fields <==> n in t.required && !HasField(content, n)
          case EssentialMissing => complete && Poor(c)
          case ConfidenceLow => complete && !Poor(c) && c.confidence < st.minConfidence
          case _ => false)
  }

  lemma VerdictIsEarned(st: Settings, t: Turn, c: Canonical, content: Content)
    requires t.answer.Returned? && st.validator(t.answer.response.content) == Some(content)
    requires c == st.normalize(content)
    requires RentalVerdict(st, content, t.answer.response).None?
    ensures var v := QualityVerdict(st, c, MissingFields(content, t.required));
            !v.status.FailedStatus? ==> Earns(st, t, v.status, c, v.reason)
  {
    var missing := MissingFields(content, t.required);
    var v := QualityVerdict(st, c, missing);
    RentalIff(st, content, t.answer.response);
    QualityIff(st, c, missing);
    MissingAreMissing(content, t.required);
    if missing != [] {
      assert missing[0] in missing && !HasField(content, missing[0]);
    }
    if !v.status.FailedStatus? {
      assert Extracts(st, t, c, content);
      assert EarnsFrom(st, t, v.status, c, v.reason, content);
    }
  }

  function Delivered(w: World, key: string, st: Settings, t: Turn): World {
    Deliver(w, key, st, t.env, t.required, t.answer).0
  }

  /** A record kept for the next stage that this delivery stored or already found. */
  ghost predicate Kept(w: World, key: string, st: Settings, t: Turn, r: Record) {
    && !r.status.FailedStatus?
    && r.canonical.Some?
    && (Earns(st, t, r.status, r.canonical.value, r.reason)
        || (key in w.records && w.records[key].(published := r.published) == r))
  }

  /** What a delivery stores for the next stage it has earned or found, and it publishes no other listing. */
  lemma DeliveryStores(w: World, key: string, st: Settings, t: Turn)
    requires Sound(w, key)
    ensures var w' := Delivered(w, key, st, t);
            && (key in w'.records && !w'.records[key].status.FailedStatus? ==> Kept(w, key, st, t, w'.records[key]))
            && (w'.queue == w.queue
                || exists r :: Kept(w, key, st, t, r) && w'.queue == w.queue + [MessageOf(key, r)])
  {
    if key in w.records && !w.records[key].status.FailedStatus? {
      var r := w.records[key];
      assert Kept(w, key, st, t, r);
    } else if t.env.setup.Ready? && t.answer.Returned? {
      var content := st.validator(t.answer.response.content);
      if content.Some? && RentalVerdict(st, content.value, t.answer.response).None? && t.env.tags.Works? {
        ExtractedStores(w, key, st, t, content.value);
      }
    }
  }

  function MessageOf(key: string, r: Record): Message
    requires r.canonical.Some?
  {
    Message(key, r.canonical.value, if r.status.ManualReview? then r.reason else None)
  }

  lemma ExtractedStores(w: World, key: string, st: Settings, t: Turn, content: Content)
    requires (key in w.records ==> w.records[key].status.FailedStatus?) && t.env.setup.Ready? && t.env.tags.Works?
    requires t.answer.Returned? && st.validator(t.answer.response.content) == Some(content)
    requires RentalVerdict(st, content, t.answer.response).None?
    ensures var w' := Delivered(w, key, st, t);
            && (key in w'.records && !w'.records[key].status.FailedStatus? ==> Kept(w, key, st, t, w'.records[key]))
            && (w'.queue == w.queue
                || exists r :: Kept(w, key, st, t, r) && w'.queue == w.queue + [MessageOf(key, r)])
  {
    var c := st.normalize(content);
    var v := QualityVerdict(st, c, MissingFields(content, t.required));
    var r := Record(v.status, Some(c), v.reason, false);
    VerdictIsEarned(st, t, c, content);
    var w1 := w.(calls := w.calls + |t.answer.attempts|);
    assert Delivered(w, key, st, t) == Extracted(w1, key, st, t.env, content, t.answer.response, t.required).0;
    if !v.status.FailedStatus? {
      assert Kept(w, key, st, t, r) && Kept(w, key, st, t, r.(published := true));
      assert Delivered(w, key, st, t) == SaveAndPublish(w1, key, r, t.env).0;
    }
  }

  ghost predicate EarnedIn(st: Settings, turns: seq<Turn>, status: RecordStatus, c: Canonical,
                           reason: Option<Failure>) {
    exists t :: t in turns && Earns(st, t, status, c, reason)
  }

  lemma EarnedInMore(st: Settings, turns: seq<Turn>, t: Turn, status: RecordStatus, c: Canonical,
                     reason: Option<Failure>)
    requires EarnedIn(st, turns, status, c, reason) || Earns(st, t, status, c, reason)
    ensures EarnedIn(st, turns + [t], status, c, reason)
  {
    if EarnedIn(st, turns, status, c, reason) {
      var u :| u in turns && Earns(st, u, status, c, reason);
      assert u in turns + [t];
    } else {
      assert t in turns + [t];
    }
  }

  ghost predicate RecordEarned(st: Settings, turns: seq<Turn>, r: Record) {
    !r.status.FailedStatus? ==> r.canonical.Some? && EarnedIn(st, turns, r.status, r.canonical.value, r.reason)
  }

  ghost predicate MessageEarned(st: Settings, turns: seq<Turn>, m: Message) {
    || (m.reviewReason == None && EarnedIn(st, turns, Succeeded, m.canonical, None))
    || (m.reviewReason.Some? && EarnedIn(st, turns, ManualReview, m.canonical, m.reviewReason))
  }

  /**
   However often an event is delivered: a succeeded record has all required fields, a price,
   rooms, district or phone, enough text and confidence; a record under review names what it
   lacks; and every message carries such a listing, with a reason exactly when it needs review.
   */
  lemma {:induction false} EverythingIsEarned(key: string, st: Settings, turns: seq<Turn>)
    ensures var w := Redeliver(World(map[], [], 0), key, st, turns);
            && Sound(w, key) && (key in w.records ==> RecordEarned(st, turns, w.records[key]))
            && forall m :: m in w.queue ==> MessageEarned(st, turns, m)
  {
    if turns != [] {
      var fewer, t := turns[..|turns| - 1], turns[|turns| - 1];
      var w := Redeliver(World(map[], [], 0), key, st, fewer);
      EverythingIsEarned(key, st, fewer);
      assert turns == fewer + [t];
      DeliveryKeepsSound(w, key, st, t.env, t.required, t.answer);
      DeliveryIsEarned(w, key, st, fewer, t);
    }
  }

  lemma DeliveryIsEarned(w: World, key: string, st: Settings, turns: seq<Turn>, t: Turn)
    requires Sound(w, key) && (key in w.records ==> RecordEarned(st, turns, w.records[key]))
    requires forall m :: m in w.queue ==> MessageEarned(st, turns, m)
    ensures var w' := Delivered(w, key, st, t);
            && (key in w'.records ==> RecordEarned(st, turns + [t], w'.records[key]))
            && forall m :: m in w'.queue ==> MessageEarned(st, turns + [t], m)
  {
    var w' := Delivered(w, key, st, t);
    DeliveryStores(w, key, st, t);
    forall r | Kept(w, key, st, t, r) ensures RecordEarned(st, turns + [t], r) {
      EarnedInMore(st, turns, t, r.status, r.canonical.value, r.reason);
    }
    forall m | m in w.queue ensures MessageEarned(st, turns + [t], m) {
      var status := if m.reviewReason == None then Succeeded else ManualReview;
      EarnedInMore(st, turns, t, status, m.canonical, m.reviewReason);
    }
    if w'.queue != w.queue {
      var r :| Kept(w, key, st, t, r) && w'.queue == w.queue + [MessageOf(key, r)];
      assert RecordEarned(st, turns + [t], r);
      EarnedHasReason(st, turns + [t], r);
    }
  }

  lemma EarnedHasReason(st: Settings, turns: seq<Turn>, r: Record)
    requires !r.status.FailedStatus? && RecordEarned(st, turns, r)
    ensures r.reason.Some? <==> r.status.ManualReview?
  {
  }

  /** When everything works, the listing is stored and published exactly as earned, or stored as failed. */
  lemma WorkingDelivery(w: World, key: string, st: Settings, t: Turn, content: Content)
    requires NeedsModel(w, key, t.env) && t.env == Env(Ready, Works, Works, Works)
    requires t.answer.Returned? && st.validator(t.answer.response.content) == Some(content)
    ensures var w', c := Delivered(w, key, st, t), st.normalize(content);
            var said := ClaimsOf(content);
            var rental := !said.notRental && !said.sale && SureOfRental(st, content, t.answer.response);
            var rejected := c.confidence < 0.40 || (Poor(c) && c.confidence < 0.60);
            && key in w'.records && w'.calls == w.calls + |t.answer.attempts|
            && Deliver(w, key, st, t.env, t.required, t.answer).1 == Done(w'.records[key])
            && (w'.records[key].status.FailedStatus? <==> !rental || rejected)
            && (w'.records[key].canonical == if rental then Some(c) else None)
            && (w'.records[key].published <==> rental && !rejected)
            && w'.queue == w.queue + (if rental && !rejected then [MessageOf(key, w'.records[key])] else [])
  {
    RentalIff(st, content, t.answer.response);
    QualityIff(st, st.normalize(content), MissingFields(content, t.required));
    assert w.queue + [] == w.queue;
  }

  /** What is stored when a delivery fails before, in or after asking the models; nothing is published then. */
  lemma FailuresAreStored(w: World, key: string, st: Settings, t: Turn)
    requires key !in w.records && t.env.notify.Works?
    ensures var w', r := Delivered(w, key, st, t), Deliver(w, key, st, t.env, t.required, t.answer).1;
            var failed := (reason: Failure) =>
              w'.queue == w.queue && key in w'.records
              && w'.records[key] == Record(FailedStatus, None, Some(reason), false) && r == Done(w'.records[key]);
            && (t.env.setup == StorageFailed(true) ==> failed(StorageRetryable))
            && (t.env.setup == StorageFailed(false) ==> failed(StoragePermanent))
            && (t.env.setup == SetupRaises(RaisesCaught) ==> failed(ErrorType))
            && (t.env.setup == SetupRaises(RaisesOther) ==> w' == w && r == Raised)
            && (t.env.setup.Ready? ==>
                  && (t.answer.AllFailed? ==> failed(AllModelsFailed) && w'.calls == w.calls + |t.answer.attempts|)
                  && (t.answer.Propagated? ==> w'.calls == w.calls + t.answer.stage + 1)
                  && (t.answer.Propagated? && t.answer.error.RuntimeFailure? ==> failed(ErrorType))
                  && (t.answer.Propagated? && t.answer.error.OtherFailure? ==>
                        w'.records == w.records && w'.queue == w.queue && r == Raised)
                  && (t.answer.Returned? && st.validator(t.answer.response.content) == None ==> failed(ErrorType)))
  {
  }

  /** A publish that raises leaves the earned record unpublished, or a failed one if the error is handled. */
  lemma FailedPublish(w: World, key: string, st: Settings, t: Turn, content: Content)
    requires NeedsModel(w, key, t.env) && t.env.tags.Works? && t.env.notify.Works? && !t.env.publish.Works?
    requires t.answer.Returned? && st.validator(t.answer.response.content) == Some(content)
    requires RentalVerdict(st, content, t.answer.response).None?
    requires !QualityVerdict(st, st.normalize(content), MissingFields(content, t.required)).status.FailedStatus?
    ensures var w', r := Delivered(w, key, st, t), Deliver(w, key, st, t.env, t.required, t.answer).1;
            && w'.queue == w.queue && key in w'.records && !w'.records[key].published
            && (t.env.publish.RaisesCaught? ==>
                  w'.records[key] == Record(FailedStatus, None, Some(ErrorType), false) && r == Done(w'.records[key]))
            && (t.env.publish.RaisesOther? ==>
                  r == Raised && w'.records[key].canonical == Some(st.normalize(content))
                  && !w'.records[key].status.FailedStatus?)
  {
  }

  /** When the tag service raises nothing is published: a handled error is stored, another leaves no record. */
  lemma FailedTags(w: World, key: string, st: Settings, t: Turn, content: Content)
    requires NeedsModel(w, key, t.env) && t.env.notify.Works? && !t.env.tags.Works?
    requires t.answer.Returned? && st.validator(t.answer.response.content) == Some(content)
    requires RentalVerdict(st, content, t.answer.response).None?
    ensures var w', r := Delivered(w, key, st, t), Deliver(w, key, st, t.env, t.required, t.answer).1;
            && w'.queue == w.queue
            && (t.env.tags.RaisesCaught? ==>
                  key in w'.records && w'.records[key] == Record(FailedStatus, None, Some(ErrorType), false)
                  && r == Done(w'.records[key]))
            && (t.env.tags.RaisesOther? ==> w'.records == w.records && r == Raised)
  {
  }

  /** An unpublished record is published by the next delivery, without asking a model; a failing publish raises. */
  lemma RepublishesOnly(w: World, key: string, st: Settings, t: Turn)
    requires Sound(w, key) && key in w.records && !w.records[key].status.FailedStatus? && !w.records[key].published
    ensures var w', r := Delivered(w, key, st, t), w.records[key];
            if t.env.publish.Works?
            then w'.queue == w.queue + [MessageOf(key, r)] && w'.calls == w.calls
                 && w'.records == w.records[key := r.(published := true)]
            else w' == w && Deliver(w, key, st, t.env, t.required, t.answer).1 == Raised
  {
  }

  // ---------------------------------------------------------------- agreement with the client

  lemma ClientSawTheSameContent(st: Settings, schema: Schema, required: seq<FieldName>, response: Response)
    ensures var v := Validated(RequestFor(st, schema, required), response.content);
            v.Valid? ==> st.validator(response.content) == Some(v.content)
  {
  }

  /**
   If the client stopped on an explicit non-rental or contradictory classification, the
   stored record is failed and nothing is published.
   */
  lemma NonRentalIsFailed(w: World, key: string, st: Settings, schema: Schema, env: Env, required: seq<FieldName>,
                          answer: Client.Completion)
    requires NeedsModel(w, key, env) && answer.Returned?
    requires var reason := Decide(RequestFor(st, schema, required), answer.response).reason;
             reason.NonRental? || reason.Contradictory?
    ensures var w' := Deliver(w, key, st, env, required, answer).0;
            && w'.queue == w.queue
            && key in w'.records && w'.records[key].status.FailedStatus?
            && (env.notify.Works? ==>
                  w'.records[key].reason == Some(
                    if Decide(RequestFor(st, schema, required), answer.response).reason.Contradictory?
                    then ContradictoryRental else NotRental))
  {
    ClientSawTheSameContent(st, schema, required, answer.response);
  }

  /** The stored record waits for review because required fields are missing. */
  ghost predicate ReportsMissing(w: World, key: string) {
    && key in w.records && w.records[key].status.ManualReview?
    && w.records[key].reason.Some? && w.records[key].reason.value.FieldsMissing?
  }

  /**
   If the worker stores a record that reports missing required fields, then the accepted
   response had too few listing signals, or every schema-valid response of the tried models
   lacked some of them.
   */
  lemma MissingFieldsWereUnavoidable(
      w: World, key: string, st: Settings, schema: Schema, env: Env, required: seq<FieldName>,
      models: seq<string>, outcomes: seq<Client.Outcome>, answer: Client.Completion)
    requires NeedsModel(w, key, env) && answer.Returned? && |models| == |outcomes|
    requires Client.Completes(models, Client.Steps(Judge(RequestFor(st, schema, required)), outcomes), answer)
    requires ReportsMissing(Deliver(w, key, st, env, required, answer).0, key)
    ensures var req := RequestFor(st, schema, required);
            Decide(req, answer.response).reason.InsufficientSignals?
            || forall i :: 0 <= i < |answer.attempts| <= |outcomes| && outcomes[i].Reply? ==>
                 var v := Validated(req, outcomes[i].response.content);
                 v.Valid? ==> MissingFields(v.content, required) != []
  {
    var req := RequestFor(st, schema, required);
    var steps, k := Client.Steps(Judge(req), outcomes), |answer.attempts|;
    MissingFieldsOfAnswer(w, key, st, env, required, answer);
    Client.ReturnedWasAcceptedOrBest(models, steps, answer.response, answer.attempts);
    if Client.Exhausted(steps, k) {
      var b: nat :| Client.BestStage(steps, k, b) && answer.response == steps[b].response;
      forall i | 0 <= i < k && outcomes[i].Reply? && Validated(req, outcomes[i].response.content).Valid?
        ensures MissingFields(Validated(req, outcomes[i].response.content).content, required) != []
      {
        BestIsIncomplete(st, schema, required, outcomes, k, b, i);
      }
    } else {
      AcceptedThoughMissing(st, schema, required, answer.response);
    }
  }

  lemma MissingFieldsOfAnswer(w: World, key: string, st: Settings, env: Env, required: seq<FieldName>,
                              answer: Client.Completion)
    requires NeedsModel(w, key, env) && answer.Returned?
    requires ReportsMissing(Deliver(w, key, st, env, required, answer).0, key)
    ensures var content := st.validator(answer.response.content);
            content.Some? && MissingFields(content.value, required) != []
            && RentalVerdict(st, content.value, answer.response).None?
  {
  }

  /** With required fields missing, only a lack of listing signals makes the client accept a rental. */
  lemma AcceptedThoughMissing(st: Settings, schema: Schema, required: seq<FieldName>, response: Response)
    requires var content := st.validator(response.content);
             content.Some? && MissingFields(content.value, required) != []
             && RentalVerdict(st, content.value, response).None?
    requires !Decide(RequestFor(st, schema, required), response).retry
    ensures Decide(RequestFor(st, schema, required), response).reason.InsufficientSignals?
  {
    ClientSawTheSameContent(st, schema, required, response);
  }

  /** A greatest rank without all required fields leaves no reply with all of them. */
  lemma BestIsIncomplete(st: Settings, schema: Schema, required: seq<FieldName>, outcomes: seq<Client.Outcome>,
                         k: nat, b: nat, i: nat)
    requires k <= |outcomes| && i < k
    requires var req := RequestFor(st, schema, required);
             var steps := Client.Steps(Judge(req), outcomes);
             && Client.Exhausted(steps, k) && Client.BestStage(steps, k, b)
             && outcomes[i].Reply? && Validated(req, outcomes[i].response.content).Valid?
             && (var content := st.validator(steps[b].response.content);
                 content.Some? && MissingFields(content.value, required) != [])
    ensures MissingFields(Validated(RequestFor(st, schema, required), outcomes[i].response.content).content,
                          required) != []
  {
    var req := RequestFor(st, schema, required);
    var steps := Client.Steps(Judge(req), outcomes);
    assert steps[i] == Client.StepOf(Judge(req), outcomes[i]);
    assert steps[b] == Client.StepOf(Judge(req), outcomes[b]);
    ClientSawTheSameContent(st, schema, required, steps[b].response);
    RetriedIsUsable(req, steps[i].response);
    assert !Client.Less(Client.RankAt(steps[b]), Client.RankAt(steps[i]));
    CompleteRank(req, steps[i].response);
    CompleteRank(req, steps[b].response);
  }

  lemma RetriedIsUsable(req: Request, response: Response)
    requires req.policy.ListingQuality? && Validated(req, response.content).Valid?
    ensures Decide(req, response).returnable
  {
  }

  /** The first component of the rank says whether all required fields are there. */
  lemma CompleteRank(req: Request, response: Response)
    requires req.policy.ListingQuality?
    ensures var v, rank := Validated(req, response.content), Decide(req, response).rank;
            rank.complete == if v.Valid? && MissingFields(v.content, req.required) == [] then 1 else 0
  {
  }
}

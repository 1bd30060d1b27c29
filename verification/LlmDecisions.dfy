/**
 What the fallback client decides about one response: accept it, or try the next model;
 whether it may be returned at all; and how good it is.
 */
module LlmDecisions {
  import opened Options
  import PythonText

  /** A field of an extracted listing, as far as the decisions look at it. */
  datatype Field =
    | Nothing | Listing(kind: Kind) | Text(text: string) | Flag(flag: bool) | Items(count: nat) | Number(number: real)

  /** The field names the decisions mention, and any other name. */
  datatype FieldName =
    | IsRentalAnnouncement | ListingType | RentalConfidence
    | Price | Rooms | AreaSqm | District | Address | PhoneNumbers | Floor | TotalFloors
    | OtherField(name: string)

  datatype Kind = Rent | Sale

  type Content = map<FieldName, Field>

  datatype Policy = ConfidenceOnly | ListingQuality

  datatype Schema = Schema(required: seq<FieldName>, properties: Option<set<FieldName>>, open_: bool)

  /** The validator returns the validated content, or nothing when it raises. */
  datatype Request = Request(
    minConfidence: real, policy: Policy, required: seq<FieldName>, schema: Schema,
    validator: Option<Content -> Option<Content>>)

  datatype Response = Response(content: Content, confidence: real)

  datatype Status = Success | LowConfidence | InvalidSchema | Conflict | Incomplete | Failed

  datatype Reason =
    | ConfidenceMet | ConfidenceBelow
    | SchemaFieldMissing | SchemaUnknownField | SchemaValidationFailed
    | Contradictory | NonRental | InsufficientSignals | RequiredMissing(fields: seq<FieldName>)
    | PlausibleIncomplete | RequiredComplete | PlausibleLowConfidence | GatePassed
    | RetryableTransport | PermanentTransport | MalformedResponse | ModelError

  /** Compared lexicographically. */
  datatype Rank = Rank(complete: int, present: int, rental: int, signals: int, confidence: real)

  datatype Decision = Decision(retry: bool, returnable: bool, status: Status, reason: Reason, rank: Rank)

  // ---------------------------------------------------------------- decisions

  function Get(content: Content, name: FieldName): Field {
    if name in content then content[name] else Nothing
  }

  predicate Meaningful(f: Field) {
    match f
    case Nothing => false
    case Text(t) => PythonText.Strip(t) != []
    case Items(n) => n > 0
    case _ => true
  }

  const CORE_SIGNALS := [Price, Rooms, AreaSqm, District, Address, PhoneNumbers, Floor, TotalFloors]

  function CountMeaningful(content: Content, names: seq<FieldName>): nat {
    if names == [] then 0
    else (if Meaningful(Get(content, names[0])) then 1 else 0) + CountMeaningful(content, names[1..])
  }

  function MissingFields(content: Content, names: seq<FieldName>): seq<FieldName> {
    if names == [] then []
    else (if Meaningful(Get(content, names[0])) then [] else [names[0]]) + MissingFields(content, names[1..])
  }

  datatype Validation = Valid(content: Content) | Invalid(reason: Reason)

  function Validated(req: Request, content: Content): Validation {
    if exists n :: n in req.schema.required && n !in content then Invalid(SchemaFieldMissing)
    else if !req.schema.open_ && req.schema.properties.Some?
            && exists n :: n in content && n !in req.schema.properties.value then Invalid(SchemaUnknownField)
    else if req.validator.None? then Valid(content)
    else
      var r := req.validator.value(content);
      if r.Some? then Valid(r.value) else Invalid(SchemaValidationFailed)
  }

  predicate SaysRental(content: Content) { Get(content, IsRentalAnnouncement) == Flag(true) }
  predicate SaysNotRental(content: Content) { Get(content, IsRentalAnnouncement) == Flag(false) }
  predicate Listed(content: Content, kind: Kind) { Get(content, ListingType) == Listing(kind) }

  predicate Contradicts(content: Content) {
    (SaysRental(content) && Listed(content, Sale)) || (SaysNotRental(content) && Listed(content, Rent))
  }

  function QualityRank(req: Request, content: Content, confidence: real): Rank {
    var missing := |MissingFields(content, req.required)|;
    Rank(if missing == 0 then 1 else 0,
         |req.required| - missing,
         if SaysRental(content) then 2 else if Listed(content, Rent) then 1 else 0,
         CountMeaningful(content, CORE_SIGNALS),
         confidence)
  }

  function ListingDecision(req: Request, response: Response): Decision {
    match Validated(req, response.content)
    case Invalid(reason) => Decision(true, false, InvalidSchema, reason, Rank(0, 0, 0, 0, response.confidence))
    case Valid(content) =>
      var signals := CountMeaningful(content, CORE_SIGNALS);
      var missing := MissingFields(content, req.required);
      var rank := QualityRank(req, content, response.confidence);
      var status := if response.confidence >= req.minConfidence then Success else LowConfidence;
      if Contradicts(content) then Decision(false, true, Conflict, Contradictory, rank)
      else if SaysNotRental(content) || Listed(content, Sale) then Decision(false, true, status, NonRental, rank)
      else if !(SaysRental(content) || Listed(content, Rent) || signals >= 2) then
        Decision(false, true, status, InsufficientSignals, rank)
      else if missing != [] then Decision(true, true, Incomplete, RequiredMissing(missing), rank)
      else if signals < 2 then
        Decision(true, true, if status == LowConfidence then LowConfidence else Incomplete, PlausibleIncomplete, rank)
      else if response.confidence < req.minConfidence then
        if req.required != [] then Decision(false, true, LowConfidence, RequiredComplete, rank)
        else Decision(true, true, LowConfidence, PlausibleLowConfidence, rank)
      else Decision(false, true, Success, GatePassed, rank)
  }

  function Decide(req: Request, response: Response): Decision {
    var rank := Rank(0, 0, 0, 0, response.confidence);
    if req.policy.ListingQuality? then ListingDecision(req, response)
    else if response.confidence >= req.minConfidence then Decision(false, true, Success, ConfidenceMet, rank)
    else Decision(true, false, LowConfidence, ConfidenceBelow, rank)
  }

  /** The client's judgement of responses to one request. */
  function Judge(req: Request): Response -> Decision {
    response => Decide(req, response)
  }

  /** A confident rental with all required fields and two core signals is accepted. */
  lemma CompleteRentalPasses(req: Request, response: Response, content: Content)
    requires req.policy.ListingQuality? && Validated(req, response.content) == Valid(content)
    requires SaysRental(content) && !Listed(content, Sale) && MissingFields(content, req.required) == []
    requires CountMeaningful(content, CORE_SIGNALS) >= 2 && response.confidence >= req.minConfidence
    ensures var d := Decide(req, response); !d.retry && d.status == Success && d.reason == GatePassed
  {
  }

  // ---------------------------------------------------------------- what the decisions mean

  /** A value counts unless it is missing, a text of white space only, or an empty collection. */
  lemma MeaningfulIff(f: Field)
    ensures Meaningful(f) <==>
            f != Nothing && f != Items(0) && (f.Text? ==> exists c :: c in f.text && !PythonText.IsSpace(c))
  {
    if f.Text? {
      PythonText.BlankStripsToNothing(f.text);
    }
  }

  /** The missing fields are the listed ones without such a value, in the order of the list. */
  lemma {:induction false} MissingAreMissing(content: Content, names: seq<FieldName>)
    ensures forall n :: n in MissingFields(content, names) <==> n in names && !Meaningful(Get(content, n))
    ensures |MissingFields(content, names)| + CountMeaningful(content, names) == |names|
  {
    if names != [] {
      MissingAreMissing(content, names[1..]);
    }
  }

  function One(content: Content, name: FieldName): nat {
    if Meaningful(Get(content, name)) then 1 else 0
  }

  /** Number of core fields with a value. */
  function Signals(content: Content): nat {
    One(content, Price) + One(content, Rooms) + One(content, AreaSqm) + One(content, District)
    + One(content, Address) + One(content, PhoneNumbers) + One(content, Floor) + One(content, TotalFloors)
  }

  lemma CountFirst(content: Content, name: FieldName, rest: seq<FieldName>)
    ensures CountMeaningful(content, [name] + rest) == One(content, name) + CountMeaningful(content, rest)
  {
    assert ([name] + rest)[1..] == rest;
  }

  lemma SignalsCounted(content: Content)
    ensures CountMeaningful(content, CORE_SIGNALS) == Signals(content)
  {
    var floors := [Floor] + ([TotalFloors] + []);
    var contacts := [Address] + ([PhoneNumbers] + floors);
    var sizes := [AreaSqm] + ([District] + contacts);
    assert CORE_SIGNALS == [Price] + ([Rooms] + sizes);
    CountFirst(content, Price, [Rooms] + sizes);
    CountFirst(content, Rooms, sizes);
    CountFirst(content, AreaSqm, [District] + contacts);
    CountFirst(content, District, contacts);
    CountFirst(content, Address, [PhoneNumbers] + floors);
    CountFirst(content, PhoneNumbers, floors);
    CountFirst(content, Floor, [TotalFloors] + []);
    CountFirst(content, TotalFloors, []);
  }

  /** Whether a response says rental, not rental, for rent, for sale. */
  datatype Claims = Claims(rental: bool, notRental: bool, rent: bool, sale: bool)

  function ClaimsOf(content: Content): Claims {
    Claims(Get(content, IsRentalAnnouncement) == Flag(true), Get(content, IsRentalAnnouncement) == Flag(false),
           Get(content, ListingType) == Listing(Rent), Get(content, ListingType) == Listing(Sale))
  }

  /** All required fields have a value. */
  ghost predicate Complete(req: Request, content: Content) {
    forall n :: n in req.required ==> Meaningful(Get(content, n))
  }

  lemma CompleteIff(req: Request, content: Content)
    ensures Complete(req, content) <==> MissingFields(content, req.required) == []
  {
    MissingAreMissing(content, req.required);
    var missing := MissingFields(content, req.required);
    if missing != [] {
      assert missing[0] in missing;
    }
  }

  /**
   A schema-valid listing answer ends the loop exactly when it contradicts itself, denies a
   rental, is no plausible listing, or is complete with two signals and either confident or
   judged against required fields.
   */
  lemma EndsLoopIff(req: Request, response: Response, content: Content)
    requires req.policy.ListingQuality? && Validated(req, response.content) == Valid(content)
    ensures var said := ClaimsOf(content);
            !Decide(req, response).retry <==>
            || (said.rental && said.sale) || (said.notRental && said.rent)
            || said.notRental || said.sale
            || (!said.rental && !said.rent && Signals(content) < 2)
            || (Complete(req, content) && Signals(content) >= 2
                && (response.confidence >= req.minConfidence || req.required != []))
    ensures Decide(req, response).returnable
  {
    SignalsCounted(content);
    CompleteIff(req, content);
  }

  /** Which reason is given, each with its own condition. */
  lemma ReasonIff(req: Request, response: Response, content: Content)
    requires req.policy.ListingQuality? && Validated(req, response.content) == Valid(content)
    ensures var said, reason := ClaimsOf(content), Decide(req, response).reason;
            var rentable := !said.notRental && !said.sale;
            var plausible := said.rental || said.rent || Signals(content) >= 2;
            var confident := response.confidence >= req.minConfidence;
            && (reason == Contradictory <==> (said.rental && said.sale) || (said.notRental && said.rent))
            && (reason == NonRental <==> !rentable && !(said.rental && said.sale) && !(said.notRental && said.rent))
            && (reason == InsufficientSignals <==> rentable && !plausible)
            && (reason.RequiredMissing? <==> rentable && plausible && !Complete(req, content))
            && (reason == PlausibleIncomplete <==>
                  rentable && plausible && Complete(req, content) && Signals(content) < 2)
            && (reason == RequiredComplete <==>
                  rentable && Complete(req, content) && Signals(content) >= 2 && !confident && req.required != [])
            && (reason == PlausibleLowConfidence <==>
                  rentable && Signals(content) >= 2 && !confident && req.required == [])
            && (reason == GatePassed <==>
                  rentable && Complete(req, content) && Signals(content) >= 2 && confident)
            && (reason.RequiredMissing? ==>
                  forall n :: n in reason.fields <==> n in req.required && !Meaningful(Get(content, n)))
  {
    SignalsCounted(content);
    CompleteIff(req, content);
    MissingAreMissing(content, req.required);
  }

  /** The status: conflicts and missing fields by themselves, else by confidence. */
  lemma StatusIff(req: Request, response: Response, content: Content)
    requires req.policy.ListingQuality? && Validated(req, response.content) == Valid(content)
    ensures var d, confident := Decide(req, response), response.confidence >= req.minConfidence;
            && (d.status == Conflict <==> d.reason == Contradictory)
            && (d.status == Incomplete <==> d.reason.RequiredMissing? || (d.reason == PlausibleIncomplete && confident))
            && (d.status == Success ==> confident)
            && (d.status == LowConfidence ==> !confident)
            && d.status in {Conflict, Incomplete, Success, LowConfidence}
  {
  }

  /** The rank: completeness, required fields present, how rental it says it is, signals, confidence. */
  lemma RankMeans(req: Request, response: Response, content: Content)
    requires req.policy.ListingQuality? && Validated(req, response.content) == Valid(content)
    ensures var said, rank := ClaimsOf(content), Decide(req, response).rank;
            && rank.complete == (if Complete(req, content) then 1 else 0)
            && rank.present == CountMeaningful(content, req.required)
            && (rank.rental == 2 <==> said.rental) && (rank.rental == 1 <==> !said.rental && said.rent)
            && (rank.rental == 0 <==> !said.rental && !said.rent)
            && rank.signals == Signals(content) && rank.confidence == response.confidence
  {
    SignalsCounted(content);
    CompleteIff(req, content);
    MissingAreMissing(content, req.required);
    assert Decide(req, response).rank == QualityRank(req, content, response.confidence);
  }

  /** A response is invalid for a required field that is absent, an unknown field, or a refusal by the validator. */
  lemma ValidIff(req: Request, content: Content)
    ensures var v := Validated(req, content);
            var absent := exists n :: n in req.schema.required && n !in content;
            var unknown := !req.schema.open_ && req.schema.properties.Some?
                           && exists n :: n in content && n !in req.schema.properties.value;
            var refused := req.validator.Some? && req.validator.value(content) == None;
            && (v.Valid? <==> !absent && !unknown && !refused)
            && (v.Valid? ==>
                  Some(v.content) == if req.validator.Some? then req.validator.value(content) else Some(content))
            && (v == Invalid(SchemaFieldMissing) <==> absent)
            && (v == Invalid(SchemaUnknownField) <==> !absent && unknown)
            && (v == Invalid(SchemaValidationFailed) <==> !absent && !unknown && refused)
  {
  }

  /** An invalid response is tried again and never returned. */
  lemma InvalidIsDropped(req: Request, response: Response)
    requires req.policy.ListingQuality? && Validated(req, response.content).Invalid?
    ensures var d := Decide(req, response);
            d.retry && !d.returnable && d.status == InvalidSchema && d.reason == Validated(req, response.content).reason
            && d.rank == Rank(0, 0, 0, 0, response.confidence)
  {
  }

  /** Without the listing policy only the confidence decides. */
  lemma ConfidenceDecides(req: Request, response: Response)
    requires req.policy.ConfidenceOnly?
    ensures var d := Decide(req, response);
            && (!d.retry <==> response.confidence >= req.minConfidence) && d.returnable == !d.retry
            && d.rank == Rank(0, 0, 0, 0, response.confidence)
            && (d.reason, d.status) == if d.retry then (ConfidenceBelow, LowConfidence) else (ConfidenceMet, Success)
  {
  }
}

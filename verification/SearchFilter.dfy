/**
 The search compiler: `_where` turns criteria into SQL conditions over numbered
 placeholders plus the list of their values.  The conditions are given PostgreSQL's
 three-valued meaning here and compared with the plain filter of the in-memory search.
 */
module SearchFilter {
  import opened Options

  datatype Sort = Newest | Cheapest | PriceDesc

  datatype Criteria = Criteria(
    minPrice: Option<real>, maxPrice: Option<real>, includePerPerson: bool, districts: seq<string>,
    rooms: Option<int>, renovation: Option<string>, audienceTag: Option<string>,
    sort: Sort, limit: nat, offset: nat)

  /** The searched columns of one announcement row. */
  datatype Row = Row(
    id: int, createdAt: int, parent: Option<int>, status: string, pricePeriod: string, priceBasis: string,
    monthly: Option<real>, district: Option<string>, rooms: Option<int>, renovation: Option<string>,
    audienceTags: seq<string>, excludedTags: seq<string>)

  // ---------------------------------------------------------------- SQL

  datatype Value = Null | Text(text: string) | Number(number: real) | Whole(whole: int) | Texts(texts: seq<string>)

  datatype Column =
    | ParentId | Status | PricePeriod | PriceBasis | Monthly | District | Rooms | Renovation
    | AudienceTags | AudienceExcludedTags

  datatype Expr = Col(column: Column) | Lit(value: Value) | Param(number: nat) | Lower(arg: Expr)

  datatype Clause =
    | IsNull(e: Expr)
    | Equal(left: Expr, right: Expr)
    | AtLeast(left: Expr, right: Expr)
    | AtMost(left: Expr, right: Expr)
    | AnyOf(e: Expr, list: Expr)
    | Not(clause: Clause)

  datatype Truth = True | False | Unknown

  /** A `where` text, its conditions joined by `and`, with the parameter list. */
  datatype Query = Query(clauses: seq<Clause>, params: seq<Value>)

  function OfOption(o: Option<string>): Value {
    if o.Some? then Text(o.value) else Null
  }

  function ColumnValue(row: Row, c: Column): Value {
    match c
    case ParentId => if row.parent.Some? then Whole(row.parent.value) else Null
    case Status => Text(row.status)
    case PricePeriod => Text(row.pricePeriod)
    case PriceBasis => Text(row.priceBasis)
    case Monthly => if row.monthly.Some? then Number(row.monthly.value) else Null
    case District => OfOption(row.district)
    case Rooms => if row.rooms.Some? then Whole(row.rooms.value) else Null
    case Renovation => OfOption(row.renovation)
    case AudienceTags => Texts(row.audienceTags)
    case AudienceExcludedTags => Texts(row.excludedTags)
  }

  function Eval(e: Expr, params: seq<Value>, lower: string -> string, row: Row): Value {
    match e
    case Col(c) => ColumnValue(row, c)
    case Lit(v) => v
    case Param(k) => if 1 <= k <= |params| then params[k - 1] else Null
    case Lower(arg) =>
      var v := Eval(arg, params, lower, row);
      if v.Text? then Text(lower(v.text)) else Null
  }

  function OfBool(b: bool): Truth {
    if b then True else False
  }

  /** NULL operands make a comparison unknown. */
  function Holds(c: Clause, params: seq<Value>, lower: string -> string, row: Row): Truth {
    match c
    case IsNull(e) => OfBool(Eval(e, params, lower, row).Null?)
    case Equal(l, r) =>
      var a, b := Eval(l, params, lower, row), Eval(r, params, lower, row);
      if a.Null? || b.Null? then Unknown else OfBool(a == b)
    case AtLeast(l, r) =>
      var a, b := Eval(l, params, lower, row), Eval(r, params, lower, row);
      if a.Number? && b.Number? then OfBool(a.number >= b.number) else Unknown
    case AtMost(l, r) =>
      var a, b := Eval(l, params, lower, row), Eval(r, params, lower, row);
      if a.Number? && b.Number? then OfBool(a.number <= b.number) else Unknown
    case AnyOf(e, list) =>
      var a, b := Eval(e, params, lower, row), Eval(list, params, lower, row);
      if !b.Texts? then Unknown
      else if b.texts == [] then False
      else if a.Text? then OfBool(a.text in b.texts) else Unknown
    case Not(d) =>
      (match Holds(d, params, lower, row)
       case True => False
       case False => True
       case Unknown => Unknown)
  }

  /** A row is selected when every condition is true, not merely unknown. */
  predicate Selected(q: Query, lower: string -> string, row: Row) {
    forall i :: 0 <= i < |q.clauses| ==> Holds(q.clauses[i], q.params, lower, row) == True
  }

  /** A comparison with NULL on either side is neither true nor false, and neither is its negation. */
  lemma NullIsUnknown(l: Expr, r: Expr, params: seq<Value>, lower: string -> string, row: Row)
    requires Eval(l, params, lower, row) == Null
    ensures Holds(Equal(l, r), params, lower, row) == Holds(Equal(r, l), params, lower, row) == Unknown
    ensures Holds(AtLeast(l, r), params, lower, row) == Holds(AtLeast(r, l), params, lower, row) == Unknown
    ensures Holds(AtMost(l, r), params, lower, row) == Holds(AtMost(r, l), params, lower, row) == Unknown
    ensures Holds(AnyOf(r, l), params, lower, row) == Unknown
    ensures Eval(r, params, lower, row).Texts? ==>
              Holds(AnyOf(l, r), params, lower, row)
              == if Eval(r, params, lower, row) == Texts([]) then False else Unknown
    ensures Holds(Not(Equal(l, r)), params, lower, row) == Unknown
    ensures Holds(IsNull(l), params, lower, row) == True
  {
  }

  // ---------------------------------------------------------------- placeholders

  function Placeholders(e: Expr): set<nat> {
    match e
    case Param(k) => {k}
    case Lower(arg) => Placeholders(arg)
    case _ => {}
  }

  function Numbers(c: Clause): set<nat> {
    match c
    case IsNull(e) => Placeholders(e)
    case Equal(l, r) => Placeholders(l) + Placeholders(r)
    case AtLeast(l, r) => Placeholders(l) + Placeholders(r)
    case AtMost(l, r) => Placeholders(l) + Placeholders(r)
    case AnyOf(e, list) => Placeholders(e) + Placeholders(list)
    case Not(d) => Numbers(d)
  }

  /** Placeholders are exactly 1..n: none out of range, none unused. */
  ghost predicate WellNumbered(q: Query) {
    && (forall i, k :: 0 <= i < |q.clauses| && k in Numbers(q.clauses[i]) ==> 1 <= k <= |q.params|)
    && (forall k: nat :: 1 <= k <= |q.params| ==> Uses(q.clauses, k))
  }

  ghost predicate Uses(clauses: seq<Clause>, k: nat) {
    exists i :: 0 <= i < |clauses| && k in Numbers(clauses[i])
  }

  // ---------------------------------------------------------------- the compiler

  const BASE := [
    IsNull(Col(ParentId)),
    Equal(Col(Status), Lit(Text("active"))),
    AnyOf(Col(PricePeriod), Lit(Texts(["daily", "monthly"])))]

  /** The number that the next parameter gets. */
  function Fresh(q: Query): nat { |q.params| + 1 }

  /** Adds a parameter and the conditions that mention it by its new number. */
  function Bind(q: Query, v: Value, clauses: seq<Clause>): Query {
    Query(q.clauses + clauses, q.params + [v])
  }

  function TotalOnly(q: Query, c: Criteria): Query {
    if c.includePerPerson then q else q.(clauses := q.clauses + [Equal(Col(PriceBasis), Lit(Text("total")))])
  }

  function MinPrice(q: Query, c: Criteria): Query {
    if c.minPrice.None? then q
    else Bind(q, Number(c.minPrice.value), [AtLeast(Col(Monthly), Param(Fresh(q)))])
  }

  function MaxPrice(q: Query, c: Criteria): Query {
    if c.maxPrice.None? then q
    else Bind(q, Number(c.maxPrice.value), [AtMost(Col(Monthly), Param(Fresh(q)))])
  }

  function Map(f: string -> string, s: seq<string>): (r: seq<string>)
    ensures |r| == |s|
  {
    if s == [] then [] else [f(s[0])] + Map(f, s[1..])
  }

  function OneDistrict(n: nat): Clause { Equal(Lower(Col(District)), Lower(Param(n))) }

  function ManyDistricts(n: nat): Clause { AnyOf(Lower(Col(District)), Param(n)) }

  function Districts(q: Query, c: Criteria, casefold: string -> string): Query {
    if c.districts == [] then q
    else if |c.districts| == 1 then Bind(q, Text(c.districts[0]), [OneDistrict(Fresh(q))])
    else Bind(q, Texts(Map(casefold, c.districts)), [ManyDistricts(Fresh(q))])
  }

  function RoomCount(q: Query, c: Criteria): Query {
    if c.rooms.None? then q else Bind(q, Whole(c.rooms.value), [Equal(Col(Rooms), Param(Fresh(q)))])
  }

  function RenovationLevel(q: Query, c: Criteria): Query {
    if c.renovation.None? then q
    else Bind(q, Text(c.renovation.value), [Equal(Col(Renovation), Param(Fresh(q)))])
  }

  function Audience(q: Query, c: Criteria): Query {
    if c.audienceTag.None? then q
    else
      var r := Bind(q, Text(c.audienceTag.value), [AnyOf(Param(Fresh(q)), Col(AudienceTags))]);
      r.(clauses := r.clauses + [Not(AnyOf(Param(Fresh(q)), Col(AudienceExcludedTags)))])
  }

  function Compile(c: Criteria, casefold: string -> string): Query {
    var q := TotalOnly(Query(BASE, []), c);
    Audience(RenovationLevel(RoomCount(Districts(MaxPrice(MinPrice(q, c), c), c, casefold), c), c), c)
  }

  /** The compiler as written: one growing list of conditions and one of parameters. */
  method Where(c: Criteria, casefold: string -> string) returns (clauses: seq<Clause>, params: seq<Value>)
    ensures Query(clauses, params) == Compile(c, casefold)
  {
    clauses, params := BASE, [];
    ghost var q := Query(BASE, []);
    if !c.includePerPerson {
      clauses := clauses + [Equal(Col(PriceBasis), Lit(Text("total")))];
    }
    q := TotalOnly(q, c);
    assert clauses == q.clauses && params == q.params;
    if c.minPrice.Some? {
      params := params + [Number(c.minPrice.value)];
      clauses := clauses + [AtLeast(Col(Monthly), Param(|params|))];
    }
    q := MinPrice(q, c);
    assert clauses == q.clauses && params == q.params;
    if c.maxPrice.Some? {
      params := params + [Number(c.maxPrice.value)];
      clauses := clauses + [AtMost(Col(Monthly), Param(|params|))];
    }
    q := MaxPrice(q, c);
    assert clauses == q.clauses && params == q.params;
    if c.districts != [] {
      var districtValues := Map(casefold, c.districts);
      if |districtValues| == 1 {
        params := params + [Text(c.districts[0])];
        clauses := clauses + [Equal(Lower(Col(District)), Lower(Param(|params|)))];
      } else {
        params := params + [Texts(districtValues)];
        clauses := clauses + [AnyOf(Lower(Col(District)), Param(|params|))];
      }
    }
    q := Districts(q, c, casefold);
    assert clauses == q.clauses && params == q.params;
    clauses, params := AppendDetails(clauses, params, c);
  }

  /** The second half of `_where`: rooms, renovation and audience. */
  method AppendDetails(clauses0: seq<Clause>, params0: seq<Value>, c: Criteria)
    returns (clauses: seq<Clause>, params: seq<Value>)
    ensures Query(clauses, params) == Audience(RenovationLevel(RoomCount(Query(clauses0, params0), c), c), c)
  {
    clauses, params := clauses0, params0;
    ghost var q := Query(clauses, params);
    if c.rooms.Some? {
      params := params + [Whole(c.rooms.value)];
      clauses := clauses + [Equal(Col(Rooms), Param(|params|))];
    }
    q := RoomCount(q, c);
    assert clauses == q.clauses && params == q.params;
    if c.renovation.Some? {
      params := params + [Text(c.renovation.value)];
      clauses := clauses + [Equal(Col(Renovation), Param(|params|))];
    }
    q := RenovationLevel(q, c);
    assert clauses == q.clauses && params == q.params;
    if c.audienceTag.Some? {
      params := params + [Text(c.audienceTag.value)];
      var idx := |params|;
      clauses := clauses + [AnyOf(Param(idx), Col(AudienceTags))];
      clauses := clauses + [Not(AnyOf(Param(idx), Col(AudienceExcludedTags)))];
    }
    q := Audience(q, c);
    assert clauses == q.clauses && params == q.params;
  }

  // ---------------------------------------------------------------- the plain filter

  /** The folded name of a row's district; a missing district folds like the empty name. */
  function FoldedDistrict(row: Row, casefold: string -> string): string {
    casefold(if row.district.Some? then row.district.value else "")
  }

  /** `announcement_matches` of the in-memory search, which folds case with `casefold`. */
  predicate Matches(c: Criteria, casefold: string -> string, row: Row) {
    && row.status == "active" && row.parent.None?
    && row.pricePeriod != "one_time"
    && (row.priceBasis == "per_person" ==> c.includePerPerson)
    && (c.minPrice.Some? || c.maxPrice.Some? ==> row.monthly.Some?)
    && (c.minPrice.Some? ==> row.monthly.value >= c.minPrice.value)
    && (c.maxPrice.Some? ==> row.monthly.value <= c.maxPrice.value)
    && (c.districts != [] ==> FoldedDistrict(row, casefold) in Map(casefold, c.districts))
    && (c.rooms.Some? ==> row.rooms == c.rooms)
    && (c.renovation.Some? ==> row.renovation == c.renovation)
    && (c.audienceTag.Some? ==>
          c.audienceTag.value in Map(casefold, row.audienceTags)
          && c.audienceTag.value !in Map(casefold, row.excludedTags))
  }

  /** What the table's check constraints and the writers of tags guarantee of a row. */
  ghost predicate Stored(row: Row, casefold: string -> string) {
    && row.pricePeriod in ["daily", "monthly", "one_time"]
    && row.priceBasis in ["total", "per_person"]
    && (forall t :: t in row.audienceTags || t in row.excludedTags ==> casefold(t) == t)
  }

  /** Python's and PostgreSQL's folding agree on the names compared; selected names are not empty. */
  ghost predicate FoldsAgree(c: Criteria, lower: string -> string, casefold: string -> string, row: Row) {
    && (row.district.Some? ==> lower(row.district.value) == casefold(row.district.value))
    && (forall d :: d in c.districts ==> lower(d) == casefold(d) && casefold(d) != casefold(""))
  }

  // ---------------------------------------------------------------- proofs

  /** Binding one more parameter keeps the meaning of conditions that do not mention it. */
  lemma EvalIgnoresLaterParams(e: Expr, params: seq<Value>, v: Value, lower: string -> string, row: Row)
    requires forall k :: k in Placeholders(e) ==> 1 <= k <= |params|
    ensures Eval(e, params + [v], lower, row) == Eval(e, params, lower, row)
  {
    match e {
      case Param(k) => assert k in Placeholders(e);
      case Lower(arg) =>
        assert Placeholders(arg) == Placeholders(e);
        EvalIgnoresLaterParams(arg, params, v, lower, row);
      case _ =>
    }
  }

  lemma {:induction false} HoldsIgnoresLaterParams(c: Clause, params: seq<Value>, v: Value, lower: string -> string,
                                                   row: Row)
    requires forall k :: k in Numbers(c) ==> 1 <= k <= |params|
    ensures Holds(c, params + [v], lower, row) == Holds(c, params, lower, row)
  {
    match c {
      case IsNull(e) =>
        assert Placeholders(e) == Numbers(c);
        EvalIgnoresLaterParams(e, params, v, lower, row);
      case Not(d) =>
        assert Numbers(d) == Numbers(c);
        HoldsIgnoresLaterParams(d, params, v, lower, row);
      case AnyOf(l, r) =>
        assert Placeholders(l) <= Numbers(c) && Placeholders(r) <= Numbers(c);
        EvalIgnoresLaterParams(l, params, v, lower, row);
        EvalIgnoresLaterParams(r, params, v, lower, row);
      case _ =>
        assert Placeholders(c.left) <= Numbers(c) && Placeholders(c.right) <= Numbers(c);
        EvalIgnoresLaterParams(c.left, params, v, lower, row);
        EvalIgnoresLaterParams(c.right, params, v, lower, row);
    }
  }

  /** A condition over the newest parameter, or over none. */
  lemma ConditionAdds(q: Query, params: seq<Value>, d: Clause, lower: string -> string, row: Row)
    requires params == q.params || (|params| == Fresh(q) && params[..|q.params|] == q.params)
    requires forall i, k :: 0 <= i < |q.clauses| && k in Numbers(q.clauses[i]) ==> 1 <= k <= |q.params|
    ensures Selected(Query(q.clauses + [d], params), lower, row) <==>
            Selected(q, lower, row) && Holds(d, params, lower, row) == True
  {
    var r := Query(q.clauses + [d], params);
    assert r.clauses[|q.clauses|] == d;
    forall i | 0 <= i < |q.clauses|
      ensures r.clauses[i] == q.clauses[i]
      ensures Holds(q.clauses[i], params, lower, row) == Holds(q.clauses[i], q.params, lower, row)
    {
      if params != q.params {
        assert params == q.params + [params[|q.params|]];
        HoldsIgnoresLaterParams(q.clauses[i], q.params, params[|q.params|], lower, row);
      }
    }
    assert Selected(r, lower, row) ==>
             forall i :: 0 <= i < |q.clauses| ==> Holds(r.clauses[i], params, lower, row) == True;
  }

  lemma MoreClausesUseMore(a: seq<Clause>, b: seq<Clause>, k: nat)
    requires Uses(a, k)
    ensures Uses(a + b, k)
  {
    var i :| 0 <= i < |a| && k in Numbers(a[i]);
    assert (a + b)[i] == a[i];
  }

  /** Binding a parameter adds one condition over its own number and nothing else. */
  lemma BindAdds(q: Query, v: Value, d: Clause, lower: string -> string, row: Row)
    requires WellNumbered(q) && Numbers(d) == {Fresh(q)}
    ensures WellNumbered(Bind(q, v, [d]))
    ensures Selected(Bind(q, v, [d]), lower, row) <==>
            Selected(q, lower, row) && Holds(d, q.params + [v], lower, row) == True
  {
    ConditionAdds(q, q.params + [v], d, lower, row);
    forall k: nat | 1 <= k <= Fresh(q) ensures Uses(q.clauses + [d], k) {
      if k < Fresh(q) {
        MoreClausesUseMore(q.clauses, [d], k);
      } else {
        assert k in Numbers((q.clauses + [d])[|q.clauses|]);
      }
    }
  }

  lemma FixedAdds(q: Query, d: Clause, lower: string -> string, row: Row)
    requires WellNumbered(q) && forall k :: k in Numbers(d) ==> 1 <= k <= |q.params|
    ensures var r := q.(clauses := q.clauses + [d]);
            WellNumbered(r)
            && (Selected(r, lower, row) <==> Selected(q, lower, row) && Holds(d, q.params, lower, row) == True)
  {
    ConditionAdds(q, q.params, d, lower, row);
    forall k: nat | 1 <= k <= |q.params| ensures Uses(q.clauses + [d], k) {
      MoreClausesUseMore(q.clauses, [d], k);
    }
  }

  lemma BaseMeaning(lower: string -> string, row: Row)
    ensures WellNumbered(Query(BASE, []))
    ensures Selected(Query(BASE, []), lower, row) <==>
            row.parent.None? && row.status == "active" && row.pricePeriod in ["daily", "monthly"]
  {
    assert Holds(BASE[0], [], lower, row) == OfBool(row.parent.None?);
    assert Holds(BASE[1], [], lower, row) == OfBool(row.status == "active");
    assert Holds(BASE[2], [], lower, row) == OfBool(row.pricePeriod in ["daily", "monthly"]);
  }

  lemma {:induction false} MapContains(f: string -> string, s: seq<string>, y: string)
    ensures y in Map(f, s) <==> exists x :: x in s && f(x) == y
  {
    if s != [] {
      MapContains(f, s[1..], y);
      assert forall x :: x in s <==> x == s[0] || x in s[1..];
    }
  }

  lemma FoldedTags(casefold: string -> string, tags: seq<string>, t: string)
    requires forall x :: x in tags ==> casefold(x) == x
    ensures t in Map(casefold, tags) <==> t in tags
  {
    MapContains(casefold, tags, t);
  }

  lemma PricesMean(q: Query, c: Criteria, lower: string -> string, row: Row)
    requires WellNumbered(q)
    ensures var r := MaxPrice(MinPrice(q, c), c);
            WellNumbered(r)
            && (Selected(r, lower, row) <==>
                Selected(q, lower, row)
                && (c.minPrice.Some? ==> row.monthly.Some? && row.monthly.value >= c.minPrice.value)
                && (c.maxPrice.Some? ==> row.monthly.Some? && row.monthly.value <= c.maxPrice.value))
  {
    if c.minPrice.Some? {
      BindAdds(q, Number(c.minPrice.value), AtLeast(Col(Monthly), Param(Fresh(q))), lower, row);
    }
    if c.maxPrice.Some? {
      var q' := MinPrice(q, c);
      BindAdds(q', Number(c.maxPrice.value), AtMost(Col(Monthly), Param(Fresh(q'))), lower, row);
    }
  }

  /** What the district condition asks of a row; a row without a district never meets it. */
  predicate DistrictSelected(c: Criteria, lower: string -> string, casefold: string -> string, row: Row) {
    c.districts != [] ==>
      && row.district.Some?
      && if |c.districts| == 1 then lower(row.district.value) == lower(c.districts[0])
         else lower(row.district.value) in Map(casefold, c.districts)
  }

  lemma OneDistrictMeans(name: string, params: seq<Value>, lower: string -> string, row: Row)
    ensures var n := |params| + 1;
            Numbers(OneDistrict(n)) == {n}
            && (Holds(OneDistrict(n), params + [Text(name)], lower, row) == True <==>
                row.district.Some? && lower(row.district.value) == lower(name))
  {
    var n := |params| + 1;
    assert Placeholders(Lower(Param(n))) == Placeholders(Param(n));
    assert Eval(Param(n), params + [Text(name)], lower, row) == Text(name);
    assert Eval(Col(District), params + [Text(name)], lower, row) == OfOption(row.district);
  }

  lemma ManyDistrictsMean(names: seq<string>, params: seq<Value>, lower: string -> string, row: Row)
    ensures var n := |params| + 1;
            Numbers(ManyDistricts(n)) == {n}
            && (Holds(ManyDistricts(n), params + [Texts(names)], lower, row) == True <==>
                row.district.Some? && lower(row.district.value) in names)
  {
    var n := |params| + 1;
    assert Placeholders(Lower(Col(District))) == Placeholders(Col(District));
    assert Eval(Param(n), params + [Texts(names)], lower, row) == Texts(names);
    assert Eval(Col(District), params + [Texts(names)], lower, row) == OfOption(row.district);
  }

  lemma DistrictsMean(q: Query, c: Criteria, lower: string -> string, casefold: string -> string, row: Row)
    requires WellNumbered(q)
    ensures var r := Districts(q, c, casefold);
            WellNumbered(r)
            && (Selected(r, lower, row) <==> Selected(q, lower, row) && DistrictSelected(c, lower, casefold, row))
  {
    if |c.districts| == 1 {
      OneDistrictMeans(c.districts[0], q.params, lower, row);
      BindAdds(q, Text(c.districts[0]), OneDistrict(Fresh(q)), lower, row);
    } else if c.districts != [] {
      ManyDistrictsMean(Map(casefold, c.districts), q.params, lower, row);
      BindAdds(q, Texts(Map(casefold, c.districts)), ManyDistricts(Fresh(q)), lower, row);
    }
  }

  /** Where the foldings agree, the district condition is the plain one. */
  lemma AgreeingFoldsSelect(c: Criteria, lower: string -> string, casefold: string -> string, row: Row)
    requires FoldsAgree(c, lower, casefold, row)
    ensures DistrictSelected(c, lower, casefold, row) <==>
            (c.districts != [] ==> FoldedDistrict(row, casefold) in Map(casefold, c.districts))
  {
    if c.districts != [] {
      assert c.districts[0] in c.districts;
      MapContains(casefold, c.districts, FoldedDistrict(row, casefold));
    }
  }

  lemma RoomsAndRenovationMean(q: Query, c: Criteria, lower: string -> string, row: Row)
    requires WellNumbered(q)
    ensures var r := RenovationLevel(RoomCount(q, c), c);
            WellNumbered(r)
            && (Selected(r, lower, row) <==>
                Selected(q, lower, row)
                && (c.rooms.Some? ==> row.rooms == c.rooms)
                && (c.renovation.Some? ==> row.renovation == c.renovation))
  {
    if c.rooms.Some? {
      BindAdds(q, Whole(c.rooms.value), Equal(Col(Rooms), Param(Fresh(q))), lower, row);
    }
    if c.renovation.Some? {
      var q' := RoomCount(q, c);
      BindAdds(q', Text(c.renovation.value), Equal(Col(Renovation), Param(Fresh(q'))), lower, row);
    }
  }

  lemma AudienceMeans(q: Query, c: Criteria, lower: string -> string, row: Row)
    requires WellNumbered(q)
    ensures var r := Audience(q, c);
            WellNumbered(r)
            && (Selected(r, lower, row) <==>
                Selected(q, lower, row)
                && (c.audienceTag.Some? ==>
                      c.audienceTag.value in row.audienceTags && c.audienceTag.value !in row.excludedTags))
  {
    if c.audienceTag.Some? {
      var tag := c.audienceTag.value;
      var q' := Bind(q, Text(tag), [AnyOf(Param(Fresh(q)), Col(AudienceTags))]);
      BindAdds(q, Text(tag), AnyOf(Param(Fresh(q)), Col(AudienceTags)), lower, row);
      FixedAdds(q', Not(AnyOf(Param(Fresh(q)), Col(AudienceExcludedTags))), lower, row);
    }
  }

  /** For every criteria and row: sound numbering, and the meaning of the whole condition. */
  lemma WhereSelects(c: Criteria, lower: string -> string, casefold: string -> string, row: Row)
    ensures WellNumbered(Compile(c, casefold))
    ensures Selected(Compile(c, casefold), lower, row) <==>
            && row.parent.None? && row.status == "active" && row.pricePeriod in ["daily", "monthly"]
            && (c.includePerPerson || row.priceBasis == "total")
            && (c.minPrice.Some? ==> row.monthly.Some? && row.monthly.value >= c.minPrice.value)
            && (c.maxPrice.Some? ==> row.monthly.Some? && row.monthly.value <= c.maxPrice.value)
            && DistrictSelected(c, lower, casefold, row)
            && (c.rooms.Some? ==> row.rooms == c.rooms)
            && (c.renovation.Some? ==> row.renovation == c.renovation)
            && (c.audienceTag.Some? ==>
                  c.audienceTag.value in row.audienceTags && c.audienceTag.value !in row.excludedTags)
  {
    var q0 := Query(BASE, []);
    BaseMeaning(lower, row);
    FixedAdds(q0, Equal(Col(PriceBasis), Lit(Text("total"))), lower, row);
    var q1 := TotalOnly(q0, c);
    PricesMean(q1, c, lower, row);
    var q2 := MaxPrice(MinPrice(q1, c), c);
    DistrictsMean(q2, c, lower, casefold, row);
    var q3 := Districts(q2, c, casefold);
    RoomsAndRenovationMean(q3, c, lower, row);
    AudienceMeans(RenovationLevel(RoomCount(q3, c), c), c, lower, row);
  }

  /** What the criteria's own validation guarantees. */
  ghost predicate Validated(c: Criteria, casefold: string -> string) {
    && (c.minPrice.Some? && c.maxPrice.Some? ==> c.minPrice.value <= c.maxPrice.value)
    && (c.audienceTag.Some? ==> casefold(c.audienceTag.value) == c.audienceTag.value)
  }

  /** A stored row that meets every criterion but the districts. */
  function RowIn(c: Criteria, district: Option<string>): Row {
    Row(0, 0, None, "active", "monthly", "total",
        if c.minPrice.Some? then c.minPrice else if c.maxPrice.Some? then c.maxPrice else Some(0.0),
        district, c.rooms, c.renovation, if c.audienceTag.Some? then [c.audienceTag.value] else [], [])
  }

  /** The database's folding selects a district of this name exactly when the plain filter does. */
  ghost predicate SelectsAlike(c: Criteria, lower: string -> string, casefold: string -> string, name: string) {
    (if |c.districts| == 1 then lower(name) == lower(c.districts[0]) else lower(name) in Map(casefold, c.districts))
    <==> casefold(name) in Map(casefold, c.districts)
  }

  ghost predicate DistrictsAlike(c: Criteria, lower: string -> string, casefold: string -> string) {
    c.districts != [] ==>
      && casefold("") !in Map(casefold, c.districts)
      && (forall name :: SelectsAlike(c, lower, casefold, name))
  }

  lemma SameWitness(c: Criteria, lower: string -> string, casefold: string -> string, district: Option<string>)
    requires Validated(c, casefold)
    ensures Stored(RowIn(c, district), casefold)
    ensures Selected(Compile(c, casefold), lower, RowIn(c, district))
            <==> DistrictSelected(c, lower, casefold, RowIn(c, district))
    ensures Matches(c, casefold, RowIn(c, district)) <==>
            (c.districts != [] ==> FoldedDistrict(RowIn(c, district), casefold) in Map(casefold, c.districts))
  {
    var row := RowIn(c, district);
    WhereSelects(c, lower, casefold, row);
    FoldedTags(casefold, row.audienceTags, if c.audienceTag.Some? then c.audienceTag.value else "");
    FoldedTags(casefold, [], if c.audienceTag.Some? then c.audienceTag.value else "");
  }

  /**
   The condition means the plain filter on all stored rows exactly when it does so for every
   district name and for none.
   */
  lemma WhereMeansMatchesIff(c: Criteria, lower: string -> string, casefold: string -> string)
    requires Validated(c, casefold)
    ensures (forall row | Stored(row, casefold) ::
               Selected(Compile(c, casefold), lower, row) <==> Matches(c, casefold, row))
            <==> DistrictsAlike(c, lower, casefold)
  {
    if DistrictsAlike(c, lower, casefold) {
      forall row | Stored(row, casefold)
        ensures Selected(Compile(c, casefold), lower, row) <==> Matches(c, casefold, row) {
        AlikeMeansMatches(c, lower, casefold, row);
      }
    } else {
      var name :| c.districts != [] && (casefold("") in Map(casefold, c.districts)
                                        || !SelectsAlike(c, lower, casefold, name));
      SameWitness(c, lower, casefold, None);
      SameWitness(c, lower, casefold, Some(name));
    }
  }

  lemma AlikeMeansMatches(c: Criteria, lower: string -> string, casefold: string -> string, row: Row)
    requires DistrictsAlike(c, lower, casefold) && Stored(row, casefold)
    ensures Selected(Compile(c, casefold), lower, row) <==> Matches(c, casefold, row)
  {
    if c.districts != [] && row.district.Some? {
      assert SelectsAlike(c, lower, casefold, row.district.value);
    }
    StoredMeaning(c, lower, casefold, row);
  }

  /** With one folding, the condition means the plain filter exactly when no selected name folds to nothing. */
  lemma OneFoldingIff(c: Criteria, fold: string -> string)
    requires Validated(c, fold)
    ensures (forall row | Stored(row, fold) :: Selected(Compile(c, fold), fold, row) <==> Matches(c, fold, row))
            <==> fold("") !in Map(fold, c.districts)
  {
    WhereMeansMatchesIff(c, fold, fold);
    if |c.districts| == 1 {
      assert Map(fold, c.districts) == [fold(c.districts[0])];
    }
    assert c.districts != [] ==> forall name :: SelectsAlike(c, fold, fold, name);
  }

  /** With two, it does so for the rows of one district exactly when both select that name, or neither. */
  lemma GivenDistrictIff(c: Criteria, lower: string -> string, casefold: string -> string, name: string)
    requires Validated(c, casefold) && c.districts != []
    ensures (forall row | Stored(row, casefold) && row.district == Some(name) ::
               Selected(Compile(c, casefold), lower, row) <==> Matches(c, casefold, row))
            <==> SelectsAlike(c, lower, casefold, name)
  {
    SameWitness(c, lower, casefold, Some(name));
    if SelectsAlike(c, lower, casefold, name) {
      forall row | Stored(row, casefold) && row.district == Some(name)
        ensures Selected(Compile(c, casefold), lower, row) <==> Matches(c, casefold, row)
      {
        StoredMeaning(c, lower, casefold, row);
      }
    }
  }

  /** On a stored row the two can differ in the districts only. */
  lemma StoredMeaning(c: Criteria, lower: string -> string, casefold: string -> string, row: Row)
    requires Stored(row, casefold)
    requires DistrictSelected(c, lower, casefold, row) <==>
             (c.districts != [] ==> FoldedDistrict(row, casefold) in Map(casefold, c.districts))
    ensures Selected(Compile(c, casefold), lower, row) <==> Matches(c, casefold, row)
  {
    WhereSelects(c, lower, casefold, row);
    if c.audienceTag.Some? {
      FoldedTags(casefold, row.audienceTags, c.audienceTag.value);
      FoldedTags(casefold, row.excludedTags, c.audienceTag.value);
    }
  }

  const SHARP_S := "\U{df}"

  /** Both foldings on the letter where they differ: the database keeps it, Python writes "ss". */
  function Kept(s: string): string { s }

  function Casefolded(s: string): string {
    if s == SHARP_S then "ss" else s
  }

  /**
   A search for that name alone misses a row that the plain filter accepts, and the many-name
   form misses its own row.
   */
  lemma SharpSIsMissed()
    ensures var c := Criteria(None, None, true, [SHARP_S], None, None, None, Newest, 10, 0);
            && Stored(RowIn(c, Some("ss")), Casefolded) && Matches(c, Casefolded, RowIn(c, Some("ss")))
            && !Selected(Compile(c, Casefolded), Kept, RowIn(c, Some("ss")))
            && !SameForm(SHARP_S, SHARP_S, Kept, Casefolded)
  {
    var c := Criteria(None, None, true, [SHARP_S], None, None, None, Newest, 10, 0);
    SameWitness(c, Kept, Casefolded, Some("ss"));
    assert Map(Casefolded, c.districts) == ["ss"];
    assert |"ss"| != |SHARP_S|;
    FormMeaning(SHARP_S, SHARP_S, Kept, Casefolded);
  }

  /** Foldings that agree on the names compared are enough for one row. */
  lemma WhereMeansMatches(c: Criteria, lower: string -> string, casefold: string -> string, row: Row)
    requires Stored(row, casefold) && FoldsAgree(c, lower, casefold, row)
    ensures Selected(Compile(c, casefold), lower, row) <==> Matches(c, casefold, row)
  {
    AgreeingFoldsSelect(c, lower, casefold, row);
    StoredMeaning(c, lower, casefold, row);
  }

  /**
   The one-district and the many-district condition for the same name select the same
   rows exactly when PostgreSQL's `lower` folds that name as Python's `casefold` does.
   */
  lemma DistrictFormsAgree(name: string, lower: string -> string, casefold: string -> string)
    ensures (forall x: string :: SameForm(name, x, lower, casefold)) <==> casefold(name) == lower(name)
  {
    forall x: string
      ensures SameForm(name, x, lower, casefold) <==> ((lower(x) == lower(name)) == (lower(x) == casefold(name)))
    {
      FormMeaning(name, x, lower, casefold);
    }
    if forall x: string :: SameForm(name, x, lower, casefold) {
      assert SameForm(name, name, lower, casefold);
    }
  }

  lemma FormMeaning(name: string, x: string, lower: string -> string, casefold: string -> string)
    ensures SameForm(name, x, lower, casefold) <==> ((lower(x) == lower(name)) == (lower(x) == casefold(name)))
  {
    var row := Row(0, 0, None, "", "", "", None, Some(x), None, None, [], []);
    assert Eval(Lower(Col(District)), [Text(name)], lower, row) == Text(lower(x));
    assert Eval(Lower(Col(District)), [Texts([casefold(name)])], lower, row) == Text(lower(x));
    assert Eval(Lower(Param(1)), [Text(name)], lower, row) == Text(lower(name));
  }

  ghost predicate SameForm(name: string, district: string, lower: string -> string, casefold: string -> string) {
    var row := Row(0, 0, None, "", "", "", None, Some(district), None, None, [], []);
    Holds(OneDistrict(1), [Text(name)], lower, row)
    == Holds(ManyDistricts(1), [Texts([casefold(name)])], lower, row)
  }

  // ---------------------------------------------------------------- paging

  /** The rows of a page, and the total that the result reports. */
  datatype Page = Page(items: seq<Row>, total: nat)

  /** `limit $n+1 offset $n+2`, the numbers after the last parameter of the condition. */
  function Arguments(q: Query, c: Criteria): seq<Value> {
    q.params + [Whole(c.limit), Whole(c.offset)]
  }

  /** The numbers of limit and offset are used by no condition, and get the right arguments. */
  lemma LimitAndOffsetAreFresh(c: Criteria, casefold: string -> string, lower: string -> string, row: Row)
    ensures var q := Compile(c, casefold);
            && !Uses(q.clauses, |q.params| + 1) && !Uses(q.clauses, |q.params| + 2)
            && Eval(Param(|q.params| + 1), Arguments(q, c), lower, row) == Whole(c.limit)
            && Eval(Param(|q.params| + 2), Arguments(q, c), lower, row) == Whole(c.offset)
  {
    WhereSelects(c, lower, casefold, row);
  }

  function Later(x: Row, y: Row): bool {
    x.createdAt > y.createdAt || (x.createdAt == y.createdAt && x.id > y.id)
  }

  /** `order by`: NULL prices last under both price orders, the id breaks every tie. */
  predicate Before(sort: Sort, x: Row, y: Row) {
    match sort
    case Newest => Later(x, y)
    case Cheapest =>
      if x.monthly.None? || y.monthly.None?
      then (x.monthly.Some? && y.monthly.None?) || (x.monthly == y.monthly && Later(x, y))
      else x.monthly.value < y.monthly.value || (x.monthly == y.monthly && Later(x, y))
    case PriceDesc =>
      if x.monthly.None? || y.monthly.None?
      then (x.monthly.Some? && y.monthly.None?) || (x.monthly == y.monthly && Later(x, y))
      else x.monthly.value > y.monthly.value || (x.monthly == y.monthly && Later(x, y))
  }

  ghost predicate Ordered(sort: Sort, rows: seq<Row>) {
    forall i, j :: 0 <= i < j < |rows| ==> Before(sort, rows[i], rows[j])
  }

  lemma BeforeIsStrictTotalOrder(sort: Sort, x: Row, y: Row, z: Row)
    ensures !Before(sort, x, x)
    ensures Before(sort, x, y) && Before(sort, y, z) ==> Before(sort, x, z)
    ensures x.id != y.id ==> Before(sort, x, y) || Before(sort, y, x)
  {
  }

  /** The order leaves one arrangement of a set of rows, so pages of one table never overlap. */
  lemma {:induction false} OrderIsDetermined(sort: Sort, a: seq<Row>, b: seq<Row>)
    requires Ordered(sort, a) && Ordered(sort, b)
    requires forall r :: r in a <==> r in b
    ensures a == b
  {
    assert b != [] ==> b[0] in b;
    if a != [] {
      assert a[0] in b;
      var j :| 0 <= j < |b| && b[j] == a[0];
      assert b[0] in a;
      var i :| 0 <= i < |a| && a[i] == b[0];
      BeforeIsStrictTotalOrder(sort, a[0], b[0], a[0]);
      assert a[0] == b[0];
      forall r ensures r in a[1..] <==> r in b[1..] {
        if r in a[1..] {
          var k :| 0 <= k < |a| - 1 && a[1..][k] == r;
          BeforeIsStrictTotalOrder(sort, a[0], r, r);
          assert a[k + 1] == r && r in a && r in b;
          var m :| 0 <= m < |b| && b[m] == r;
          assert m != 0;
          assert b[1..][m - 1] == r;
        }
        if r in b[1..] {
          var k :| 0 <= k < |b| - 1 && b[1..][k] == r;
          BeforeIsStrictTotalOrder(sort, b[0], r, r);
          assert b[k + 1] == r && r in b && r in a;
          var m :| 0 <= m < |a| && a[m] == r;
          assert m != 0;
          assert a[1..][m - 1] == r;
        }
      }
      OrderIsDetermined(sort, a[1..], b[1..]);
    }
  }

  // ---------------------------------------------------------------- pages of a table

  ghost predicate DistinctIds(table: set<Row>) {
    forall x, y :: x in table && y in table && x.id == y.id ==> x == y
  }

  /** The rows of a table that the compiled condition selects. */
  ghost function SelectedRows(table: set<Row>, q: Query, lower: string -> string): set<Row> {
    set r | r in table && Selected(q, lower, r)
  }

  ghost predicate Arranges(sort: Sort, rows: set<Row>, list: seq<Row>) {
    Ordered(sort, list) && forall r :: r in list <==> r in rows
  }

  function Placed(sort: Sort, list: seq<Row>, r: Row): seq<Row> {
    if list == [] || Before(sort, r, list[0]) then [r] + list else [list[0]] + Placed(sort, list[1..], r)
  }

  lemma {:induction false} PlacedIsOrdered(sort: Sort, list: seq<Row>, r: Row)
    requires Ordered(sort, list) && forall x :: x in list ==> x.id != r.id
    ensures Ordered(sort, Placed(sort, list, r))
    ensures forall x :: x in Placed(sort, list, r) <==> x in list || x == r
  {
    if list == [] {
    } else if Before(sort, r, list[0]) {
      forall j | 0 <= j < |list| ensures Before(sort, r, list[j]) {
        BeforeIsStrictTotalOrder(sort, r, list[0], list[j]);
      }
    } else {
      var rest := Placed(sort, list[1..], r);
      PlacedIsOrdered(sort, list[1..], r);
      forall x | x in rest ensures Before(sort, list[0], x) {
        BeforeIsStrictTotalOrder(sort, list[0], r, r);
        if x != r {
          var j :| 0 <= j < |list| - 1 && list[1..][j] == x;
          assert list[j + 1] == x;
        }
      }
      assert list == [list[0]] + list[1..];
    }
  }

  /** Rows with different ids can be put in order, and in one way only. */
  lemma {:induction false} ArrangementExists(sort: Sort, rows: set<Row>)
    requires DistinctIds(rows)
    ensures exists list :: Arranges(sort, rows, list)
  {
    if rows == {} {
      assert Arranges(sort, rows, []);
    } else {
      var r :| r in rows;
      ArrangementExists(sort, rows - {r});
      var list :| Arranges(sort, rows - {r}, list);
      PlacedIsOrdered(sort, list, r);
      assert Arranges(sort, rows, Placed(sort, list, r));
    }
  }

  /** The selected rows of a table in the order of the search. */
  ghost function Found(table: set<Row>, c: Criteria, lower: string -> string,
                       casefold: string -> string): (list: seq<Row>)
    requires DistinctIds(table)
    ensures Arranges(c.sort, SelectedRows(table, Compile(c, casefold), lower), list)
  {
    var rows := SelectedRows(table, Compile(c, casefold), lower);
    ArrangementExists(c.sort, rows);
    var list :| Arranges(c.sort, rows, list);
    list
  }

  /**
   A search lists cheap rows first, dear rows first, or new rows first; rows without a price
   come last under both price orders, and newer rows first among equal prices.
   */
  lemma FoundIsSorted(table: set<Row>, c: Criteria, lower: string -> string, casefold: string -> string, i: nat, j: nat)
    requires DistinctIds(table) && i < j < |Found(table, c, lower, casefold)|
    ensures var found := Found(table, c, lower, casefold);
            var x, y := found[i], found[j];
            && (c.sort == Newest ==> x.createdAt >= y.createdAt)
            && (c.sort == Cheapest && x.monthly.Some? && y.monthly.Some? ==> x.monthly.value <= y.monthly.value)
            && (c.sort == PriceDesc && x.monthly.Some? && y.monthly.Some? ==> x.monthly.value >= y.monthly.value)
            && (c.sort != Newest && x.monthly == None ==> y.monthly == None)
            && (c.sort != Newest && x.monthly == y.monthly ==> x.createdAt >= y.createdAt)
            && (x.monthly == y.monthly && x.createdAt == y.createdAt ==> x.id > y.id)
            && (c.sort == Newest && x.createdAt == y.createdAt ==> x.id > y.id)
  {
  }

  /** An ordered list has each of its rows once. */
  lemma {:induction false} ArrangementCounts(sort: Sort, rows: set<Row>, list: seq<Row>)
    requires Arranges(sort, rows, list)
    ensures |list| == |rows|
  {
    if list == [] {
      assert rows == {};
    } else {
      var r, rest := list[0], list[1..];
      assert list == [r] + rest;
      forall x | x in rest ensures x != r {
        BeforeIsStrictTotalOrder(sort, r, r, r);
      }
      ArrangementCounts(sort, rows - {r}, rest);
    }
  }

  /** A record of the answer: a row, and the number of selected rows that rides on it. */
  datatype Record = Record(row: Row, totalCount: nat)

  /** What `limit` and `offset` leave of a list. */
  function Sliced<T>(list: seq<T>, limit: nat, offset: nat): seq<T> {
    if offset > |list| then [] else if offset + limit <= |list| then list[offset..offset + limit] else list[offset..]
  }

  ghost function Records(table: set<Row>, c: Criteria, lower: string -> string, casefold: string -> string): seq<Record>
    requires DistinctIds(table)
  {
    var n := |SelectedRows(table, Compile(c, casefold), lower)|;
    var page := Sliced(Found(table, c, lower, casefold), c.limit, c.offset);
    seq(|page|, i requires 0 <= i < |page| => Record(page[i], n))
  }

  function RowsOf(records: seq<Record>): seq<Row> {
    seq(|records|, i requires 0 <= i < |records| => records[i].row)
  }

  function TotalOf(records: seq<Record>): nat {
    if records == [] then 0 else records[0].totalCount
  }

  /** The result made of the records: the total is read off the first one. */
  method SearchResult(records: seq<Record>) returns (page: Page)
    ensures page == Page(RowsOf(records), TotalOf(records))
  {
    var total := if records != [] then records[0].totalCount else 0;
    var items: seq<Row> := [];
    for i := 0 to |records|
      invariant items == RowsOf(records)[..i]
    {
      items := items + [records[i].row];
    }
    page := Page(items, total);
  }

  /** The reported total is the number of selected rows exactly when there are none or the offset is below it. */
  lemma TotalIsSelectedCount(table: set<Row>, c: Criteria, lower: string -> string, casefold: string -> string)
    requires DistinctIds(table) && c.limit >= 1
    ensures var n := |SelectedRows(table, Compile(c, casefold), lower)|;
            TotalOf(Records(table, c, lower, casefold)) == n <==> n == 0 || c.offset < n
  {
    ArrangementCounts(c.sort, SelectedRows(table, Compile(c, casefold), lower), Found(table, c, lower, casefold));
  }

  /** One matching row and an offset of 1: the total says 0. */
  lemma TotalBeyondTheLastRow()
    ensures var c := Criteria(None, None, true, [], None, None, None, Newest, 10, 1);
            var table := {RowIn(c, None)};
            DistinctIds(table)
            && |SelectedRows(table, Compile(c, Kept), Kept)| == 1 && TotalOf(Records(table, c, Kept, Kept)) == 0
  {
    var c := Criteria(None, None, true, [], None, None, None, Newest, 10, 1);
    var table := {RowIn(c, None)};
    SameWitness(c, Kept, Kept, None);
    assert SelectedRows(table, Compile(c, Kept), Kept) == table;
    TotalIsSelectedCount(table, c, Kept, Kept);
  }

  /** The criteria of the page with a number. */
  function PageNumber(c: Criteria, number: nat): Criteria {
    c.(offset := number * c.limit)
  }

  function Upto(list: seq<Row>, n: nat): seq<Row> {
    if n <= |list| then list[..n] else list
  }

  lemma NextSlice(list: seq<Row>, limit: nat, offset: nat)
    ensures Upto(list, offset) + Sliced(list, limit, offset) == Upto(list, offset + limit)
  {
  }

  /** Limit and offset decide which rows are on the page, not which are found. */
  lemma PagesShareRows(table: set<Row>, c: Criteria, lower: string -> string, casefold: string -> string, number: nat)
    requires DistinctIds(table)
    ensures RowsOf(Records(table, PageNumber(c, number), lower, casefold))
            == Sliced(Found(table, c, lower, casefold), c.limit, number * c.limit)
  {
    var d := PageNumber(c, number);
    assert Compile(d, casefold) == Compile(c, casefold);
    OrderIsDetermined(c.sort, Found(table, d, lower, casefold), Found(table, c, lower, casefold));
  }

  function Glued(pages: seq<seq<Row>>): seq<Row> {
    if pages == [] then [] else Glued(pages[..|pages| - 1]) + pages[|pages| - 1]
  }

  predicate IsSlice(list: seq<Row>, limit: nat, page: seq<Row>, number: nat) {
    page == Sliced(list, limit, number * limit)
  }

  lemma {:induction false} SlicesTile(list: seq<Row>, limit: nat, pages: seq<seq<Row>>)
    requires forall i :: 0 <= i < |pages| ==> IsSlice(list, limit, pages[i], i)
    ensures Glued(pages) == Upto(list, |pages| * limit)
  {
    if pages != [] {
      var last: nat := |pages| - 1;
      var offset: nat := last * limit;
      assert |pages| * limit == offset + limit;
      SlicesTile(list, limit, pages[..last]);
      assert IsSlice(list, limit, pages[last], last);
      NextSlice(list, limit, offset);
    }
  }

  ghost predicate IsPage(table: set<Row>, c: Criteria, lower: string -> string, casefold: string -> string,
                         page: seq<Row>, number: nat)
    requires DistinctIds(table)
  {
    page == RowsOf(Records(table, PageNumber(c, number), lower, casefold))
  }

  /** The pages of a table, one after the other, are the selected rows in order: no gap, no overlap. */
  lemma PagesTile(table: set<Row>, c: Criteria, lower: string -> string, casefold: string -> string,
                  pages: seq<seq<Row>>)
    requires DistinctIds(table)
    requires forall i :: 0 <= i < |pages| ==> IsPage(table, c, lower, casefold, pages[i], i)
    ensures Glued(pages) == Upto(Found(table, c, lower, casefold), |pages| * c.limit)
  {
    var found := Found(table, c, lower, casefold);
    forall i | 0 <= i < |pages| ensures IsSlice(found, c.limit, pages[i], i) {
      assert IsPage(table, c, lower, casefold, pages[i], i);
      PagesShareRows(table, c, lower, casefold, i);
    }
    SlicesTile(found, c.limit, pages);
  }
}

/**
 * The listing search of `PropertyViewSet.get_queryset` (api/views.py).
 *
 * The query-string parameters narrow the table in source order: area text,
 * room bounds, living-area bounds and type are database filters; the price
 * bounds are a last pass in memory over the already narrowed rows, reading
 * each stored price with `parse_price`. A room or living-area bound that is
 * not an integer makes the database layer raise, so the request fails; a
 * price bound that is not an integer is skipped.
 */
module Search {
  import opened Wrappers
  import opened PyInt
  import opened SqlText
  import opened Pricing
  import opened Seqs
  import opened Models

  /** The query string: every parameter is absent or a string. */
  datatype Query = Query(
    area: Option<string>,
    minRooms: Option<string>,
    maxRooms: Option<string>,
    minArea: Option<string>,
    maxArea: Option<string>,
    kind: Option<string>,
    minPrice: Option<string>,
    maxPrice: Option<string>)

  /** Python truthiness of `query_params.get(name)`: present and not empty. */
  predicate Given(v: Option<string>) {
    v.Some? && v.value != ""
  }

  datatype Column = Rooms | Sqm

  datatype Side = AtLeast | AtMost

  function ColumnValue(p: Property, c: Column): nat {
    match c
    case Rooms => p.rooms
    case Sqm => p.sqm
  }

  /** One `filter(...)` call or one list comprehension of the price pass. */
  datatype Criterion =
    | AreaLike(text: string)
    | Bounded(column: Column, side: Side, limit: int)
    | KindLike(text: string)
    | PriceBounded(side: Side, limit: int)

  predicate Within(v: int, side: Side, limit: int) {
    match side
    case AtLeast => v >= limit
    case AtMost => v <= limit
  }

  predicate Holds(c: Criterion, p: Property) {
    match c
    case AreaLike(t) => LikeContains(p.area, t) || LikeContains(p.municipality, t) || LikeContains(p.address, t)
    case Bounded(col, side, n) => Within(ColumnValue(p, col), side, n)
    case KindLike(t) => LikeEquals(TypeLabel(p.kind), t)
    case PriceBounded(side, n) => Within(ParsePrice(p.price), side, n)
  }

  /** The rows that satisfy one criterion, in their order. */
  function Keep(ps: seq<Property>, c: Criterion): seq<Property> {
    Filter(ps, (p: Property) => Holds(c, p))
  }

  /** Apply criteria one after the other. */
  function Run(ps: seq<Property>, cs: seq<Criterion>): seq<Property>
    decreases |cs|
  {
    if cs == [] then ps else Run(Keep(ps, cs[0]), cs[1..])
  }

  /** The database rejects a bound `int()` cannot read (HTTP 500). */
  datatype SearchError = NotANumber(param: string, text: string)

  /** One of the four numeric database parameters: its name, its value, the column and side it bounds. */
  datatype NumericParam = NumericParam(name: string, given: Option<string>, column: Column, side: Side)

  /** `min_rooms`, `max_rooms`, `min_area`, `max_area`, in the order `get_queryset` filters on them. */
  function NumericParams(q: Query): seq<NumericParam> {
    [NumericParam("min_rooms", q.minRooms, Rooms, AtLeast), NumericParam("max_rooms", q.maxRooms, Rooms, AtMost),
     NumericParam("min_area", q.minArea, Sqm, AtLeast), NumericParam("max_area", q.maxArea, Sqm, AtMost)]
  }

  /** `if min_rooms: queryset = queryset.filter(rooms__gte=min_rooms)`: the database reads the bound with `int()`. */
  function AddBound(cs: seq<Criterion>, b: NumericParam): Result<seq<Criterion>, SearchError> {
    if !Given(b.given) then Ok(cs)
    else match ParseInt(b.given.value)
      case Some(n) => Ok(cs + [Bounded(b.column, b.side, n)])
      case None => Err(NotANumber(b.name, b.given.value))
  }

  /** The numeric filters in order; the first unreadable bound stops the request. */
  function AddBounds(cs: seq<Criterion>, bs: seq<NumericParam>): Result<seq<Criterion>, SearchError>
    decreases |bs|
  {
    if bs == [] then Ok(cs)
    else
      var cs' :- AddBound(cs, bs[0]);
      AddBounds(cs', bs[1..])
  }

  function AreaPlan(q: Query): seq<Criterion> {
    if Given(q.area) then [AreaLike(q.area.value)] else []
  }

  function KindPlan(q: Query): seq<Criterion> {
    if Given(q.kind) then [KindLike(q.kind.value)] else []
  }

  /** The type filter, after the numeric ones have gone through. */
  function Finish(bounded: Result<seq<Criterion>, SearchError>, q: Query): Result<seq<Criterion>, SearchError> {
    var cs :- bounded;
    Ok(cs + KindPlan(q))
  }

  /** The database filters, in the order `get_queryset` issues them. */
  function StoragePlan(q: Query): Result<seq<Criterion>, SearchError> {
    Finish(AddBounds(AreaPlan(q), NumericParams(q)), q)
  }

  /** A price bound is applied only when `int()` reads it; otherwise it is skipped. */
  function PriceBound(v: Option<string>, side: Side): seq<Criterion> {
    if Given(v) then
      match ParseInt(v.value)
      case Some(n) => [PriceBounded(side, n)]
      case None => []
    else []
  }

  function PricePlan(q: Query): seq<Criterion> {
    PriceBound(q.minPrice, AtLeast) + PriceBound(q.maxPrice, AtMost)
  }

  /** The rows after the database filters. */
  function StorageResult(store: seq<Property>, q: Query): Result<seq<Property>, SearchError> {
    var cs :- StoragePlan(q);
    Ok(Run(store, cs))
  }

  /** `get_queryset`: the database filters, then the price pass when a price bound is given. */
  function Search(store: seq<Property>, q: Query): Result<seq<Property>, SearchError> {
    var narrowed :- StorageResult(store, q);
    if Given(q.minPrice) || Given(q.maxPrice) then Ok(Run(narrowed, PricePlan(q))) else Ok(narrowed)
  }

  // ---------------------------------------------------------------------
  // A reference definition: which listings a query selects, row by row.
  // ---------------------------------------------------------------------

  /** The room and living-area parameters that are given can be read as integers. */
  predicate Readable(q: Query) {
    && (Given(q.minRooms) ==> ParseInt(q.minRooms.value).Some?)
    && (Given(q.maxRooms) ==> ParseInt(q.maxRooms.value).Some?)
    && (Given(q.minArea) ==> ParseInt(q.minArea.value).Some?)
    && (Given(q.maxArea) ==> ParseInt(q.maxArea.value).Some?)
  }

  predicate AtLeastGiven(v: Option<string>, x: int) {
    Given(v) && ParseInt(v.value).Some? ==> x >= ParseInt(v.value).value
  }

  predicate AtMostGiven(v: Option<string>, x: int) {
    Given(v) && ParseInt(v.value).Some? ==> x <= ParseInt(v.value).value
  }

  /**
   * The database stage: the area text occurs, ignoring ASCII case, in the
   * area, the municipality or the address; rooms and living area lie within
   * the given inclusive bounds; the type equals the given one ignoring case.
   * An absent or empty parameter imposes nothing.
   */
  predicate MatchesStorage(q: Query, p: Property) {
    && (Given(q.area) ==>
          LikeContains(p.area, q.area.value) || LikeContains(p.municipality, q.area.value)
          || LikeContains(p.address, q.area.value))
    && AtLeastGiven(q.minRooms, p.rooms) && AtMostGiven(q.maxRooms, p.rooms)
    && AtLeastGiven(q.minArea, p.sqm) && AtMostGiven(q.maxArea, p.sqm)
    && (Given(q.kind) ==> LikeEquals(TypeLabel(p.kind), q.kind.value))
  }

  /** The price stage: the parsed price lies within every readable price bound. */
  predicate MatchesPrice(q: Query, p: Property) {
    AtLeastGiven(q.minPrice, ParsePrice(p.price)) && AtMostGiven(q.maxPrice, ParsePrice(p.price))
  }

  predicate Matches(q: Query, p: Property) {
    MatchesStorage(q, p) && MatchesPrice(q, p)
  }

  // ---------------------------------------------------------------------
  // Lemmas
  // ---------------------------------------------------------------------

  predicate AllHold(cs: seq<Criterion>, p: Property) {
    forall c :: c in cs ==> Holds(c, p)
  }

  /** Applying criteria one after another keeps exactly the rows that satisfy them all, in order. */
  lemma {:induction false} RunIsFilter(ps: seq<Property>, cs: seq<Criterion>)
    ensures Run(ps, cs) == Filter(ps, (p: Property) => AllHold(cs, p))
    decreases |cs|
  {
    if cs == [] {
      FilterAll(ps, (p: Property) => AllHold(cs, p));
    } else {
      var rest := cs[1..];
      RunIsFilter(Keep(ps, cs[0]), rest);
      assert forall c :: c in cs <==> c == cs[0] || c in rest by {
        assert cs == [cs[0]] + rest;
      }
      FilterFilter(ps, (p: Property) => Holds(cs[0], p), (p: Property) => AllHold(rest, p),
                   (p: Property) => AllHold(cs, p));
    }
  }

  /** One more criterion at the end narrows the last result. */
  lemma {:induction false} RunSnoc(ps: seq<Property>, cs: seq<Criterion>, c: Criterion)
    ensures Run(ps, cs + [c]) == Keep(Run(ps, cs), c)
    decreases |cs|
  {
    if cs == [] {
      assert Run(Keep(ps, c), []) == Keep(ps, c);
      assert [c][1..] == [];
    } else {
      assert (cs + [c])[1..] == cs[1..] + [c];
      RunSnoc(Keep(ps, cs[0]), cs[1..], c);
    }
  }

  lemma AllHoldAppend(a: seq<Criterion>, b: seq<Criterion>, p: Property)
    ensures AllHold(a + b, p) <==> AllHold(a, p) && AllHold(b, p)
  {
    assert forall c :: c in a + b <==> c in a || c in b;
  }

  lemma AllHoldOne(c: Criterion, p: Property)
    ensures AllHold([c], p) <==> Holds(c, p)
  {
    assert c in [c];
  }

  /** The bound a readable parameter imposes on a value; an absent or unreadable one imposes none. */
  predicate BoundOk(v: Option<string>, side: Side, x: int) {
    match side
    case AtLeast => AtLeastGiven(v, x)
    case AtMost => AtMostGiven(v, x)
  }

  predicate ReadableParam(b: NumericParam) {
    Given(b.given) ==> ParseInt(b.given.value).Some?
  }

  predicate BoundHolds(b: NumericParam, p: Property) {
    BoundOk(b.given, b.side, ColumnValue(p, b.column))
  }

  /** One numeric database filter fails exactly on an unreadable bound, and otherwise adds that bound. */
  lemma AddBoundMeaning(cs: seq<Criterion>, b: NumericParam, p: Property)
    ensures AddBound(cs, b).Ok? <==> ReadableParam(b)
    ensures AddBound(cs, b).Ok? ==> (AllHold(AddBound(cs, b).value, p) <==> AllHold(cs, p) && BoundHolds(b, p))
  {
    if Given(b.given) {
      var n := ParseInt(b.given.value);
      if n.Some? {
        var c := Bounded(b.column, b.side, n.value);
        assert AddBound(cs, b) == Ok(cs + [c]);
        AllHoldAppend(cs, [c], p);
        AllHoldOne(c, p);
        BoundOkReadable(b.given, b.side, n.value, ColumnValue(p, b.column));
      }
    }
  }

  /** The numeric filters fail exactly when one of them is unreadable, and otherwise add all their bounds. */
  lemma {:induction false} AddBoundsMeaning(cs: seq<Criterion>, bs: seq<NumericParam>, p: Property)
    ensures AddBounds(cs, bs).Ok? <==> forall b :: b in bs ==> ReadableParam(b)
    ensures AddBounds(cs, bs).Ok? ==>
      (AllHold(AddBounds(cs, bs).value, p) <==> AllHold(cs, p) && forall b :: b in bs ==> BoundHolds(b, p))
    decreases |bs|
  {
    if bs != [] {
      assert forall b :: b in bs <==> b == bs[0] || b in bs[1..] by {
        assert bs == [bs[0]] + bs[1..];
      }
      AddBoundMeaning(cs, bs[0], p);
      if AddBound(cs, bs[0]).Ok? {
        AddBoundsMeaning(AddBound(cs, bs[0]).value, bs[1..], p);
      }
    }
  }

  /** The four numeric parameters are readable exactly when the query is. */
  lemma NumericParamsReadable(q: Query)
    ensures (forall b :: b in NumericParams(q) ==> ReadableParam(b)) <==> Readable(q)
  {
    var bs := NumericParams(q);
    assert forall b :: b in bs <==> b == bs[0] || b == bs[1] || b == bs[2] || b == bs[3];
    assert ReadableParam(bs[0]) && ReadableParam(bs[1]) && ReadableParam(bs[2]) && ReadableParam(bs[3])
      <==> Readable(q);
  }

  /** The four numeric parameters hold of a row exactly when each of them does. */
  lemma NumericParamsHold(q: Query, p: Property)
    ensures var bs := NumericParams(q);
      (forall b :: b in bs ==> BoundHolds(b, p)) <==>
      BoundHolds(bs[0], p) && BoundHolds(bs[1], p) && BoundHolds(bs[2], p) && BoundHolds(bs[3], p)
  {
    var bs := NumericParams(q);
    assert forall b :: b in bs <==> b == bs[0] || b == bs[1] || b == bs[2] || b == bs[3];
  }

  /** Each numeric parameter bounds its own column on its own side. */
  lemma NumericBoundsMeaning(q: Query, p: Property)
    ensures var bs := NumericParams(q);
      && (BoundHolds(bs[0], p) <==> AtLeastGiven(q.minRooms, p.rooms))
      && (BoundHolds(bs[1], p) <==> AtMostGiven(q.maxRooms, p.rooms))
      && (BoundHolds(bs[2], p) <==> AtLeastGiven(q.minArea, p.sqm))
      && (BoundHolds(bs[3], p) <==> AtMostGiven(q.maxArea, p.sqm))
  {
  }

  lemma AreaPlanMeaning(q: Query, p: Property)
    ensures AllHold(AreaPlan(q), p) <==>
      (Given(q.area) ==>
         LikeContains(p.area, q.area.value) || LikeContains(p.municipality, q.area.value)
         || LikeContains(p.address, q.area.value))
  {
    if Given(q.area) {
      AllHoldOne(AreaLike(q.area.value), p);
    }
  }

  lemma KindPlanMeaning(q: Query, p: Property)
    ensures AllHold(KindPlan(q), p) <==> (Given(q.kind) ==> LikeEquals(TypeLabel(p.kind), q.kind.value))
  {
    if Given(q.kind) {
      AllHoldOne(KindLike(q.kind.value), p);
    }
  }

  /** The database stage fails exactly when a given room or living-area bound is not an integer. */
  lemma StoragePlanDefined(q: Query)
    ensures StoragePlan(q).Ok? <==> Readable(q)
  {
    var p :| true;
    AddBoundsMeaning(AreaPlan(q), NumericParams(q), p);
    NumericParamsReadable(q);
  }

  /** Each criterion of the database stage is one conjunct of `MatchesStorage`. */
  lemma StoragePlanMeaning(q: Query, p: Property)
    requires Readable(q)
    ensures StoragePlan(q).Ok?
    ensures AllHold(StoragePlan(q).value, p) <==> MatchesStorage(q, p)
  {
    var bs := NumericParams(q);
    AddBoundsMeaning(AreaPlan(q), bs, p);
    NumericParamsReadable(q);
    NumericParamsHold(q, p);
    NumericBoundsMeaning(q, p);
    var cs := AddBounds(AreaPlan(q), bs).value;
    assert StoragePlan(q) == Ok(cs + KindPlan(q));
    AllHoldAppend(cs, KindPlan(q), p);
    AreaPlanMeaning(q, p);
    KindPlanMeaning(q, p);
  }

  /** A readable bound is the comparison with the number it reads as. */
  lemma BoundOkReadable(v: Option<string>, side: Side, n: int, x: int)
    requires Given(v) && ParseInt(v.value) == Some(n)
    ensures BoundOk(v, side, x) == Within(x, side, n)
  {
  }

  lemma PriceBoundReadable(v: Option<string>, side: Side, n: int)
    requires Given(v) && ParseInt(v.value) == Some(n)
    ensures PriceBound(v, side) == [PriceBounded(side, n)]
  {
  }

  lemma PriceBoundMeaning(v: Option<string>, side: Side, p: Property)
    ensures AllHold(PriceBound(v, side), p) <==> BoundOk(v, side, ParsePrice(p.price))
  {
    if Given(v) && ParseInt(v.value).Some? {
      ReadablePriceBoundMeaning(v, side, ParseInt(v.value).value, p);
    } else {
      SkippedPriceBound(v, side, ParsePrice(p.price));
    }
  }

  lemma ReadablePriceBoundMeaning(v: Option<string>, side: Side, n: int, p: Property)
    requires Given(v) && ParseInt(v.value) == Some(n)
    ensures AllHold(PriceBound(v, side), p) <==> BoundOk(v, side, ParsePrice(p.price))
  {
    PriceBoundReadable(v, side, n);
    AllHoldOne(PriceBounded(side, n), p);
    BoundOkReadable(v, side, n, ParsePrice(p.price));
  }

  /** An absent or unreadable price bound adds no criterion and bounds nothing. */
  lemma SkippedPriceBound(v: Option<string>, side: Side, x: int)
    requires !(Given(v) && ParseInt(v.value).Some?)
    ensures PriceBound(v, side) == [] && BoundOk(v, side, x)
  {
  }

  /** The price criteria are exactly the readable price bounds. */
  lemma PricePlanMeaning(q: Query, p: Property)
    ensures AllHold(PricePlan(q), p) <==> MatchesPrice(q, p)
  {
    AllHoldAppend(PriceBound(q.minPrice, AtLeast), PriceBound(q.maxPrice, AtMost), p);
    PriceBoundMeaning(q.minPrice, AtLeast, p);
    PriceBoundMeaning(q.maxPrice, AtMost, p);
  }

  /**
   * The database stage keeps, in table order, exactly the rows that match
   * the non-price parameters, and fails exactly when a room or living-area
   * bound is not an integer.
   */
  lemma StorageStage(store: seq<Property>, q: Query)
    ensures StorageResult(store, q).Ok? <==> Readable(q)
    ensures Readable(q) ==> StorageResult(store, q) == Ok(Filter(store, (p: Property) => MatchesStorage(q, p)))
  {
    StoragePlanDefined(q);
    if Readable(q) {
      var cs := StoragePlan(q).value;
      RunIsFilter(store, cs);
      forall p ensures AllHold(cs, p) == MatchesStorage(q, p) {
        StoragePlanMeaning(q, p);
      }
      FilterExtensional(store, (p: Property) => AllHold(cs, p), (p: Property) => MatchesStorage(q, p));
    }
  }

  /**
   * The whole search: it fails exactly when a room or living-area bound is
   * not an integer, and otherwise keeps, in table order, exactly the rows
   * that match every parameter.
   */
  lemma SearchIsFilter(store: seq<Property>, q: Query)
    ensures Search(store, q).Ok? <==> Readable(q)
    ensures Readable(q) ==> Search(store, q) == Ok(Filter(store, (p: Property) => Matches(q, p)))
  {
    StorageStage(store, q);
    if Readable(q) {
      var narrowed := Filter(store, (p: Property) => MatchesStorage(q, p));
      var pp := PricePlan(q);
      RunIsFilter(narrowed, pp);
      forall p ensures AllHold(pp, p) == MatchesPrice(q, p) {
        PricePlanMeaning(q, p);
      }
      FilterFilter(store, (p: Property) => MatchesStorage(q, p), (p: Property) => AllHold(pp, p),
                   (p: Property) => Matches(q, p));
      if !(Given(q.minPrice) || Given(q.maxPrice)) {
        assert pp == [];
        assert Run(narrowed, pp) == narrowed;
      }
    }
  }

  /**
   * The price pass only narrows: the result is a subsequence of the
   * database stage's result, and every kept row's parsed price lies within
   * each readable price bound.
   */
  lemma PricePassNarrows(store: seq<Property>, q: Query)
    requires Search(store, q).Ok?
    ensures StorageResult(store, q).Ok?
    ensures IsSubsequence(Search(store, q).value, StorageResult(store, q).value)
    ensures forall p :: p in Search(store, q).value ==> MatchesPrice(q, p)
  {
    var narrowed := StorageResult(store, q).value;
    if Given(q.minPrice) || Given(q.maxPrice) {
      RunIsFilter(narrowed, PricePlan(q));
      forall p | p in Search(store, q).value ensures MatchesPrice(q, p) {
        PricePlanMeaning(q, p);
      }
    } else {
      SubsequenceReflexive(narrowed);
    }
  }

  /** Without a price parameter the database stage's result is returned unchanged. */
  lemma NoPriceUnchanged(store: seq<Property>, q: Query)
    requires !Given(q.minPrice) && !Given(q.maxPrice)
    ensures Search(store, q) == StorageResult(store, q)
  {
  }

  /** The database stage does not look at the price parameters. */
  lemma StorageIgnoresPrice(q: Query, q': Query)
    requires q' == q.(minPrice := q'.minPrice, maxPrice := q'.maxPrice)
    ensures StoragePlan(q) == StoragePlan(q')
  {
  }

  /** An unreadable price bound contributes no criterion. */
  lemma UnreadablePriceBound(v: Option<string>, side: Side)
    requires Given(v) && ParseInt(v.value).None?
    ensures PriceBound(v, side) == []
  {
  }

  /** A minimum price `int()` cannot read is skipped: the search is the one without it. */
  lemma InvalidMinPriceIgnored(store: seq<Property>, q: Query)
    requires Given(q.minPrice) && ParseInt(q.minPrice.value).None?
    ensures Search(store, q) == Search(store, q.(minPrice := None))
  {
    var q' := q.(minPrice := None);
    StorageIgnoresPrice(q, q');
    UnreadablePriceBound(q.minPrice, AtLeast);
    assert PricePlan(q) == PricePlan(q');
    if StoragePlan(q).Ok? && !Given(q.maxPrice) {
      assert PricePlan(q) == [];
      assert Run(StorageResult(store, q).value, []) == StorageResult(store, q).value;
    }
  }

  /** A maximum price `int()` cannot read is skipped: the search is the one without it. */
  lemma InvalidMaxPriceIgnored(store: seq<Property>, q: Query)
    requires Given(q.maxPrice) && ParseInt(q.maxPrice.value).None?
    ensures Search(store, q) == Search(store, q.(maxPrice := None))
  {
    var q' := q.(maxPrice := None);
    StorageIgnoresPrice(q, q');
    UnreadablePriceBound(q.maxPrice, AtMost);
    assert PricePlan(q) == PricePlan(q');
    if StoragePlan(q).Ok? && !Given(q.minPrice) {
      assert PricePlan(q) == [];
      assert Run(StorageResult(store, q).value, []) == StorageResult(store, q).value;
    }
  }

  /** A query whose parameters are all absent or empty returns the whole table. */
  lemma BlankQueryKeepsAll(store: seq<Property>, q: Query)
    requires !Given(q.area) && !Given(q.minRooms) && !Given(q.maxRooms) && !Given(q.minArea)
    requires !Given(q.maxArea) && !Given(q.kind) && !Given(q.minPrice) && !Given(q.maxPrice)
    ensures Search(store, q) == Ok(store)
  {
    assert Readable(q);
    SearchIsFilter(store, q);
    forall p: Property ensures Matches(q, p) {
      BlankMatches(q, p);
    }
    FilterAll(store, (p: Property) => Matches(q, p));
  }

  lemma BlankMatches(q: Query, p: Property)
    requires !Given(q.area) && !Given(q.minRooms) && !Given(q.maxRooms) && !Given(q.minArea)
    requires !Given(q.maxArea) && !Given(q.kind) && !Given(q.minPrice) && !Given(q.maxPrice)
    ensures Matches(q, p)
  {
  }

  /** With only `type` given, a listing is left out exactly when its type differs ignoring case. */
  lemma TypeOnly(store: seq<Property>, t: string, p: Property)
    requires t != "" && p in store
    ensures Search(store, Query(None, None, None, None, None, Some(t), None, None)).Ok?
    ensures p !in Search(store, Query(None, None, None, None, None, Some(t), None, None)).value
            <==> !LikeEquals(TypeLabel(p.kind), t)
  {
    SearchIsFilter(store, Query(None, None, None, None, None, Some(t), None, None));
  }

  lemma MinPriceExample()
    ensures ParseInt("2600000") == Some(2600000)
  {
    assert Decimal(26) == "26";
    assert Decimal(2600) == "2600";
    assert Decimal(2600000) == "2600000";
    ParseIntToString(2600000);
  }

  /** The query `?min_price=2600000`. */
  function MinPriceQuery(): Query {
    Query(None, None, None, None, None, None, Some("2600000"), None)
  }

  /** A listing passes `?min_price=2600000` exactly when its parsed price is at least 2600000. */
  lemma MinPriceQueryMatches(p: Property)
    ensures Matches(MinPriceQuery(), p) <==> ParsePrice(p.price) >= 2600000
  {
    var q := MinPriceQuery();
    assert MatchesStorage(q, p);
    assert !Given(q.maxPrice);
    MinPriceExample();
    assert ParseInt(q.minPrice.value) == Some(2600000);
    var x := ParsePrice(p.price);
    assert AtLeastGiven(q.minPrice, x) <==> x >= 2600000;
    assert MatchesPrice(q, p) <==> x >= 2600000;
  }

  lemma FilterPair(a: Property, b: Property, f: Property -> bool)
    requires !f(a) && f(b)
    ensures Filter([a, b], f) == [b]
  {
    assert [a, b][..1] == [a];
    assert Filter([a], f) == [];
  }

  /**
   * Two villas priced "2 500 000 kr" and "3 000 000 kr": `min_price=2600000`
   * keeps only the second.
   */
  lemma TwoVillasScenario(a: Property, b: Property)
    requires a.kind == Villa && a.price == "2 500 000 kr"
    requires b.kind == Villa && b.price == "3 000 000 kr"
    ensures Search([a, b], MinPriceQuery()) == Ok([b])
  {
    ParseDisplayedExample();
    ThreeMillionExample();
    MinPriceQueryMatches(a);
    MinPriceQueryMatches(b);
    SearchIsFilter([a, b], MinPriceQuery());
    FilterPair(a, b, (p: Property) => Matches(MinPriceQuery(), p));
  }

  // ---------------------------------------------------------------------
  // The implementation, step by step as `get_queryset` narrows.
  // ---------------------------------------------------------------------

  /** One more row of the prefix is kept exactly when it satisfies the criterion. */
  lemma KeepPrefix(ps: seq<Property>, i: nat, c: Criterion)
    requires i < |ps|
    ensures Keep(ps[..i + 1], c) == Keep(ps[..i], c) + (if Holds(c, ps[i]) then [ps[i]] else [])
  {
    assert ps[..i + 1] == ps[..i] + [ps[i]];
    FilterSnoc(ps[..i], ps[i], (x: Property) => Holds(c, x));
  }

  /** `[p for p in properties if parse_price(p.price) >= limit]` (or `<=`). */
  method KeepByPrice(properties: seq<Property>, side: Side, limit: int) returns (kept: seq<Property>)
    ensures kept == Keep(properties, PriceBounded(side, limit))
  {
    kept := [];
    var i := 0;
    while i < |properties|
      invariant 0 <= i <= |properties|
      invariant kept == Keep(properties[..i], PriceBounded(side, limit))
    {
      var p := properties[i];
      KeepPrefix(properties, i, PriceBounded(side, limit));
      if Within(ParsePrice(p.price), side, limit) {
        kept := kept + [p];
      }
      i := i + 1;
    }
    assert properties[..i] == properties;
  }

  /**
   * `if min_rooms: queryset = queryset.filter(rooms__gte=min_rooms)` and its
   * three siblings: the database reads the bound with `int()` and raises
   * when it cannot. `todo` are the numeric filters still to come, `b` first.
   */
  method FilterBound(queryset: seq<Property>, ghost store: seq<Property>, ghost plan: seq<Criterion>,
                     ghost todo: seq<NumericParam>, b: NumericParam)
    returns (r: Result<seq<Property>, SearchError>, ghost plan': seq<Criterion>)
    requires queryset == Run(store, plan)
    requires todo != [] && todo[0] == b
    ensures r.Err? ==> AddBounds(plan, todo) == Err(r.error)
    ensures r.Ok? ==> r.value == Run(store, plan') && AddBounds(plan, todo) == AddBounds(plan', todo[1..])
  {
    plan' := plan;
    if !Given(b.given) {
      return Ok(queryset), plan';
    }
    var n := ParseInt(b.given.value);
    if n.None? {
      return Err(NotANumber(b.name, b.given.value)), plan';
    }
    RunSnoc(store, plan, Bounded(b.column, b.side, n.value));
    plan' := plan + [Bounded(b.column, b.side, n.value)];
    return Ok(Keep(queryset, Bounded(b.column, b.side, n.value))), plan';
  }

  /** `if min_price: try: properties = [...] except ValueError: pass` and the same for `max_price`. */
  method FilterPrice(properties: seq<Property>, v: Option<string>, side: Side) returns (kept: seq<Property>)
    ensures kept == Run(properties, PriceBound(v, side))
  {
    if Given(v) {
      var n := ParseInt(v.value);
      if n.Some? {
        kept := KeepByPrice(properties, side, n.value);
        PriceBoundReadable(v, side, n.value);
        RunSnoc(properties, [], PriceBounded(side, n.value));
        return;
      }
    }
    kept := properties;
  }

  /** Running two lists of criteria one after the other runs their concatenation. */
  lemma {:induction false} RunAppend(ps: seq<Property>, a: seq<Criterion>, b: seq<Criterion>)
    ensures Run(Run(ps, a), b) == Run(ps, a + b)
    decreases |a|
  {
    if a != [] {
      assert (a + b)[1..] == a[1..] + b;
      RunAppend(Keep(ps, a[0]), a[1..], b);
    } else {
      assert a + b == b;
    }
  }

  /** The database part of `get_queryset`: the filters in source order. */
  method FilterInDatabase(store: seq<Property>, q: Query) returns (r: Result<seq<Property>, SearchError>)
    ensures r == StorageResult(store, q)
  {
    var queryset := store;
    ghost var plan: seq<Criterion> := [];
    if Given(q.area) {
      RunSnoc(store, plan, AreaLike(q.area.value));
      queryset := Keep(queryset, AreaLike(q.area.value));
      plan := plan + [AreaLike(q.area.value)];
    }
    ghost var todo := NumericParams(q);
    assert plan == AreaPlan(q);
    var step;
    step, plan := FilterBound(queryset, store, plan, todo, NumericParam("min_rooms", q.minRooms, Rooms, AtLeast));
    if step.Err? {
      return Err(step.error);
    }
    queryset, todo := step.value, todo[1..];
    step, plan := FilterBound(queryset, store, plan, todo, NumericParam("max_rooms", q.maxRooms, Rooms, AtMost));
    if step.Err? {
      return Err(step.error);
    }
    queryset, todo := step.value, todo[1..];
    step, plan := FilterBound(queryset, store, plan, todo, NumericParam("min_area", q.minArea, Sqm, AtLeast));
    if step.Err? {
      return Err(step.error);
    }
    queryset, todo := step.value, todo[1..];
    step, plan := FilterBound(queryset, store, plan, todo, NumericParam("max_area", q.maxArea, Sqm, AtMost));
    if step.Err? {
      return Err(step.error);
    }
    queryset, todo := step.value, todo[1..];
    assert todo == [];
    assert StoragePlan(q) == Ok(plan + KindPlan(q));
    if Given(q.kind) {
      RunSnoc(store, plan, KindLike(q.kind.value));
      queryset := Keep(queryset, KindLike(q.kind.value));
    } else {
      assert plan + KindPlan(q) == plan;
    }
    return Ok(queryset);
  }

  /** `get_queryset` over a table held in table order. */
  method GetQueryset(store: seq<Property>, q: Query) returns (r: Result<seq<Property>, SearchError>)
    ensures r == Search(store, q)
  {
    var narrowed := FilterInDatabase(store, q);
    if narrowed.Err? {
      return narrowed;
    }
    var queryset := narrowed.value;
    if Given(q.minPrice) || Given(q.maxPrice) {
      var properties := FilterPrice(queryset, q.minPrice, AtLeast);
      properties := FilterPrice(properties, q.maxPrice, AtMost);
      RunAppend(queryset, PriceBound(q.minPrice, AtLeast), PriceBound(q.maxPrice, AtMost));
      return Ok(properties);
    }
    return Ok(queryset);
  }
}

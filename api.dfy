/**
 * The two HTTP resources: `GET /calculate_disbursement`, which validates its
 * query, checks the week against the ISO week count of the year, looks the
 * merchant up by name and saves a new disbursement; and `GET /disbursement`,
 * a read-only selection over the disbursement table.
 */
module Api {
  import opened Decimals
  import opened Calendar
  import opened Fees
  import opened Models

  /** Query-string parameters after conversion; None for a missing one (or a week or year that is not an integer). */
  datatype Query = Query(merchantName: Option<string>, week: Option<int>, year: Option<int>)

  /** One disbursement as the read endpoint renders it. */
  datatype Item = Item(amount: Dec, week: int, year: int, merchant: string)

  datatype Response =
    | Created(id: int)
    | Listing(items: seq<Item>)
    | Single(item: Item)
    | BadRequest
    | NotFound
    | ServerError

  /**
   * The HTTP status of a response; 404 and 500 come from the two error
   * handlers of the API object. Only a created or read result is a success,
   * the two refusals of the request are client errors, and only an unhandled
   * exception is a server error.
   */
  function Status(r: Response): (code: int)
    ensures 200 <= code < 300 <==> r.Created? || r.Listing? || r.Single?
    ensures 400 <= code < 500 <==> r.BadRequest? || r.NotFound?
    ensures 500 <= code < 600 <==> r.ServerError?
  {
    match r
    case Created(_) => 201
    case Listing(_) => 200
    case Single(_) => 200
    case BadRequest => 400
    case NotFound => 404
    case ServerError => 500
  }

  // ---------------------------------------------------------------------------
  // Schemas

  predicate NameInRange(name: string) { 1 <= |name| <= 50 }

  predicate WeekInRange(week: int) { 1 <= week <= 53 }

  predicate YearInRange(year: int) { 1980 <= year <= 3000 }

  /**
   * `DisbursementQueryAsyncSchema`: all three parameters required. It has the
   * same rules as the read schema, with the merchant name made mandatory.
   */
  predicate CalculationQueryValid(q: Query)
    ensures CalculationQueryValid(q) <==> ReadQueryValid(q) && q.merchantName.Some?
  {
    && q.merchantName.Some? && NameInRange(q.merchantName.value)
    && q.week.Some? && WeekInRange(q.week.value)
    && q.year.Some? && YearInRange(q.year.value)
  }

  /** `DisbursementQuerySchema`: the merchant name is optional. */
  predicate ReadQueryValid(q: Query)
    ensures ReadQueryValid(q) ==> q.week.Some? && 1 <= q.week.value <= 53 && q.year.Some? && 1980 <= q.year.value <= 3000
  {
    && (q.merchantName.Some? ==> NameInRange(q.merchantName.value))
    && q.week.Some? && WeekInRange(q.week.value)
    && q.year.Some? && YearInRange(q.year.value)
  }

  // ---------------------------------------------------------------------------
  // weeks_for_year

  /** The year has 53 ISO weeks: it starts on a Thursday, or on a Wednesday in a leap year. */
  predicate LongIsoYear(year: int)
  {
    var jan1 := Weekday(Date(year, 1, 1));
    jan1 == 3 || (jan1 == 2 && IsLeap(year))
  }

  /** `weeks_for_year`: the ISO week number of 28 December, which is always in the year's last ISO week. */
  function WeeksForYear(year: int): (weeks: int)
    requires 1 <= year <= 9999
    ensures weeks == 52 || weeks == 53
    ensures weeks == 53 <==> LongIsoYear(year)
  {
    IsoWeekOfDecember28(year);
    IsoCalendar(Date(year, 12, 28)).week
  }

  lemma WeeksIn2020And2021()
    ensures WeeksForYear(2020) == 53
    ensures WeeksForYear(2021) == 52
  {
    assert Weekday(Date(2020, 1, 1)) == 2 && IsLeap(2020);
    assert Weekday(Date(2021, 1, 1)) == 4;
  }

  /**
   * An order completed on Monday 27 December 2021 is in `%W` week 52, so only
   * a request for week 53 of 2021 would select it; 2021 has 52 ISO weeks, so
   * no request the week guard accepts ever disburses it.
   */
  lemma {:induction false} LateDecember2021OrderNeverDisbursed(merchants: seq<Merchant>, o: Order, week: int, year: int)
    requires o.completedAt == Some(Date(2021, 12, 27))
    requires YearInRange(year) && 1 <= week <= WeeksForYear(year)
    ensures !Funds(merchants, o, o.merchantId, week, year)
  {
    LateDecember2021();
    WeeksIn2020And2021();
  }

  /**
   * An order completed on Wednesday 1 January 2020 is in `%W` week 0, so it
   * funds the week-1 disbursement of 2020.
   */
  lemma {:induction false} NewYear2020OrderFundsWeekOne(merchants: seq<Merchant>, o: Order)
    requires o.completedAt == Some(Date(2020, 1, 1)) && HasMerchant(merchants, o.merchantId)
    ensures Funds(merchants, o, o.merchantId, 1, 2020)
    ensures forall week :: 1 <= week <= 53 && week != 1 ==> !Funds(merchants, o, o.merchantId, week, 2020)
  {
    NewYear2020();
  }

  // ---------------------------------------------------------------------------
  // Merchant lookup

  /** The merchants `Merchant.query.filter(Merchant.name == name)` returns, in store order. */
  function MerchantsNamed(merchants: seq<Merchant>, name: string): (r: seq<Merchant>)
    ensures forall m :: m in r <==> m in merchants && m.name == name
    ensures forall m :: multiset(r)[m] == if m.name == name then multiset(merchants)[m] else 0
  {
    if merchants == [] then []
    else
      var init := MerchantsNamed(merchants[..|merchants| - 1], name);
      var last := merchants[|merchants| - 1];
      assert merchants == merchants[..|merchants| - 1] + [last];
      if last.name == name then init + [last] else init
  }

  /** A name no merchant has matches nothing. */
  lemma {:induction false} NoMerchantNamed(merchants: seq<Merchant>, name: string)
    requires forall m :: m in merchants ==> m.name != name
    ensures MerchantsNamed(merchants, name) == []
    decreases |merchants|
  {
    if merchants != [] {
      var init := merchants[..|merchants| - 1];
      assert merchants[|merchants| - 1] in merchants;
      assert forall m :: m in init ==> m in merchants;
      NoMerchantNamed(init, name);
    }
  }

  /** The name of the merchant with a given id (the `merchant` relationship of a row). */
  function MerchantName(merchants: seq<Merchant>, id: int): (r: Option<string>)
    ensures r.Some? <==> HasMerchant(merchants, id)
    ensures r.Some? ==> exists k :: 0 <= k < |merchants| && merchants[k].id == id && merchants[k].name == r.value
  {
    if merchants == [] then None
    else if merchants[0].id == id then Some(merchants[0].name)
    else
      var r := MerchantName(merchants[1..], id);
      assert forall k :: 1 <= k < |merchants| ==> merchants[k] == merchants[1..][k - 1];
      assert HasMerchant(merchants[1..], id) ==> HasMerchant(merchants, id);
      r
  }

  /** With distinct ids, a merchant's id leads back to its own name. */
  lemma {:induction false} MerchantNameOf(merchants: seq<Merchant>, m: Merchant)
    requires DistinctMerchantIds(merchants) && m in merchants
    ensures MerchantName(merchants, m.id) == Some(m.name)
  {
    var i :| 0 <= i < |merchants| && merchants[i] == m;
    assert HasMerchant(merchants, m.id);
    var k :| 0 <= k < |merchants| && merchants[k].id == m.id && merchants[k].name == MerchantName(merchants, m.id).value;
    assert k == i;
  }

  // ---------------------------------------------------------------------------
  // GET /calculate_disbursement

  /**
   * The query passes both 400 guards: the schema, then the week against the
   * year's ISO week count. Week 53 passes only in a long ISO year.
   */
  predicate Accepted(q: Query)
    ensures Accepted(q) <==> CalculationQueryValid(q) && (q.week.value <= 52 || LongIsoYear(q.year.value))
  {
    CalculationQueryValid(q) && q.week.value <= WeeksForYear(q.year.value)
  }

  datatype Decision = Reject(response: Response) | Proceed(merchant: Merchant, week: int, year: int)

  /**
   * The guards of the calculate endpoint, in order: a bad query or a week
   * past the year's last ISO week is a 400 whatever the merchant table holds;
   * then the name must match exactly one merchant, `.one()` raising
   * `NoResultFound` (404) for none and `MultipleResultsFound` (500) for more.
   */
  function CheckCalculation(merchants: seq<Merchant>, q: Query): (d: Decision)
    ensures d == Reject(BadRequest) <==> !Accepted(q)
    ensures d == Reject(NotFound) <==> Accepted(q) && MerchantsNamed(merchants, q.merchantName.value) == []
    ensures d == Reject(ServerError) <==> Accepted(q) && |MerchantsNamed(merchants, q.merchantName.value)| > 1
    ensures d.Proceed? <==> Accepted(q) && |MerchantsNamed(merchants, q.merchantName.value)| == 1
    ensures d.Proceed? ==>
      && d.merchant in merchants && d.merchant.name == q.merchantName.value
      && d.week == q.week.value && d.year == q.year.value
  {
    if !Accepted(q) then Reject(BadRequest)
    else
      var named := MerchantsNamed(merchants, q.merchantName.value);
      if named == [] then Reject(NotFound)
      else if |named| > 1 then Reject(ServerError)
      else
        assert named[0] in named;
        Proceed(named[0], q.week.value, q.year.value)
  }

  /**
   * `AsyncBusiness.get`: a rejected request leaves the table as it was; an
   * accepted one saves a blank disbursement for the merchant, week and year,
   * which appends exactly one row of that key, stamps every row of the key
   * with the freshly computed amount, and answers 201 with the new id.
   */
  method RequestCalculation(db: Database, q: Query) returns (response: Response)
    modifies db
    requires db.Valid()
    ensures db.Valid()
    ensures db.merchants == old(db.merchants) && db.orders == old(db.orders)
    ensures match CheckCalculation(old(db.merchants), q)
      case Reject(r) => response == r && db.disbursements == old(db.disbursements)
      case Proceed(m, week, year) =>
        && response == Created(NextId(old(db.disbursements)))
        && db.disbursements == AfterInsert(db.merchants, db.orders, old(db.disbursements),
             DisbursementRow(NextId(old(db.disbursements)), m.id, week, year, None))
        && KeyCount(db.disbursements, m.id, week, year) == KeyCount(old(db.disbursements), m.id, week, year) + 1
  {
    if !CalculationQueryValid(q) {
      return BadRequest;
    }
    var name := q.merchantName.value;
    var year := q.year.value;
    var week := q.week.value;
    if week > WeeksForYear(year) {
      return BadRequest;
    }
    var d := new Disbursement.Blank();
    var named := MerchantsNamed(db.merchants, name);
    if |named| == 0 {
      return NotFound;
    } else if |named| > 1 {
      return ServerError;
    }
    ghost var before := db.disbursements;
    d.Save(db, year, week, named[0]);
    InsertAddsOneRowOfItsKey(db.merchants, db.orders, before,
      DisbursementRow(d.id.value, named[0].id, week, year, None), named[0].id, week, year);
    response := Created(d.id.value);
  }

  // ---------------------------------------------------------------------------
  // GET /disbursement

  /** `asdict` of a row; None where the amount cannot be read or no merchant has the row's id. */
  function AsItem(merchants: seq<Merchant>, r: DisbursementRow): Option<Item>
  {
    match (RowAmount(r), MerchantName(merchants, r.merchantId))
    case (Some(amount), Some(name)) => Some(Item(amount, r.week, r.year, name))
    case _ => None
  }

  /**
   * A row renders exactly when its amount reads and a merchant has its id;
   * the item then carries that amount, the row's week and year, and the
   * name of the merchant with the row's id.
   */
  lemma {:induction false} AsItemRenders(merchants: seq<Merchant>, r: DisbursementRow)
    ensures AsItem(merchants, r).Some? <==> RowAmount(r).Some? && HasMerchant(merchants, r.merchantId)
    ensures AsItem(merchants, r).Some? ==>
      && AsItem(merchants, r).value.amount == RowAmount(r).value
      && AsItem(merchants, r).value.week == r.week && AsItem(merchants, r).value.year == r.year
      && exists k :: 0 <= k < |merchants| && merchants[k].id == r.merchantId
           && merchants[k].name == AsItem(merchants, r).value.merchant
  {
  }

  /** The rows of a week across merchants: the join keeps the rows whose merchant exists; store order. */
  function ListedRows(merchants: seq<Merchant>, rows: seq<DisbursementRow>, week: int, year: int): (r: seq<DisbursementRow>)
    ensures forall x :: x in r <==> x in rows && x.week == week && x.year == year && HasMerchant(merchants, x.merchantId)
    ensures forall x ::
              multiset(r)[x] == (if x.week == week && x.year == year && HasMerchant(merchants, x.merchantId) then multiset(rows)[x] else 0)
  {
    if rows == [] then []
    else
      var init := ListedRows(merchants, rows[..|rows| - 1], week, year);
      var last := rows[|rows| - 1];
      assert rows == rows[..|rows| - 1] + [last];
      if last.week == week && last.year == year && HasMerchant(merchants, last.merchantId) then init + [last] else init
  }

  /**
   * The listing keeps store order: listing a table that grew by the rows `b`
   * lists the old rows first, then the listed rows of `b`, each in its place.
   */
  lemma {:induction false} ListedRowsAppend(merchants: seq<Merchant>, a: seq<DisbursementRow>, b: seq<DisbursementRow>, week: int, year: int)
    ensures ListedRows(merchants, a + b, week, year) == ListedRows(merchants, a, week, year) + ListedRows(merchants, b, week, year)
    decreases |b|
  {
    if b == [] {
      assert a + b == a;
    } else {
      var b' := b[..|b| - 1];
      var last := b[|b| - 1];
      SplitLast(a, b);
      ListedRowsAppend(merchants, a, b', week, year);
      var keep := ListedRowsSnoc(merchants, a + b', last, week, year);
      var keep' := ListedRowsSnoc(merchants, b', last, week, year);
      Associative(ListedRows(merchants, a, week, year), ListedRows(merchants, b', week, year), keep);
    }
  }

  lemma Associative(x: seq<DisbursementRow>, y: seq<DisbursementRow>, z: seq<DisbursementRow>)
    ensures (x + y) + z == x + (y + z)
  {
  }

  /** Both `b` and `a + b` end with the last row of a non-empty `b`. */
  lemma SplitLast(a: seq<DisbursementRow>, b: seq<DisbursementRow>)
    requires b != []
    ensures a + b == (a + b[..|b| - 1]) + [b[|b| - 1]]
    ensures b == b[..|b| - 1] + [b[|b| - 1]]
  {
  }

  /** Listing a table grown by one row lists that row last, if it qualifies. */
  lemma {:induction false} ListedRowsSnoc(merchants: seq<Merchant>, s: seq<DisbursementRow>, x: DisbursementRow, week: int, year: int)
    returns (keep: seq<DisbursementRow>)
    ensures keep == if x.week == week && x.year == year && HasMerchant(merchants, x.merchantId) then [x] else []
    ensures ListedRows(merchants, s + [x], week, year) == ListedRows(merchants, s, week, year) + keep
  {
    assert (s + [x])[..|s|] == s;
    keep := if x.week == week && x.year == year && HasMerchant(merchants, x.merchantId) then [x] else [];
  }

  /** A single row is listed exactly when it is of the week and year and its merchant exists. */
  lemma {:induction false} ListedRowsSingle(merchants: seq<Merchant>, x: DisbursementRow, week: int, year: int)
    ensures ListedRows(merchants, [x], week, year)
      == if x.week == week && x.year == year && HasMerchant(merchants, x.merchantId) then [x] else []
  {
    assert [x][..0] == [];
  }

  /** The rows of one key, in store order. */
  function RowsOfKey(rows: seq<DisbursementRow>, merchantId: int, week: int, year: int): (r: seq<DisbursementRow>)
    ensures forall x :: x in r <==> x in rows && HasKey(x, merchantId, week, year)
    ensures |r| == KeyCount(rows, merchantId, week, year)
  {
    if rows == [] then []
    else
      var init := RowsOfKey(rows[..|rows| - 1], merchantId, week, year);
      var last := rows[|rows| - 1];
      assert rows == rows[..|rows| - 1] + [last];
      if HasKey(last, merchantId, week, year) then init + [last] else init
  }

  /** `[dis.asdict() for dis in disbursements]`: None when some row cannot be rendered. */
  function Items(merchants: seq<Merchant>, rows: seq<DisbursementRow>): (r: Option<seq<Item>>)
    ensures r.Some? <==> forall i :: 0 <= i < |rows| ==> AsItem(merchants, rows[i]).Some?
    ensures r.Some? ==> |r.value| == |rows| && forall i :: 0 <= i < |rows| ==> Some(r.value[i]) == AsItem(merchants, rows[i])
  {
    if rows == [] then Some([])
    else
      var front := rows[..|rows| - 1];
      var last := rows[|rows| - 1];
      assert rows == front + [last];
      assert forall i :: 0 <= i < |front| ==> front[i] == rows[i];
      match (Items(merchants, front), AsItem(merchants, last))
      case (Some(items), Some(item)) => Some(items + [item])
      case _ => None
  }

  /**
   * `GetBusiness.get`: a read that never changes the tables. An invalid
   * query, and only an invalid query, is a 400. A name that more than one
   * merchant has is a 500, because `.scalar()` calls `.one()`. The other
   * outcomes are stated by the lemmas that follow.
   */
  function Read(merchants: seq<Merchant>, rows: seq<DisbursementRow>, q: Query): (r: Response)
    ensures r == BadRequest <==> !ReadQueryValid(q)
    ensures ReadQueryValid(q) && q.merchantName.Some? && |MerchantsNamed(merchants, q.merchantName.value)| > 1
      ==> r == ServerError
  {
    if !ReadQueryValid(q) then BadRequest
    else if q.merchantName.None? then
      match Items(merchants, ListedRows(merchants, rows, q.week.value, q.year.value))
      case None => ServerError
      case Some(items) => Listing(items)
    else
      var named := MerchantsNamed(merchants, q.merchantName.value);
      if named == [] then Listing([])
      else if |named| > 1 then ServerError
      else
        var mine := RowsOfKey(rows, named[0].id, q.week.value, q.year.value);
        if mine == [] then NotFound
        else if |mine| > 1 then ServerError
        else
          match AsItem(merchants, mine[0])
          case None => ServerError
          case Some(item) => Single(item)
  }

  /** Without a merchant name, every row of the week whose merchant exists is listed, in store order, with its amount. */
  lemma {:induction false} ReadAllMerchants(merchants: seq<Merchant>, rows: seq<DisbursementRow>, q: Query)
    requires ReadQueryValid(q) && q.merchantName.None? && AmountsReadable(rows)
    ensures var listed := ListedRows(merchants, rows, q.week.value, q.year.value);
      && Read(merchants, rows, q).Listing?
      && |Read(merchants, rows, q).items| == |listed|
      && forall i :: 0 <= i < |listed| ==>
           && Read(merchants, rows, q).items[i].amount == RowAmount(listed[i]).value
           && Read(merchants, rows, q).items[i].week == q.week.value
           && Read(merchants, rows, q).items[i].year == q.year.value
           && Some(Read(merchants, rows, q).items[i].merchant) == MerchantName(merchants, listed[i].merchantId)
  {
    var listed := ListedRows(merchants, rows, q.week.value, q.year.value);
    ListedRowsRender(merchants, rows, q.week.value, q.year.value);
    var items := Items(merchants, listed).value;
    assert Read(merchants, rows, q) == Listing(items);
    forall i | 0 <= i < |listed|
      ensures && items[i].amount == RowAmount(listed[i]).value
              && items[i].week == q.week.value && items[i].year == q.year.value
              && Some(items[i].merchant) == MerchantName(merchants, listed[i].merchantId)
    {
      assert Some(items[i]) == AsItem(merchants, listed[i]);
      assert listed[i] in listed;
    }
  }

  /** When every stored amount reads, every listed row renders. */
  lemma {:induction false} ListedRowsRender(merchants: seq<Merchant>, rows: seq<DisbursementRow>, week: int, year: int)
    requires AmountsReadable(rows)
    ensures Items(merchants, ListedRows(merchants, rows, week, year)).Some?
  {
    var listed := ListedRows(merchants, rows, week, year);
    forall i | 0 <= i < |listed|
      ensures AsItem(merchants, listed[i]).Some?
    {
      assert listed[i] in rows;
      var j :| 0 <= j < |rows| && rows[j] == listed[i];
      assert RowAmount(rows[j]).Some?;
    }
  }

  /** An empty table reads as an empty list. */
  lemma {:induction false} ReadEmptyTable(merchants: seq<Merchant>, q: Query)
    requires ReadQueryValid(q) && q.merchantName.None?
    ensures Read(merchants, [], q) == Listing([])
  {
  }

  /** A name no merchant has reads as an empty list, never as an error. */
  lemma {:induction false} ReadUnknownMerchant(merchants: seq<Merchant>, rows: seq<DisbursementRow>, q: Query)
    requires ReadQueryValid(q) && q.merchantName.Some?
    requires forall m :: m in merchants ==> m.name != q.merchantName.value
    ensures Read(merchants, rows, q) == Listing([])
  {
    NoMerchantNamed(merchants, q.merchantName.value);
  }

  /**
   * A name that exactly one merchant has: no row of its key is a 404, one row
   * is that row as a single object, more than one is a 500 from `.one()`.
   */
  lemma {:induction false} ReadKnownMerchant(merchants: seq<Merchant>, rows: seq<DisbursementRow>, q: Query, m: Merchant)
    requires ReadQueryValid(q) && q.merchantName.Some?
    requires DistinctMerchantIds(merchants) && AmountsReadable(rows)
    requires MerchantsNamed(merchants, q.merchantName.value) == [m]
    ensures var count := KeyCount(rows, m.id, q.week.value, q.year.value);
      && (Read(merchants, rows, q) == NotFound <==> count == 0)
      && (Read(merchants, rows, q) == ServerError <==> count > 1)
      && (Read(merchants, rows, q).Single? <==> count == 1)
      && (count == 1 ==>
           var r := RowsOfKey(rows, m.id, q.week.value, q.year.value)[0];
           Read(merchants, rows, q) == Single(Item(RowAmount(r).value, q.week.value, q.year.value, m.name)))
  {
    var mine := RowsOfKey(rows, m.id, q.week.value, q.year.value);
    assert Read(merchants, rows, q)
      == if mine == [] then NotFound
         else if |mine| > 1 then ServerError
         else match AsItem(merchants, mine[0]) case None => ServerError case Some(item) => Single(item);
    if |mine| == 1 {
      assert mine[0] in rows;
      var j :| 0 <= j < |rows| && rows[j] == mine[0];
      assert RowAmount(mine[0]).Some?;
      assert m in MerchantsNamed(merchants, q.merchantName.value);
      MerchantNameOf(merchants, m);
      assert AsItem(merchants, mine[0]) == Some(Item(RowAmount(mine[0]).value, q.week.value, q.year.value, m.name));
    }
  }

  // ---------------------------------------------------------------------------
  // The integration scenario

  /**
   * The data of the scenario: merchant 1, `merchant_1`, with an order of 1.00
   * completed on 1 January 2020, and a query for week 1 of 2020 by that name.
   */
  predicate Scenario(merchant: Merchant, order: Order, q: Query)
  {
    && merchant == Merchant(1, "merchant_1")
    && order.merchantId == 1 && order.completedAt == Some(Date(2020, 1, 1))
    && OrderAmount(order) == Some(Dec(false, 100, -2))
    && q == Query(Some("merchant_1"), Some(1), Some(2020))
  }

  /** The period selector finds the scenario's order, and only its amount, for week 1 of 2020. */
  lemma {:induction false} ScenarioSelection(merchant: Merchant, order: Order, q: Query)
    requires Scenario(merchant, order, q)
    ensures AmountsByMerchantInWeek([merchant], [order], 1, 1, 2020) == Some([Dec(false, 100, -2)])
  {
    var merchants := [merchant];
    assert merchants[0].id == 1;
    NewYear2020OrderFundsWeekOne(merchants, order);
    assert [order][..0] == [];
    var selected := SelectedOrders(merchants, [order], 1, 1, 2020);
    assert selected == [] + [order];
    assert selected[..0] == [];
    assert ReadAmounts(selected) == Some([] + [Dec(false, 100, -2)]);
    assert [] + [Dec(false, 100, -2)] == [Dec(false, 100, -2)];
  }

  /** The scenario's request passes the guards and the hook computes 1.01 for its key. */
  lemma {:induction false} ScenarioCalculation(merchant: Merchant, order: Order, q: Query)
    requires Scenario(merchant, order, q)
    ensures CheckCalculation([merchant], q) == Proceed(merchant, 1, 2020)
    ensures OrdersReadable([order])
    ensures WeekAmount([merchant], [order], 1, 1, 2020) == Dec(false, 101, -2)
  {
    WeeksIn2020And2021();
    assert Accepted(q);
    assert [merchant][..0] == [];
    assert MerchantsNamed([merchant], q.merchantName.value) == [] + [merchant];
    ScenarioSelection(merchant, order, q);
    OneUnitInCents();
  }

  /** After the scenario's calculation the table holds one row, of the requested key, at 1.01. */
  lemma {:induction false} ScenarioTable(merchant: Merchant, order: Order, q: Query, rows: seq<DisbursementRow>)
    requires Scenario(merchant, order, q)
    requires OrdersReadable([order])
    requires rows == AfterInsert([merchant], [order], [], DisbursementRow(1, 1, 1, 2020, None))
    ensures |rows| == 1 && HasKey(rows[0], 1, 1, 2020) && AmountsReadable(rows)
    ensures RowAmount(rows[0]) == Some(Dec(false, 101, -2))
  {
    ScenarioCalculation(merchant, order, q);
    var row := DisbursementRow(1, 1, 1, 2020, None);
    AfterInsertStamps([merchant], [order], [], row);
    AfterInsertValid([merchant], [order], [], row);
  }

  /** Reading the scenario's week for its merchant after the calculation gives the one row, at 1.01. */
  lemma {:induction false} ScenarioRead(merchant: Merchant, order: Order, q: Query, rows: seq<DisbursementRow>)
    requires Scenario(merchant, order, q)
    requires |rows| == 1 && HasKey(rows[0], 1, 1, 2020) && AmountsReadable(rows)
    requires RowAmount(rows[0]) == Some(Dec(false, 101, -2))
    ensures Read([merchant], rows, q) == Single(Item(Dec(false, 101, -2), 1, 2020, "merchant_1"))
  {
    assert rows[..0] == [];
    assert RowsOfKey(rows, 1, 1, 2020) == [] + [rows[0]];
    assert [merchant][..0] == [];
    assert MerchantsNamed([merchant], q.merchantName.value) == [] + [merchant];
    ReadKnownMerchant([merchant], rows, q, merchant);
  }

  /**
   * Merchant `merchant_1` has one order of 1.00 completed on 1 January 2020.
   * Calculating week 1 of 2020 creates disbursement 1, and reading that week
   * for the merchant gives 1.01.
   */
  method CalculateThenRead() returns (created: Response, read: Response)
    ensures created == Created(1)
    ensures read == Single(Item(Dec(false, 101, -2), 1, 2020, "merchant_1"))
  {
    var db := new Database();
    var added := db.AddMerchant(1, "merchant_1");
    var placed := db.AddOrder(1, 1, Dec(false, 100, -2), Some(Date(2020, 1, 1)));
    var merchant := db.merchants[0];
    var order := db.orders[0];
    var q := Query(Some("merchant_1"), Some(1), Some(2020));
    assert Scenario(merchant, order, q);
    assert db.merchants == [merchant] && db.orders == [order] && db.disbursements == [];
    ScenarioCalculation(merchant, order, q);
    created := RequestCalculation(db, q);
    assert created == Created(NextId([]));
    ScenarioTable(merchant, order, q, db.disbursements);
    ScenarioRead(merchant, order, q, db.disbursements);
    read := Read(db.merchants, db.disbursements, q);
  }
}

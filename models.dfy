/**
 * The persistent entities and the disbursement engine: merchants, orders
 * with a text amount column, the period selector that picks the orders
 * funding a (merchant, week, year) disbursement, the fee loop, the
 * `Disbursement` object, and the database whose disbursement table is
 * recomputed by an after-insert hook.
 */
module Models {
  import opened Decimals
  import opened Calendar
  import opened Fees

  datatype Merchant = Merchant(id: int, name: string)

  /** An order row. `completedAt` is null for orders that were never completed. */
  datatype Order = Order(id: int, merchantId: int, amountText: string, completedAt: Option<Date>)

  /**
   * The getter both amount properties share: `Decimal(text)` of the column,
   * None where that raises (a null column, or a text that is not a number).
   * It reads back every text the setter's `str(amount)` writes.
   */
  function ColumnAmount(text: Option<string>): (r: Option<Dec>)
    ensures text.None? ==> r.None?
    ensures forall d :: text == Some(ToString(d)) ==> r == Some(d)
  {
    StrReadsBack();
    if text.None? then None else ParseDecimal(text.value)
  }

  /** The `Order.amount` getter. */
  function OrderAmount(o: Order): (r: Option<Dec>)
    ensures forall d :: o.amountText == ToString(d) ==> r == Some(d)
  {
    ColumnAmount(Some(o.amountText))
  }

  /** The `Order.amount` setter: the column receives `str(amount)`. */
  function SetOrderAmount(o: Order, amount: Dec): (o': Order)
    ensures OrderAmount(o') == Some(amount)
    ensures o'.id == o.id && o'.merchantId == o.merchantId && o'.completedAt == o.completedAt
  {
    ParseToString(amount);
    o.(amountText := ToString(amount))
  }

  predicate HasMerchant(merchants: seq<Merchant>, id: int)
  {
    exists k :: 0 <= k < |merchants| && merchants[k].id == id
  }

  predicate HasOrder(orders: seq<Order>, id: int)
  {
    exists k :: 0 <= k < |orders| && orders[k].id == id
  }

  /** Order ids are a primary key. */
  predicate DistinctOrderIds(orders: seq<Order>)
  {
    forall i, j :: 0 <= i < j < |orders| ==> orders[i].id != orders[j].id
  }

  /** Merchant ids are a primary key. */
  predicate DistinctMerchantIds(merchants: seq<Merchant>)
  {
    forall i, j :: 0 <= i < j < |merchants| ==> merchants[i].id != merchants[j].id
  }

  predicate OrdersReadable(orders: seq<Order>)
  {
    forall o :: o in orders ==> OrderAmount(o).Some?
  }

  // ---------------------------------------------------------------------------
  // The period selector: Order.amounts_by_merchant_in_week

  /**
   * Order `o` funds the disbursement of `merchantId` for `week` of `year`: it
   * belongs to that merchant, the merchant exists (the query joins the
   * merchant table), and it was completed in `year`, in the `%W` week just
   * before `week`.  A null completion date yields NULL for both extractions,
   * which never compares equal, so such an order never funds anything.
   */
  predicate Funds(merchants: seq<Merchant>, o: Order, merchantId: int, week: int, year: int)
  {
    && o.merchantId == merchantId
    && HasMerchant(merchants, merchantId)
    && o.completedAt.Some?
    && ValidDate(o.completedAt.value)
    && o.completedAt.value.year == year
    && WeekW(o.completedAt.value) == week - 1
  }

  /** The orders the selection query returns, in store order. */
  function SelectedOrders(merchants: seq<Merchant>, orders: seq<Order>, merchantId: int, week: int, year: int): (r: seq<Order>)
    ensures forall o :: o in r <==> o in orders && Funds(merchants, o, merchantId, week, year)
    ensures forall o :: multiset(r)[o] == if Funds(merchants, o, merchantId, week, year) then multiset(orders)[o] else 0
    ensures |r| <= |orders|
  {
    if orders == [] then []
    else
      var init := SelectedOrders(merchants, orders[..|orders| - 1], merchantId, week, year);
      var last := orders[|orders| - 1];
      assert orders == orders[..|orders| - 1] + [last];
      if Funds(merchants, last, merchantId, week, year) then init + [last] else init
  }

  /**
   * With order ids a primary key, the selection holds each order at most
   * once, so no order is paid twice.
   */
  lemma {:induction false} SelectionDistinct(merchants: seq<Merchant>, orders: seq<Order>, merchantId: int, week: int, year: int)
    requires DistinctOrderIds(orders)
    ensures DistinctOrderIds(SelectedOrders(merchants, orders, merchantId, week, year))
    decreases |orders|
  {
    if orders != [] {
      var init := orders[..|orders| - 1];
      var last := orders[|orders| - 1];
      assert DistinctOrderIds(init) by {
        forall i, j | 0 <= i < j < |init|
          ensures init[i].id != init[j].id
        {
          assert init[i] == orders[i] && init[j] == orders[j];
        }
      }
      SelectionDistinct(merchants, init, merchantId, week, year);
      var selected := SelectedOrders(merchants, init, merchantId, week, year);
      var r := SelectedOrders(merchants, orders, merchantId, week, year);
      if Funds(merchants, last, merchantId, week, year) {
        assert r == selected + [last];
        forall i, j | 0 <= i < j < |r|
          ensures r[i].id != r[j].id
        {
          assert r[i] == selected[i];
          if j == |selected| {
            assert selected[i] in init;
            var k :| 0 <= k < |init| && init[k] == selected[i];
            assert orders[k] == selected[i];
          } else {
            assert r[j] == selected[j];
          }
        }
      } else {
        assert r == selected;
      }
    }
  }

  /** `[order.amount for order in result]`: None when some amount text does not parse. */
  function ReadAmounts(os: seq<Order>): (r: Option<seq<Dec>>)
    ensures r.Some? <==> forall o :: o in os ==> OrderAmount(o).Some?
    ensures r.Some? ==> |r.value| == |os| && forall i :: 0 <= i < |os| ==> Some(r.value[i]) == OrderAmount(os[i])
  {
    if os == [] then Some([])
    else
      var front := os[..|os| - 1];
      var last := os[|os| - 1];
      assert os == front + [last];
      assert forall i :: 0 <= i < |front| ==> front[i] == os[i];
      assert forall o :: o in os <==> o in front || o == last;
      match (ReadAmounts(front), OrderAmount(last))
      case (Some(amounts), Some(a)) => Some(amounts + [a])
      case _ => None
  }

  /**
   * `Order.amounts_by_merchant_in_week`: the amounts of the selected orders,
   * in the order the query returns them. It fails exactly when the amount
   * text of some order that funds the key does not parse.
   */
  function AmountsByMerchantInWeek(merchants: seq<Merchant>, orders: seq<Order>, merchantId: int, week: int, year: int): (r: Option<seq<Dec>>)
    ensures r.Some? <==> forall o :: o in orders && Funds(merchants, o, merchantId, week, year) ==> OrderAmount(o).Some?
    ensures r.Some? ==> var selected := SelectedOrders(merchants, orders, merchantId, week, year);
      && |r.value| == |selected|
      && forall i :: 0 <= i < |selected| ==> Some(r.value[i]) == OrderAmount(selected[i])
  {
    ReadAmounts(SelectedOrders(merchants, orders, merchantId, week, year))
  }

  /** What the after-insert hook writes for a key: the disbursed amount of the orders that fund it. */
  function WeekAmount(merchants: seq<Merchant>, orders: seq<Order>, merchantId: int, week: int, year: int): (amount: Dec)
    requires OrdersReadable(orders)
    ensures AmountsByMerchantInWeek(merchants, orders, merchantId, week, year).Some?
    ensures var total := RawTotal(AmountsByMerchantInWeek(merchants, orders, merchantId, week, year).value);
      && amount.exponent == -2
      && (amount.negative <==> total < 0.0)
      && Magnitude(total) - 0.005 < amount.coefficient as real / 100.0 <= Magnitude(total) + 0.005
    ensures (forall o :: o in orders ==> !Funds(merchants, o, merchantId, week, year)) ==> amount == Dec(false, 0, -2)
  {
    EmptyWeek();
    DisbursedAmount(AmountsByMerchantInWeek(merchants, orders, merchantId, week, year).value)
  }

  // ---------------------------------------------------------------------------
  // The fee loop: Disbursement.calculate_amount

  /**
   * Walks the selected amounts once, adding each amount and its tier's fee
   * to an unrounded total, and quantizes only the final total.  The result
   * is the disbursed amount of the selection, which fails only when a
   * stored amount does not parse.
   */
  method CalculateAmount(merchants: seq<Merchant>, orders: seq<Order>, merchantId: int, week: int, year: int)
    returns (amount: Option<Dec>)
    ensures var selected := AmountsByMerchantInWeek(merchants, orders, merchantId, week, year);
      && (amount.Some? <==> selected.Some?)
      && (amount.Some? ==> amount.value == DisbursedAmount(selected.value))
  {
    var selected := AmountsByMerchantInWeek(merchants, orders, merchantId, week, year);
    if selected.None? {
      return None;
    }
    var amounts := selected.value;
    var total := 0.0;
    var i := 0;
    while i < |amounts|
      invariant 0 <= i <= |amounts|
      invariant total == RawTotal(amounts[..i])
    {
      var a := Value(amounts[i]);
      ghost var before := total;
      ContributionByTier(before, a);
      if a < 50.0 {
        total := total + a + a * SmallOrderRate;
      } else if 50.0 <= a < 300.0 {
        total := total + a + a * MediumOrderRate;
      } else {
        total := total + a + a * LargeOrderRate;
      }
      assert total == before + Contribution(a);
      RawTotalStep(amounts, i);
      i := i + 1;
    }
    assert amounts[..i] == amounts;
    amount := Some(Quantize(total));
  }

  // ---------------------------------------------------------------------------
  // The disbursement table

  /** A row of the disbursement table; the amount column is text and may be null. */
  datatype DisbursementRow = DisbursementRow(id: int, merchantId: int, week: int, year: int, amountText: Option<string>)

  /** `Disbursement.amount` read from a row: None where `Decimal(text)` raises. */
  function RowAmount(r: DisbursementRow): Option<Dec>
  {
    ColumnAmount(r.amountText)
  }

  predicate HasKey(r: DisbursementRow, merchantId: int, week: int, year: int)
  {
    r.merchantId == merchantId && r.week == week && r.year == year
  }

  /** Row ids are positive and grow with insertion order. */
  predicate IdsIncreasing(rows: seq<DisbursementRow>)
  {
    && (forall i :: 0 <= i < |rows| ==> rows[i].id >= 1)
    && (forall i, j :: 0 <= i < j < |rows| ==> rows[i].id < rows[j].id)
  }

  predicate AmountsReadable(rows: seq<DisbursementRow>)
  {
    forall i :: 0 <= i < |rows| ==> RowAmount(rows[i]).Some?
  }

  /** The id SQLite gives the next row: one more than the largest id, 1 in an empty table. */
  function NextId(rows: seq<DisbursementRow>): int
  {
    if rows == [] then 1 else rows[|rows| - 1].id + 1
  }

  function Stamp(r: DisbursementRow, merchantId: int, week: int, year: int, text: string): DisbursementRow
  {
    if HasKey(r, merchantId, week, year) then r.(amountText := Some(text)) else r
  }

  /** The hook's `UPDATE disbursement SET amount = text WHERE merchant_id, week, year match`. */
  function Restamp(rows: seq<DisbursementRow>, merchantId: int, week: int, year: int, text: string): (r: seq<DisbursementRow>)
    ensures |r| == |rows|
    ensures forall i :: 0 <= i < |rows| && HasKey(rows[i], merchantId, week, year) ==> r[i].amountText == Some(text)
    ensures forall i :: 0 <= i < |rows| && !HasKey(rows[i], merchantId, week, year) ==> r[i] == rows[i]
    ensures forall i :: 0 <= i < |rows| ==>
      r[i].id == rows[i].id && HasKey(r[i], rows[i].merchantId, rows[i].week, rows[i].year)
  {
    seq(|rows|, i requires 0 <= i < |rows| => Stamp(rows[i], merchantId, week, year, text))
  }

  /**
   * The table after inserting `row` and running the hook: the new row is
   * appended and every row of its key receives the key's freshly computed amount.
   */
  function AfterInsert(merchants: seq<Merchant>, orders: seq<Order>, rows: seq<DisbursementRow>, row: DisbursementRow): (r: seq<DisbursementRow>)
    requires OrdersReadable(orders)
    ensures |r| == |rows| + 1
    ensures r[|rows|].id == row.id && HasKey(r[|rows|], row.merchantId, row.week, row.year)
    ensures forall i :: 0 <= i < |rows| && !HasKey(rows[i], row.merchantId, row.week, row.year) ==> r[i] == rows[i]
  {
    var amount := WeekAmount(merchants, orders, row.merchantId, row.week, row.year);
    Restamp(rows + [row], row.merchantId, row.week, row.year, ToString(amount))
  }

  /** How many rows carry a key. */
  function KeyCount(rows: seq<DisbursementRow>, merchantId: int, week: int, year: int): nat
  {
    if rows == [] then 0
    else
      var last := if HasKey(rows[|rows| - 1], merchantId, week, year) then 1 else 0;
      KeyCount(rows[..|rows| - 1], merchantId, week, year) + last
  }

  /**
   * After an insert, every row of the inserted key reads back the amount the
   * hook computed from the orders, and every other row is exactly as before;
   * ids and keys of all rows are untouched and the new row is last.
   */
  lemma {:induction false} AfterInsertStamps(merchants: seq<Merchant>, orders: seq<Order>, rows: seq<DisbursementRow>, row: DisbursementRow)
    requires OrdersReadable(orders)
    ensures var r := AfterInsert(merchants, orders, rows, row);
      var amount := WeekAmount(merchants, orders, row.merchantId, row.week, row.year);
      && |r| == |rows| + 1
      && r[|rows|].id == row.id && HasKey(r[|rows|], row.merchantId, row.week, row.year)
      && (forall i :: 0 <= i < |r| && HasKey(r[i], row.merchantId, row.week, row.year) ==> RowAmount(r[i]) == Some(amount))
      && (forall i :: 0 <= i < |rows| && !HasKey(rows[i], row.merchantId, row.week, row.year) ==> r[i] == rows[i])
      && (forall i :: 0 <= i < |rows| ==>
            r[i].id == rows[i].id && HasKey(r[i], rows[i].merchantId, rows[i].week, rows[i].year))
  {
    var amount := WeekAmount(merchants, orders, row.merchantId, row.week, row.year);
    ParseToString(amount);
    var r := AfterInsert(merchants, orders, rows, row);
    assert forall i :: 0 <= i < |rows| ==> (rows + [row])[i] == rows[i];
    assert (rows + [row])[|rows|] == row;
  }

  /** Restamping keeps the keys of the rows, hence how many rows have each key. */
  lemma {:induction false} RestampKeyCount(rows: seq<DisbursementRow>, m: int, w: int, y: int, text: string, merchantId: int, week: int, year: int)
    ensures KeyCount(Restamp(rows, m, w, y, text), merchantId, week, year) == KeyCount(rows, merchantId, week, year)
    decreases |rows|
  {
    if rows != [] {
      var r := Restamp(rows, m, w, y, text);
      var init := rows[..|rows| - 1];
      assert r[..|r| - 1] == Restamp(init, m, w, y, text);
      RestampKeyCount(init, m, w, y, text, merchantId, week, year);
    }
  }

  /**
   * No uniqueness is enforced on (merchant, week, year): inserting a key that
   * is already present adds one more row with that key and leaves the count
   * of every other key as it was.
   */
  lemma {:induction false} InsertAddsOneRowOfItsKey(merchants: seq<Merchant>, orders: seq<Order>, rows: seq<DisbursementRow>, row: DisbursementRow, merchantId: int, week: int, year: int)
    requires OrdersReadable(orders)
    ensures KeyCount(AfterInsert(merchants, orders, rows, row), merchantId, week, year)
      == KeyCount(rows, merchantId, week, year) + (if HasKey(row, merchantId, week, year) then 1 else 0)
  {
    var amount := WeekAmount(merchants, orders, row.merchantId, row.week, row.year);
    RestampKeyCount(rows + [row], row.merchantId, row.week, row.year, ToString(amount), merchantId, week, year);
    assert (rows + [row])[..|rows|] == rows;
  }

  /** The hook leaves the table well formed: ids still increase and every amount parses. */
  lemma {:induction false} AfterInsertValid(merchants: seq<Merchant>, orders: seq<Order>, rows: seq<DisbursementRow>, row: DisbursementRow)
    requires OrdersReadable(orders) && IdsIncreasing(rows) && AmountsReadable(rows)
    requires row.id == NextId(rows)
    ensures IdsIncreasing(AfterInsert(merchants, orders, rows, row))
    ensures AmountsReadable(AfterInsert(merchants, orders, rows, row))
  {
    AfterInsertStamps(merchants, orders, rows, row);
    var r := AfterInsert(merchants, orders, rows, row);
    AppendIdsIncreasing(rows, row);
    forall i, j | 0 <= i < j < |r|
      ensures r[i].id < r[j].id
    {
      assert r[i].id == (rows + [row])[i].id && r[j].id == (rows + [row])[j].id;
    }
    forall i | 0 <= i < |r|
      ensures RowAmount(r[i]).Some?
    {
      if i < |rows| && !HasKey(rows[i], row.merchantId, row.week, row.year) {
        assert r[i] == rows[i];
      }
    }
  }

  /** A row with the next id keeps the ids increasing. */
  lemma {:induction false} AppendIdsIncreasing(rows: seq<DisbursementRow>, row: DisbursementRow)
    requires IdsIncreasing(rows) && row.id == NextId(rows)
    ensures IdsIncreasing(rows + [row])
  {
    var s := rows + [row];
    forall i, j | 0 <= i < j < |s|
      ensures s[i].id < s[j].id
    {
      if j == |rows| {
        assert s[i] == rows[i];
        if i < |rows| - 1 {
          assert rows[i].id < rows[|rows| - 1].id;
        }
      }
    }
  }

  // ---------------------------------------------------------------------------
  // The mapped objects

  /** A `Disbursement` object before and after it is flushed to the table. */
  class Disbursement {
    var id: Option<int>
    var amountText: Option<string>
    var week: Option<int>
    var year: Option<int>
    var merchantId: Option<int>

    /** `Disbursement()`: every column unset. */
    constructor Blank()
      ensures id.None? && amountText.None? && week.None? && year.None? && merchantId.None?
    {
      id := None;
      amountText := None;
      week := None;
      year := None;
      merchantId := None;
    }

    /** `Disbursement(amount=..., week=..., year=..., merchant_id=...)`; the amount goes through the setter. */
    constructor (amount: Dec, week: int, year: int, merchantId: int)
      ensures id.None? && Amount() == Some(amount)
      ensures this.week == Some(week) && this.year == Some(year) && this.merchantId == Some(merchantId)
    {
      id := None;
      amountText := Some(ToString(amount));
      this.week := Some(week);
      this.year := Some(year);
      this.merchantId := Some(merchantId);
      ParseToString(amount);
    }

    /** The `amount` getter; None where `Decimal(self._amount)` raises (no amount yet, or bad text). */
    function Amount(): Option<Dec>
      reads this
    {
      ColumnAmount(amountText)
    }

    /** The `amount` setter stores `str(amount)`, which the getter reads back unchanged. */
    method SetAmount(amount: Dec)
      modifies this
      ensures amountText == Some(ToString(amount)) && Amount() == Some(amount)
      ensures id == old(id) && week == old(week) && year == old(year) && merchantId == old(merchantId)
    {
      amountText := Some(ToString(amount));
      ParseToString(amount);
    }

    /**
     * `save`: sets the key columns from the arguments and commits the object,
     * which inserts it and fires the after-insert hook.
     */
    method Save(db: Database, year: int, week: int, merchant: Merchant)
      modifies this, db
      requires db.Valid() && id.None?
      ensures db.Valid()
      ensures merchantId == Some(merchant.id) && this.week == Some(week) && this.year == Some(year)
      ensures amountText == old(amountText)
      ensures id == Some(NextId(old(db.disbursements)))
      ensures db.merchants == old(db.merchants) && db.orders == old(db.orders)
      ensures db.disbursements == AfterInsert(db.merchants, db.orders, old(db.disbursements),
        DisbursementRow(id.value, merchant.id, week, year, old(amountText)))
    {
      merchantId := Some(merchant.id);
      this.week := Some(week);
      this.year := Some(year);
      db.Insert(this);
    }
  }

  /** The three tables the engine reads and writes. */
  class Database {
    var merchants: seq<Merchant>
    var orders: seq<Order>
    var disbursements: seq<DisbursementRow>

    predicate Valid()
      reads this
    {
      && DistinctMerchantIds(merchants)
      && DistinctOrderIds(orders)
      && OrdersReadable(orders)
      && IdsIncreasing(disbursements)
      && AmountsReadable(disbursements)
    }

    constructor ()
      ensures Valid() && merchants == [] && orders == [] && disbursements == []
    {
      merchants := [];
      orders := [];
      disbursements := [];
    }

    /** Adds a merchant; a taken id violates the primary key and changes nothing. */
    method AddMerchant(id: int, name: string) returns (added: bool)
      modifies this
      requires Valid()
      ensures Valid()
      ensures added <==> !HasMerchant(old(merchants), id)
      ensures merchants == if added then old(merchants) + [Merchant(id, name)] else old(merchants)
      ensures orders == old(orders) && disbursements == old(disbursements)
    {
      if exists k :: 0 <= k < |merchants| && merchants[k].id == id {
        return false;
      }
      merchants := merchants + [Merchant(id, name)];
      added := true;
    }

    /**
     * Adds an order; a taken id violates the primary key and changes nothing.
     * The amount goes through the setter, so it reads back as given.
     */
    method AddOrder(id: int, merchantId: int, amount: Dec, completedAt: Option<Date>) returns (added: bool)
      modifies this
      requires Valid()
      ensures Valid()
      ensures added <==> !HasOrder(old(orders), id)
      ensures orders == if added then old(orders) + [Order(id, merchantId, ToString(amount), completedAt)] else old(orders)
      ensures added ==> OrderAmount(orders[|orders| - 1]) == Some(amount)
      ensures merchants == old(merchants) && disbursements == old(disbursements)
    {
      if exists k :: 0 <= k < |orders| && orders[k].id == id {
        return false;
      }
      orders := orders + [SetOrderAmount(Order(id, merchantId, "", completedAt), amount)];
      added := true;
    }

    /** The flush of a new `Disbursement`: the INSERT, then the after-insert hook. */
    method Insert(d: Disbursement)
      modifies this, d
      requires Valid() && d.id.None?
      requires d.merchantId.Some? && d.week.Some? && d.year.Some?
      ensures Valid()
      ensures d.id == Some(NextId(old(disbursements)))
      ensures d.amountText == old(d.amountText) && d.merchantId == old(d.merchantId)
      ensures d.week == old(d.week) && d.year == old(d.year)
      ensures merchants == old(merchants) && orders == old(orders)
      ensures disbursements == AfterInsert(merchants, orders, old(disbursements),
        DisbursementRow(d.id.value, d.merchantId.value, d.week.value, d.year.value, d.amountText))
    {
      var row := DisbursementRow(NextId(disbursements), d.merchantId.value, d.week.value, d.year.value, d.amountText);
      AfterInsertValid(merchants, orders, disbursements, row);
      disbursements := disbursements + [row];
      d.id := Some(row.id);
      OnInsert(row.merchantId, row.week, row.year);
    }

    /**
     * The after-insert hook: computes the key's amount from the orders and
     * writes `str(amount)` into every row of the key.
     */
    method OnInsert(merchantId: int, week: int, year: int)
      modifies this
      requires OrdersReadable(orders)
      ensures merchants == old(merchants) && orders == old(orders)
      ensures disbursements == Restamp(old(disbursements), merchantId, week, year,
        ToString(WeekAmount(merchants, orders, merchantId, week, year)))
    {
      var amount := CalculateAmount(merchants, orders, merchantId, week, year);
      disbursements := Restamp(disbursements, merchantId, week, year, ToString(amount.value));
    }
  }
}

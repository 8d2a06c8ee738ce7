/** The two tables the receipt backend keeps, `checks` and `products`, and
    the session operations the check code performs on them: adding a check
    header (which assigns its serial id on flush) and adding product rows.
    A check's products are the product rows carrying its id, in insertion
    order, which is what eager loading of `Check.products` yields. */
module Store {

  import opened Outcomes

  /** A `Date` column value. */
  datatype Date = Date(year: nat, month: nat, day: nat)

  /** Chronological order on dates. */
  predicate OnOrBefore(a: Date, b: Date)
  {
    a.year < b.year
    || (a.year == b.year && a.month < b.month)
    || (a.year == b.year && a.month == b.month && a.day <= b.day)
  }

  /** A row of `checks`. */
  datatype CheckRow = CheckRow(
    id: nat,
    userId: nat,
    createdAt: Date,
    total: real,
    paymentType: string,
    paymentAmount: real,
    rest: real)

  /** A row of `products`; `checkId` is the foreign key to `checks.id`. */
  datatype ProductRow = ProductRow(
    name: string,
    price: real,
    quantity: real,
    total: real,
    checkId: nat)

  /** A check together with its eagerly loaded products. */
  datatype CheckAggregate = CheckAggregate(check: CheckRow, products: seq<ProductRow>)

  /** The product rows of one check, in insertion order. */
  function ProductsOf(products: seq<ProductRow>, checkId: nat): (r: seq<ProductRow>)
    ensures |r| <= |products|
    ensures forall p :: p in r ==> p in products && p.checkId == checkId
  {
    if products == [] then []
    else
      var last := products[|products| - 1];
      ProductsOf(products[..|products| - 1], checkId) + (if last.checkId == checkId then [last] else [])
  }

  lemma {:induction false} ProductsOfAppend(a: seq<ProductRow>, b: seq<ProductRow>, checkId: nat)
    ensures ProductsOf(a + b, checkId) == ProductsOf(a, checkId) + ProductsOf(b, checkId)
    decreases |b|
  {
    if b == [] {
      assert a + b == a;
    } else {
      assert (a + b)[..|a + b| - 1] == a + b[..|b| - 1];
      ProductsOfAppend(a, b[..|b| - 1], checkId);
    }
  }

  /** No row of `products` belongs to `checkId`: it has no products. */
  lemma {:induction false} ProductsOfNone(products: seq<ProductRow>, checkId: nat)
    requires forall k :: 0 <= k < |products| ==> products[k].checkId != checkId
    ensures ProductsOf(products, checkId) == []
    decreases |products|
  {
    if products != [] {
      ProductsOfNone(products[..|products| - 1], checkId);
    }
  }

  /** All rows belong to `checkId`: they are all its products. */
  lemma {:induction false} ProductsOfAll(products: seq<ProductRow>, checkId: nat)
    requires forall k :: 0 <= k < |products| ==> products[k].checkId == checkId
    ensures ProductsOf(products, checkId) == products
    decreases |products|
  {
    if products != [] {
      ProductsOfAll(products[..|products| - 1], checkId);
      assert products == products[..|products| - 1] + [products[|products| - 1]];
    }
  }

  /** The sum of the `total` column over some product rows. */
  function SumTotals(rows: seq<ProductRow>): real
  {
    if rows == [] then 0.0 else SumTotals(rows[..|rows| - 1]) + rows[|rows| - 1].total
  }

  /** The arithmetic every stored check is meant to satisfy: its total is the
      sum of its products' totals, each product's total is price times
      quantity, and the change is what was paid minus the total, never
      negative. */
  ghost predicate TotalsAgree(checks: seq<CheckRow>, products: seq<ProductRow>)
  {
    && (forall i :: 0 <= i < |checks| ==>
          && checks[i].total == SumTotals(ProductsOf(products, checks[i].id))
          && checks[i].rest == checks[i].paymentAmount - checks[i].total
          && checks[i].rest >= 0.0)
    && (forall k :: 0 <= k < |products| ==> products[k].total == products[k].price * products[k].quantity)
  }

  /** Check ids are handed out by a serial sequence, so they increase
      strictly along the table and are unique. */
  ghost predicate IdsIncrease(checks: seq<CheckRow>)
  {
    forall i, j :: 0 <= i < j < |checks| ==> checks[i].id < checks[j].id
  }

  /** The database session: both tables and the next value of the
      `checks.id` sequence. */
  class Database {
    var checks: seq<CheckRow>
    var products: seq<ProductRow>
    var nextId: nat

    /** Ids are unique and below the sequence's next value; every product
        row refers to an id already handed out. */
    ghost predicate Valid()
      reads this
    {
      && IdsIncrease(checks)
      && (forall i :: 0 <= i < |checks| ==> checks[i].id < nextId)
      && (forall k :: 0 <= k < |products| ==> products[k].checkId < nextId)
    }

    constructor ()
      ensures Valid()
      ensures checks == [] && products == [] && nextId == 1
    {
      checks, products, nextId := [], [], 1;
    }

    /** `session.add(check)` followed by `flush()`: the row is inserted and
        takes the next id; `created_at` takes its default, today's date. */
    method AddCheck(userId: nat, total: real, paymentType: string, paymentAmount: real,
                    rest: real, today: Date) returns (row: CheckRow)
      requires Valid()
      modifies this
      ensures Valid()
      ensures row == CheckRow(old(nextId), userId, today, total, paymentType, paymentAmount, rest)
      ensures checks == old(checks) + [row]
      ensures products == old(products)
      ensures nextId == old(nextId) + 1
    {
      row := CheckRow(nextId, userId, today, total, paymentType, paymentAmount, rest);
      checks := checks + [row];
      nextId := nextId + 1;
    }

    /** `session.add_all(rows)` for product rows of checks already added. */
    method AddProducts(rows: seq<ProductRow>)
      requires Valid()
      requires forall k :: 0 <= k < |rows| ==> rows[k].checkId < nextId
      modifies this
      ensures Valid()
      ensures products == old(products) + rows
      ensures checks == old(checks) && nextId == old(nextId)
    {
      products := products + rows;
    }
  }
}

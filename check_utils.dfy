/** The helpers of the check endpoints: computing the total and the change
    of a new check, building its header and product rows, and turning the
    list's query parameters into the conditions of the database query. */
module CheckUtils {

  import opened Outcomes
  import opened Products
  import opened CheckSchemas
  import opened Store

  const InsufficientPayment: string := "Payment amount is less than the total price"

  /** `sum(product.price * product.quantity for product in products)`, the
      sum `calculate_totals` computes for itself. */
  function PriceTimesQuantitySum(products: seq<ProductCreate>): real
  {
    if products == [] then 0.0
    else
      var last := products[|products| - 1];
      PriceTimesQuantitySum(products[..|products| - 1]) + last.price * last.quantity
  }

  /** The sum `calculate_totals` computes is `CheckCreate.total`. */
  lemma {:induction false} SumIsCheckCreateTotal(products: seq<ProductCreate>)
    ensures PriceTimesQuantitySum(products) == Total(products)
    decreases |products|
  {
    if products != [] {
      SumIsCheckCreateTotal(products[..|products| - 1]);
    }
  }

  /** `calculate_totals`: the total of the products and the change. The
      request is refused with a 400 exactly when the payment is below the
      total; paying exactly the total succeeds with no change. On success
      the change is never negative and total plus change is the payment. */
  function CalculateTotals(data: CheckCreate): (r: Result<(real, real), HttpError>)
    ensures r.Ok? <==> data.payment.amount >= Total(data.products)
    ensures r.Ok? ==> r.value.0 == Total(data.products)
    ensures r.Ok? ==> r.value.1 >= 0.0 && r.value.0 + r.value.1 == data.payment.amount
    ensures r.Err? ==> r.error == BadRequest(InsufficientPayment)
  {
    SumIsCheckCreateTotal(data.products);
    var total := PriceTimesQuantitySum(data.products);
    var rest := data.payment.amount - total;
    if rest < 0.0 then Err(BadRequest(InsufficientPayment)) else Ok((total, rest))
  }

  /** The product rows `add_products_to_check` adds: one per requested
      product, in request order, each with the check's id and a total of
      price times quantity. */
  function BuildProducts(checkId: nat, items: seq<ProductCreate>): (rows: seq<ProductRow>)
    ensures |rows| == |items|
    ensures forall k :: 0 <= k < |rows| ==>
      && rows[k].checkId == checkId
      && rows[k].name == items[k].name
      && rows[k].price == items[k].price
      && rows[k].quantity == items[k].quantity
      && rows[k].total == items[k].price * items[k].quantity
  {
    seq(|items|, k requires 0 <= k < |items| =>
      ProductRow(items[k].name, items[k].price, items[k].quantity, items[k].price * items[k].quantity, checkId))
  }

  /** The totals of the rows built for a request add up to the request's
      `total`. */
  lemma {:induction false} BuiltRowsSumToTotal(checkId: nat, items: seq<ProductCreate>)
    ensures SumTotals(BuildProducts(checkId, items)) == Total(items)
    decreases |items|
  {
    if items != [] {
      var front := items[..|items| - 1];
      BuiltRowsSumToTotal(checkId, front);
      var rows, frontRows := BuildProducts(checkId, items), BuildProducts(checkId, front);
      assert forall k :: 0 <= k < |front| ==> rows[k] == frontRows[k];
      assert rows[..|items| - 1] == frontRows;
    }
  }

  /** `create_check_record`: add the header and flush, which assigns the id. */
  method CreateCheckRecord(db: Database, userId: nat, total: real, rest: real,
                           paymentType: string, paymentAmount: real, today: Date)
    returns (row: CheckRow)
    requires db.Valid()
    modifies db
    ensures db.Valid()
    ensures row == CheckRow(old(db.nextId), userId, today, total, paymentType, paymentAmount, rest)
    ensures db.checks == old(db.checks) + [row]
    ensures db.products == old(db.products)
    ensures db.nextId == old(db.nextId) + 1
  {
    row := db.AddCheck(userId, total, paymentType, paymentAmount, rest, today);
  }

  /** `add_products_to_check`: add one product row per requested product. */
  method AddProductsToCheck(db: Database, checkId: nat, items: seq<ProductCreate>)
    requires db.Valid() && checkId < db.nextId
    modifies db
    ensures db.Valid()
    ensures db.products == old(db.products) + BuildProducts(checkId, items)
    ensures db.checks == old(db.checks) && db.nextId == old(db.nextId)
  {
    db.AddProducts(BuildProducts(checkId, items));
  }

  /** The first check with the given id, with its products loaded. */
  function FetchCheckWithProducts(checks: seq<CheckRow>, products: seq<ProductRow>, checkId: nat)
    : (r: Option<CheckAggregate>)
    ensures r.Some? <==> exists i :: 0 <= i < |checks| && checks[i].id == checkId
    ensures r.Some? ==>
      && r.value.check in checks && r.value.check.id == checkId
      && r.value.products == ProductsOf(products, checkId)
  {
    if checks == [] then None
    else if checks[0].id == checkId then Some(CheckAggregate(checks[0], ProductsOf(products, checkId)))
    else
      var r := FetchCheckWithProducts(checks[1..], products, checkId);
      assert forall i :: 0 < i < |checks| ==> checks[i] == checks[1..][i - 1];
      r
  }

  // ----- the conditions of the list query -----

  /** One condition of the list query. Dates are kept as the strings the
      caller gave; the database reads them as date literals. */
  datatype Condition =
    | CreatedFrom(literal: string)   // created_at >= literal
    | CreatedTo(literal: string)     // created_at <= literal
    | MinTotal(bound: real)          // total >= bound
    | MaxTotal(bound: real)          // total <= bound
    | PaymentTypeIs(kind: string)    // payment_type == kind
    | OwnedBy(userId: nat)           // user_id == userId

  /** The position of each kind of condition in the list `apply_filters`
      builds. */
  function Rank(c: Condition): nat
  {
    match c
    case CreatedFrom(_) => 0
    case CreatedTo(_) => 1
    case MinTotal(_) => 2
    case MaxTotal(_) => 3
    case PaymentTypeIs(_) => 4
    case OwnedBy(_) => 5
  }

  /** Python truthiness of the optional parameters: None and the empty
      string are false, and so are None and zero for numbers. */
  predicate TextGiven(o: Option<string>) { o.Some? && o.value != "" }
  predicate NumberGiven(o: Option<real>) { o.Some? && o.value != 0.0 }

  /** Whether the parameters ask for condition `c`: a bound or payment
      type exactly when that parameter is truthy, with its value, and the
      owner condition for the caller. */
  predicate Requested(c: Condition, f: FilterParams, userId: nat)
  {
    match c
    case CreatedFrom(s) => TextGiven(f.createdFrom) && s == f.createdFrom.value
    case CreatedTo(s) => TextGiven(f.createdTo) && s == f.createdTo.value
    case MinTotal(x) => NumberGiven(f.minTotal) && x == f.minTotal.value
    case MaxTotal(x) => NumberGiven(f.maxTotal) && x == f.maxTotal.value
    case PaymentTypeIs(s) => TextGiven(f.paymentType) && s == f.paymentType.value
    case OwnedBy(u) => u == userId
  }

  /** Whether the parameter behind rank `k` is truthy; the owner condition
      (rank 5) is always wanted. */
  predicate SlotGiven(f: FilterParams, k: nat)
  {
    match k
    case 0 => TextGiven(f.createdFrom)
    case 1 => TextGiven(f.createdTo)
    case 2 => NumberGiven(f.minTotal)
    case 3 => NumberGiven(f.maxTotal)
    case 4 => TextGiven(f.paymentType)
    case _ => true
  }

  /** How many of the conditions of rank below `k` are wanted. */
  function CountUpTo(f: FilterParams, k: nat): nat
  {
    if k == 0 then 0 else CountUpTo(f, k - 1) + (if SlotGiven(f, k - 1) then 1 else 0)
  }

  /** How many optional parameters are truthy. */
  function GivenCount(f: FilterParams): nat
  {
    CountUpTo(f, 5)
  }

  /** A list of conditions holds exactly the requested ones of rank below
      `k`, in rank order. */
  ghost predicate BuiltUpTo(conds: seq<Condition>, f: FilterParams, userId: nat, k: nat)
  {
    && |conds| == CountUpTo(f, k)
    && (forall i, j :: 0 <= i < j < |conds| ==> Rank(conds[i]) < Rank(conds[j]))
    && (forall i :: 0 <= i < |conds| ==> Rank(conds[i]) < k)
    && (forall c :: c in conds <==> Requested(c, f, userId) && Rank(c) < k)
  }

  /** The condition rank `k` stands for, built from the parameter's value. */
  function Wanted(f: FilterParams, userId: nat, k: nat): (c: Condition)
    requires SlotGiven(f, k)
    ensures Rank(c) == k || (k > 5 && c == OwnedBy(userId))
  {
    match k
    case 0 => CreatedFrom(f.createdFrom.value)
    case 1 => CreatedTo(f.createdTo.value)
    case 2 => MinTotal(f.minTotal.value)
    case 3 => MaxTotal(f.maxTotal.value)
    case 4 => PaymentTypeIs(f.paymentType.value)
    case _ => OwnedBy(userId)
  }

  /** Appending the requested condition of rank `k`. */
  lemma AppendRequested(conds: seq<Condition>, f: FilterParams, userId: nat, k: nat)
    requires BuiltUpTo(conds, f, userId, k) && k <= 5 && SlotGiven(f, k)
    ensures BuiltUpTo(conds + [Wanted(f, userId, k)], f, userId, k + 1)
  {
    var c := Wanted(f, userId, k);
    var next := conds + [c];
    forall d ensures d in next <==> Requested(d, f, userId) && Rank(d) < k + 1 {
      assert d in next <==> d in conds || d == c;
    }
  }

  /** Skipping rank `k` when its parameter is not truthy. */
  lemma SkipUnrequested(conds: seq<Condition>, f: FilterParams, userId: nat, k: nat)
    requires BuiltUpTo(conds, f, userId, k) && k < 5 && !SlotGiven(f, k)
    ensures BuiltUpTo(conds, f, userId, k + 1)
  {
  }

  /** The conditions of rank below `k` the parameters ask for, in rank
      order. */
  function Expected(f: FilterParams, userId: nat, k: nat): seq<Condition>
    requires k <= 6
  {
    if k == 0 then []
    else Expected(f, userId, k - 1) + (if SlotGiven(f, k - 1) then [Wanted(f, userId, k - 1)] else [])
  }

  lemma {:induction false} ExpectedIsBuilt(f: FilterParams, userId: nat, k: nat)
    requires k <= 6
    ensures BuiltUpTo(Expected(f, userId, k), f, userId, k)
  {
    if k > 0 {
      ExpectedIsBuilt(f, userId, k - 1);
      if SlotGiven(f, k - 1) {
        AppendRequested(Expected(f, userId, k - 1), f, userId, k - 1);
      } else {
        SkipUnrequested(Expected(f, userId, k - 1), f, userId, k - 1);
      }
    }
  }

  /** The full list holds exactly the requested conditions, in the fixed
      order, one per truthy parameter plus the owner condition, which
      comes last. */
  lemma ExpectedConditions(f: FilterParams, userId: nat)
    ensures var conds := Expected(f, userId, 6);
      && |conds| == 1 + GivenCount(f)
      && conds[|conds| - 1] == OwnedBy(userId)
      && (forall i, j :: 0 <= i < j < |conds| ==> Rank(conds[i]) < Rank(conds[j]))
      && (forall c :: c in conds <==> Requested(c, f, userId))
  {
    ExpectedIsBuilt(f, userId, 6);
  }

  /** `apply_filters`: one condition per truthy parameter, in the order
      created_from, created_to, min_total, max_total, payment_type, then
      always the owner condition last. */
  method ApplyFilters(f: FilterParams, userId: nat) returns (conds: seq<Condition>)
    ensures conds == Expected(f, userId, 6)
    ensures |conds| == 1 + GivenCount(f)
    ensures conds[|conds| - 1] == OwnedBy(userId)
    ensures forall i, j :: 0 <= i < j < |conds| ==> Rank(conds[i]) < Rank(conds[j])
    ensures forall c :: c in conds <==> Requested(c, f, userId)
  {
    conds := [];
    if TextGiven(f.createdFrom) {
      conds := conds + [CreatedFrom(f.createdFrom.value)];
    }
    assert conds == Expected(f, userId, 1);
    if TextGiven(f.createdTo) {
      conds := conds + [CreatedTo(f.createdTo.value)];
    }
    assert conds == Expected(f, userId, 2);
    if NumberGiven(f.minTotal) {
      conds := conds + [MinTotal(f.minTotal.value)];
    }
    assert conds == Expected(f, userId, 3);
    if NumberGiven(f.maxTotal) {
      conds := conds + [MaxTotal(f.maxTotal.value)];
    }
    assert conds == Expected(f, userId, 4);
    if TextGiven(f.paymentType) {
      conds := conds + [PaymentTypeIs(f.paymentType.value)];
    }
    assert conds == Expected(f, userId, 5);
    conds := conds + [OwnedBy(userId)];
    ExpectedConditions(f, userId);
  }
}

/** The check endpoints: creating a check (totals first, then the header and
    the product rows, then the response built from the stored rows), the
    filtered list, the owner-scoped detail view, and the plain-text
    receipt. */
module CheckRouter {

  import opened Outcomes
  import opened Products
  import opened CheckSchemas
  import opened Store
  import opened CheckUtils
  import opened CheckService
  import Receipt
  import Text

  const CheckNotFound: string := "Check not found"

  /** `ProductResponse(name=..., price=..., quantity=..., total=...)` for
      each stored product row, in order. */
  function ProductResponses(rows: seq<ProductRow>): (r: seq<ProductResponse>)
    ensures |r| == |rows|
    ensures forall i :: 0 <= i < |rows| ==>
      r[i] == ProductResponse(rows[i].name, rows[i].price, rows[i].quantity, rows[i].total)
  {
    seq(|rows|, i requires 0 <= i < |rows| =>
      ProductResponse(rows[i].name, rows[i].price, rows[i].quantity, rows[i].total))
  }

  /** The response fields taken from a stored check and its products. */
  function ResponseOf(a: CheckAggregate): CreateCheckResponse
  {
    CreateCheckResponse(a.check.id, a.check.userId, a.check.createdAt, a.check.total,
                        PaymentResponse(a.check.paymentType, a.check.paymentAmount),
                        a.check.rest, ProductResponses(a.products))
  }

  /** The first product whose response is invalid, or the number of
      products when every one is valid. */
  function FirstInvalidProduct(ps: seq<ProductResponse>): (k: nat)
    ensures k <= |ps|
    ensures forall j :: 0 <= j < k ==> ProductValid(ps[j])
    ensures k < |ps| ==> !ProductValid(ps[k])
  {
    if ps == [] then 0
    else if !ProductValid(ps[0]) then 0
    else
      var k := FirstInvalidProduct(ps[1..]);
      assert forall j :: 1 <= j < 1 + k ==> ps[j] == ps[1..][j - 1];
      1 + k
  }

  /** Building one check response inside a handler. The keyword arguments
      are evaluated before the response is validated, and among them the
      list of product responses, built one by one: the first invalid
      product raises its own errors, located at its own fields, and the
      check's `total` and `rest` are never looked at. Only when every
      product is valid does the check response's own validator run (the
      product responses are not validated again). */
  function BuildResponse(resp: CreateCheckResponse): (r: Result<CreateCheckResponse, seq<FieldError>>)
    ensures r.Ok? <==> ResponseValid(resp)
    ensures r.Ok? ==> r.value == resp
    ensures r.Err? ==> r.error != []
    ensures FirstInvalidProduct(resp.products) < |resp.products| ==>
      r == Err(ProductResponseErrors(resp.products[FirstInvalidProduct(resp.products)], ""))
    ensures (forall i :: 0 <= i < |resp.products| ==> ProductValid(resp.products[i])) ==>
      r == ValidateCheckResponse(resp)
  {
    var k := FirstInvalidProduct(resp.products);
    if k < |resp.products| then Err(ProductResponseErrors(resp.products[k], ""))
    else ValidateCheckResponse(resp)
  }

  // ----- creating a check -----

  /** The product rows of a new check are exactly the rows built for it:
      the older rows all belong to older checks. */
  lemma NewCheckProducts(older: seq<ProductRow>, built: seq<ProductRow>, id: nat)
    requires forall k :: 0 <= k < |older| ==> older[k].checkId < id
    requires forall k :: 0 <= k < |built| ==> built[k].checkId == id
    ensures ProductsOf(older + built, id) == built
  {
    ProductsOfAppend(older, built, id);
    ProductsOfNone(older, id);
    ProductsOfAll(built, id);
  }

  /** An older check keeps exactly the products it had. */
  lemma OlderCheckProducts(older: seq<ProductRow>, built: seq<ProductRow>, id: nat, other: nat)
    requires forall k :: 0 <= k < |built| ==> built[k].checkId == id
    requires other != id
    ensures ProductsOf(older + built, other) == ProductsOf(older, other)
  {
    ProductsOfAppend(older, built, other);
    ProductsOfNone(built, other);
  }

  /** Creating a check keeps the store's arithmetic: the new check's total
      is the sum of its new product rows, its change is the payment minus
      the total and not negative, each new row's total is price times
      quantity, and the older checks keep their products. */
  lemma CreationKeepsTotals(checks: seq<CheckRow>, products: seq<ProductRow>, nextId: nat,
                            row: CheckRow, items: seq<ProductCreate>)
    requires TotalsAgree(checks, products)
    requires forall i :: 0 <= i < |checks| ==> checks[i].id < nextId
    requires forall k :: 0 <= k < |products| ==> products[k].checkId < nextId
    requires row.id == nextId && row.total == Total(items)
    requires row.rest == row.paymentAmount - row.total && row.rest >= 0.0
    ensures TotalsAgree(checks + [row], products + BuildProducts(nextId, items))
  {
    var built := BuildProducts(nextId, items);
    var all := checks + [row];
    forall i | 0 <= i < |all|
      ensures all[i].total == SumTotals(ProductsOf(products + built, all[i].id))
    {
      if i < |checks| {
        OlderCheckProducts(products, built, nextId, checks[i].id);
      } else {
        NewCheckProducts(products, built, nextId);
        BuiltRowsSumToTotal(nextId, items);
      }
    }
  }

  /** The errors of a response built for a new check vanish exactly when
      the total and every product's price, quantity and line total are not
      negative (the change is not negative once the totals passed). */
  lemma NewResponseErrors(resp: CreateCheckResponse, items: seq<ProductCreate>, rows: seq<ProductRow>)
    requires rows == BuildProducts(resp.id, items)
    requires resp.products == ProductResponses(rows)
    ensures CheckResponseErrors(resp) == [] <==>
      && resp.total >= 0.0 && resp.rest >= 0.0
      && forall i :: 0 <= i < |items| ==>
           items[i].price >= 0.0 && items[i].quantity >= 0.0 && items[i].price * items[i].quantity >= 0.0
  {
    assert forall i :: 0 <= i < |items| ==>
      && resp.products[i].price == items[i].price
      && resp.products[i].quantity == items[i].quantity
      && resp.products[i].total == items[i].price * items[i].quantity;
  }

  /** The response `create_check` builds from a freshly stored check and
      the rows built for it: refused (a 500, after the commit) exactly when
      the total or a product's price, quantity or line total is negative. */
  function CreatedResponse(row: CheckRow, items: seq<ProductCreate>): (r: Result<CreateCheckResponse, HttpError>)
    ensures r.Ok? <==>
      && row.total >= 0.0 && row.rest >= 0.0
      && forall i :: 0 <= i < |items| ==>
           items[i].price >= 0.0 && items[i].quantity >= 0.0 && items[i].price * items[i].quantity >= 0.0
    ensures r.Ok? ==> r.value == ResponseOf(CheckAggregate(row, BuildProducts(row.id, items)))
    ensures r.Err? ==> r.error == ResponseInvalid(BuildResponse(ResponseOf(CheckAggregate(row, BuildProducts(row.id, items)))).error)
  {
    var resp := ResponseOf(CheckAggregate(row, BuildProducts(row.id, items)));
    NewResponseErrors(resp, items, BuildProducts(row.id, items));
    match BuildResponse(resp)
    case Ok(v) => Ok(v)
    case Err(errs) => Err(ResponseInvalid(errs))
  }

  /** The header row of a new check: the next id, the caller, today's date,
      the request's total, its payment, and the change. */
  function NewRow(id: nat, userId: nat, today: Date, data: CheckCreate): CheckRow
  {
    CheckRow(id, userId, today, Total(data.products), data.payment.kind,
             data.payment.amount, data.payment.amount - Total(data.products))
  }

  /** `create_check`. The totals are computed first: a payment below the
      total answers 400 and leaves the store as it was. Otherwise the header
      is added (taking the next id and today's date), then one row per
      product, and the transaction is committed; the response is then built
      from the stored rows. Its validator refuses a negative total or a
      negative product field, but only after the commit: such a check is
      stored and the caller receives a 500. */
  method CreateCheck(db: Database, data: CheckCreate, userId: nat, today: Date)
    returns (r: Result<CreateCheckResponse, HttpError>)
    requires db.Valid()
    modifies db
    ensures db.Valid()
    ensures CalculateTotals(data).Err? ==>
      && r == Err(BadRequest(InsufficientPayment))
      && db.checks == old(db.checks) && db.products == old(db.products) && db.nextId == old(db.nextId)
    ensures CalculateTotals(data).Ok? ==>
      && db.checks == old(db.checks) + [NewRow(old(db.nextId), userId, today, data)]
      && db.products == old(db.products) + BuildProducts(old(db.nextId), data.products)
      && db.nextId == old(db.nextId) + 1
      && r == CreatedResponse(NewRow(old(db.nextId), userId, today, data), data.products)
    ensures TotalsAgree(old(db.checks), old(db.products)) ==> TotalsAgree(db.checks, db.products)
  {
    var totals := CalculateTotals(data);
    if totals.Err? {
      return Err(totals.error);
    }
    var total, rest := totals.value.0, totals.value.1;
    assert total == Total(data.products) && rest == data.payment.amount - Total(data.products);
    ghost var checks0, products0, next0 := db.checks, db.products, db.nextId;

    var row := CreateCheckRecord(db, userId, total, rest, data.payment.kind, data.payment.amount, today);
    assert row == NewRow(next0, userId, today, data);
    AddProductsToCheck(db, row.id, data.products);
    ghost var built := BuildProducts(row.id, data.products);
    if TotalsAgree(checks0, products0) {
      CreationKeepsTotals(checks0, products0, next0, row, data.products);
    }

    // `fetch_check_with_products`: the first check with the new id is the
    // new one, since every older id is smaller.
    var fetched := FetchCheckWithProducts(db.checks, db.products, row.id);
    assert db.checks[|checks0|] == row;
    assert fetched.value.check == row by {
      if fetched.value.check in checks0 {
        assert false;
      }
    }
    NewCheckProducts(products0, built, row.id);
    assert fetched.value == CheckAggregate(row, built);
    r := CreatedResponse(fetched.value.check, data.products);
    assert db.checks == checks0 + [row];
  }

  // ----- listing checks -----

  /** The position of the first response whose validator fails, or the
      length of the list when none does: the list comprehension that builds
      the responses stops at the first one that raises. */
  function FirstFailing(rs: seq<CreateCheckResponse>): (k: nat)
    ensures k <= |rs|
    ensures forall j :: 0 <= j < k ==> ResponseValid(rs[j])
    ensures k < |rs| ==> !ResponseValid(rs[k])
  {
    if rs == [] then 0
    else if !ResponseValid(rs[0]) then 0
    else
      var k := FirstFailing(rs[1..]);
      assert forall j :: 1 <= j < 1 + k ==> rs[j] == rs[1..][j - 1];
      1 + k
  }

  /** Building the response list, one check after the other: the first
      check whose response cannot be built fails the whole request with a
      500, with the errors building it raised. */
  function ValidateAll(rs: seq<CreateCheckResponse>): (r: Result<seq<CreateCheckResponse>, HttpError>)
    ensures r.Ok? <==> forall i :: 0 <= i < |rs| ==> ResponseValid(rs[i])
    ensures r.Ok? ==> r.value == rs
    ensures r.Err? ==> FirstFailing(rs) < |rs| && r.error == ResponseInvalid(BuildResponse(rs[FirstFailing(rs)]).error)
  {
    var k := FirstFailing(rs);
    if k == |rs| then Ok(rs) else Err(ResponseInvalid(BuildResponse(rs[k]).error))
  }

  function Responses(aggs: seq<CheckAggregate>): (r: seq<CreateCheckResponse>)
    ensures |r| == |aggs|
    ensures forall i :: 0 <= i < |aggs| ==> r[i] == ResponseOf(aggs[i])
  {
    seq(|aggs|, i requires 0 <= i < |aggs| => ResponseOf(aggs[i]))
  }

  /** `list_checks`. Invalid query parameters answer 422 before the handler
      runs; otherwise the conditions are built, the query runs, and each
      returned check becomes a response. Every check listed is the
      caller's, satisfies every truthy filter, and at most `perPage` are
      listed. */
  method ListChecks(db: Database, f: FilterParams, userId: nat, skip: nat, perPage: nat, read: DateReader)
    returns (r: Result<seq<CreateCheckResponse>, HttpError>)
    ensures FilterParamErrors(f) != [] ==> r == Err(RequestInvalid(FilterParamErrors(f)))
    ensures FilterParamErrors(f) == [] ==>
      r == match GetFilteredChecks(db.checks, db.products, Expected(f, userId, 6), userId, skip, perPage, read)
           case Err(e) => Err(e)
           case Ok(aggs) => ValidateAll(Responses(aggs))
    ensures r.Ok? ==> |r.value| <= perPage
    ensures r.Ok? ==> forall i :: 0 <= i < |r.value| ==>
      && r.value[i].userId == userId
      && r.value[i].total >= 0.0 && r.value[i].rest >= 0.0
      && (NumberGiven(f.minTotal) ==> r.value[i].total >= f.minTotal.value)
      && (NumberGiven(f.maxTotal) ==> r.value[i].total <= f.maxTotal.value)
      && (TextGiven(f.paymentType) ==> r.value[i].payment.kind == f.paymentType.value)
  {
    var errs := FilterParamErrors(f);
    if errs != [] {
      return Err(RequestInvalid(errs));
    }
    var conds := ApplyFilters(f, userId);
    var found := GetFilteredChecks(db.checks, db.products, conds, userId, skip, perPage, read);
    if found.Err? {
      return Err(found.error);
    }
    var aggs := found.value;
    var responses := Responses(aggs);
    r := ValidateAll(responses);
    if r.Ok? {
      forall i | 0 <= i < |r.value|
        ensures && r.value[i].userId == userId
                && r.value[i].total >= 0.0 && r.value[i].rest >= 0.0
                && (NumberGiven(f.minTotal) ==> r.value[i].total >= f.minTotal.value)
                && (NumberGiven(f.maxTotal) ==> r.value[i].total <= f.maxTotal.value)
                && (TextGiven(f.paymentType) ==> r.value[i].payment.kind == f.paymentType.value)
      {
        ConditionsMeaning(f, userId, aggs[i].check, read);
        assert ResponseValid(responses[i]);
      }
    }
  }

  // ----- one check -----

  /** `get_check_by_id`: 404 exactly when the owner-scoped lookup finds
      nothing, so another owner's check answers as a missing one does;
      otherwise the stored check with its products and the link to its text
      receipt, validated like every response. */
  function GetCheckDetail(checks: seq<CheckRow>, products: seq<ProductRow>, checkId: nat, userId: nat,
                          requestUrl: string)
    : (r: Result<DetailCheckResponse, HttpError>)
    ensures r == Err(NotFound(CheckNotFound)) <==> GetCheckById(checks, products, checkId, userId).None?
    ensures r.Ok? ==>
      && GetCheckById(checks, products, checkId, userId).Some?
      && r.value == DetailCheckResponse(ResponseOf(GetCheckById(checks, products, checkId, userId).value),
                                        requestUrl + "/text")
    ensures r.Ok? ==>
      && r.value.base.id == checkId && r.value.base.userId == userId
      && r.value.base.total >= 0.0 && r.value.base.rest >= 0.0
    ensures (r.Err? && !r.error.NotFound?) <==>
      && GetCheckById(checks, products, checkId, userId).Some?
      && !ResponseValid(ResponseOf(GetCheckById(checks, products, checkId, userId).value))
    ensures r.Err? && !r.error.NotFound? ==>
      r.error == ResponseInvalid(BuildResponse(ResponseOf(GetCheckById(checks, products, checkId, userId).value)).error)
  {
    match GetCheckById(checks, products, checkId, userId)
    case None => Err(NotFound(CheckNotFound))
    case Some(a) =>
      var d := DetailCheckResponse(ResponseOf(a), requestUrl + "/text");
      var k := FirstInvalidProduct(d.base.products);
      if k < |d.base.products| then Err(ResponseInvalid(ProductResponseErrors(d.base.products[k], "")))
      else
        match ValidateDetailResponse(d)
        case Ok(v) => Ok(v)
        case Err(errs) => Err(ResponseInvalid(errs))
  }

  // ----- the text receipt -----

  /** An amount in hundredths, as `.2f` shows it for a value with at most
      two decimals. */
  function Cents(x: real): int
  {
    (x * 100.0).Floor
  }

  function ReceiptItems(rows: seq<ProductRow>): (r: seq<Receipt.ReceiptItem>)
    ensures |r| == |rows|
    ensures forall i :: 0 <= i < |rows| ==>
      r[i] == Receipt.ReceiptItem(rows[i].name, Cents(rows[i].quantity), Cents(rows[i].price), Cents(rows[i].total))
  {
    seq(|rows|, i requires 0 <= i < |rows| =>
      Receipt.ReceiptItem(rows[i].name, Cents(rows[i].quantity), Cents(rows[i].price), Cents(rows[i].total)))
  }

  /** What the receipt is printed from: the owner's full name and the
      stored check. */
  function ReceiptDataOf(a: CheckAggregate, fullName: string): Receipt.ReceiptData
  {
    Receipt.ReceiptData(fullName, ReceiptItems(a.products), Cents(a.check.total), Cents(a.check.paymentAmount),
                        Cents(a.check.rest), a.check.paymentType, a.check.createdAt)
  }

  /** `get_check_text`: the check is looked up by id alone, with no owner
      condition, so any check's receipt is served to anyone; a missing id
      answers 404. `fullNames` is the users table; the foreign key on
      `checks.user_id` guarantees every owner is in it. */
  method GetCheckText(db: Database, checkId: nat, fullNames: map<nat, string>, w: Receipt.Widths)
    returns (r: Result<string, HttpError>)
    requires forall i :: 0 <= i < |db.checks| ==> db.checks[i].userId in fullNames
    ensures r == Err(NotFound(CheckNotFound)) <==> forall i :: 0 <= i < |db.checks| ==> db.checks[i].id != checkId
    ensures r.Err? ==> r == Err(NotFound(CheckNotFound))
    ensures r.Ok? ==>
      var a := FetchCheckWithProducts(db.checks, db.products, checkId).value;
      r.value == Text.JoinLines(Receipt.ReceiptLines(ReceiptDataOf(a, fullNames[a.check.userId]), w))
  {
    var found := FetchCheckWithProducts(db.checks, db.products, checkId);
    if found.None? {
      return Err(NotFound(CheckNotFound));
    }
    var a := found.value;
    var text := Receipt.RenderReceipt(ReceiptDataOf(a, fullNames[a.check.userId]), w);
    r := Ok(text);
  }

    // ----- an example -----

  /** Two loaves at 25.50 and a litre of milk at 40 cost 91; paying 100
      leaves 9 in change, paying 50 is refused. */
  lemma ShoppingExample()
    ensures
      var items := [ProductCreate("Bread", 25.5, 2.0), ProductCreate("Milk", 40.0, 1.0)];
      && CalculateTotals(CheckCreate(items, PaymentCreate("cash", 100.0))) == Ok((91.0, 9.0))
      && CalculateTotals(CheckCreate(items, PaymentCreate("card", 50.0))) == Err(BadRequest(InsufficientPayment))
  {
    var items := [ProductCreate("Bread", 25.5, 2.0), ProductCreate("Milk", 40.0, 1.0)];
    TotalAppend([items[0]], [items[1]]);
    TotalOfFew(items[0]);
    TotalOfFew(items[1]);
    assert [items[0]] + [items[1]] == items;
  }

  /** Nothing refuses a negative price on the way in: a refund line of
      -10.00 with nothing paid passes the totals check (total -10, change
      10), the check and its row are stored, and only the response built
      afterwards is refused. The product response is built first, so the
      error reported first is the product's `price`, not the check's
      `total`. */
  lemma NegativePriceExample(today: Date)
    ensures
      var data := CheckCreate([ProductCreate("Refund", -10.0, 1.0)], PaymentCreate("cash", 0.0));
      && CalculateTotals(data) == Ok((-10.0, 10.0))
      && CreatedResponse(NewRow(1, 7, today, data), data.products).Err?
      && CreatedResponse(NewRow(1, 7, today, data), data.products).error.errors
         == [FieldError("price", NegativeMessage("price")), FieldError("total", NegativeMessage("total"))]
  {
    var data := CheckCreate([ProductCreate("Refund", -10.0, 1.0)], PaymentCreate("cash", 0.0));
    TotalOfFew(data.products[0]);
    var row := NewRow(1, 7, today, data);
    var resp := ResponseOf(CheckAggregate(row, BuildProducts(row.id, data.products)));
    var p := resp.products[0];
    assert p == ProductResponse("Refund", -10.0, 1.0, -10.0);
    assert FirstInvalidProduct(resp.products) == 0;
    assert "" + "price" == "price" && "" + "total" == "total";
    assert FieldErrors("", "quantity", p.quantity) == [];
  }
}

/** The check schemas of the receipt backend: the check-creation request and
    its `total`, the check responses whose validator refuses a negative
    total or change, and the query parameters of the check list. */
module CheckSchemas {

  import opened Outcomes
  import opened Products
  import Store
  import Text

  /** A check-creation request. */
  datatype CheckCreate = CheckCreate(products: seq<ProductCreate>, payment: PaymentCreate)

  /** `CheckCreate.total`: `sum(product.total for product in products)`, a
      left fold that starts from zero. */
  function Total(products: seq<ProductCreate>): real
  {
    if products == [] then 0.0 else Total(products[..|products| - 1]) + LineTotal(products[|products| - 1])
  }

  /** The total of two runs of products is the sum of their totals; in
      particular a single product contributes exactly price times quantity. */
  lemma {:induction false} TotalAppend(a: seq<ProductCreate>, b: seq<ProductCreate>)
    ensures Total(a + b) == Total(a) + Total(b)
    decreases |b|
  {
    if b == [] {
      assert a + b == a;
    } else {
      assert (a + b)[..|a + b| - 1] == a + b[..|b| - 1];
      TotalAppend(a, b[..|b| - 1]);
    }
  }

  /** The total of no products is zero, and of one product is its line total. */
  lemma TotalOfFew(p: ProductCreate)
    ensures Total([]) == 0.0
    ensures Total([p]) == p.price * p.quantity
  {
    assert [p][..0] == [];
  }

  /** The payment part of a response. */
  datatype PaymentResponse = PaymentResponse(kind: string, amount: real)

  /** `CreateCheckResponse`. */
  datatype CreateCheckResponse = CreateCheckResponse(
    id: nat,
    userId: nat,
    createdAt: Store.Date,
    total: real,
    payment: PaymentResponse,
    rest: real,
    products: seq<ProductResponse>)

  /** `GetDetailCheckResponse`: a CreateCheckResponse with a link to the
      text receipt. It adds no validator of its own. */
  datatype DetailCheckResponse = DetailCheckResponse(base: CreateCheckResponse, receiptUrl: string)

  /** The errors of the nested products, each under `products.<index>.`. */
  function NestedProductErrors(products: seq<ProductResponse>): (errs: seq<FieldError>)
    ensures errs == [] <==>
      forall i :: 0 <= i < |products| ==> ProductValid(products[i])
    ensures forall e :: e in errs ==> UnderProducts(e)
  {
    if products == [] then []
    else
      var i := |products| - 1;
      var prefix := NestedPrefix + (Text.NatToString(i) + ".");
      var last := ProductResponseErrors(products[i], prefix);
      assert forall k :: 0 <= k < i ==> products[..i][k] == products[k];
      var front := NestedProductErrors(products[..i]);
      ErrorsUnder(products[i], Text.NatToString(i) + ".");
      assert forall e :: e in front + last <==> e in front || e in last;
      front + last
  }

  /** A product's errors located under `products.<rest>` all start with
      `products.`. */
  lemma ErrorsUnder(p: ProductResponse, rest: string)
    ensures forall e :: e in ProductResponseErrors(p, NestedPrefix + rest) ==>
      UnderProducts(e)
  {
    ProductErrorsExact(p, NestedPrefix + rest);
    FieldUnderProducts(rest, "price", NegativeMessage("price"));
    FieldUnderProducts(rest, "quantity", NegativeMessage("quantity"));
    FieldUnderProducts(rest, "total", NegativeMessage("total"));
  }

  lemma FieldUnderProducts(rest: string, name: string, message: string)
    requires name != []
    ensures UnderProducts(FieldError(NestedPrefix + rest + name, message))
  {
    var f := NestedPrefix + rest + name;
    assert f == NestedPrefix + (rest + name);
    assert f[..|NestedPrefix|] == NestedPrefix;
  }

  /** Where pydantic locates the errors of the nested products. */
  const NestedPrefix: string := "products."

  /** An error located inside the `products` list. */
  predicate UnderProducts(e: FieldError)
  {
    |e.field| > |NestedPrefix| && e.field[..|NestedPrefix|] == NestedPrefix
  }

  /** What the response validators accept: a non-negative total and
      change, and non-negative fields in every product. */
  predicate ResponseValid(r: CreateCheckResponse)
  {
    && r.total >= 0.0 && r.rest >= 0.0
    && forall i :: 0 <= i < |r.products| ==> ProductValid(r.products[i])
  }

  /** The errors pydantic collects when building a CreateCheckResponse, in
      field order: `total`, `rest`, then the products. */
  function CheckResponseErrors(r: CreateCheckResponse): (errs: seq<FieldError>)
    ensures errs == [] <==> ResponseValid(r)
    ensures r.total < 0.0 ==> errs[0] == FieldError("total", NegativeMessage("total"))
    ensures r.total >= 0.0 && r.rest < 0.0 ==> errs[0] == FieldError("rest", NegativeMessage("rest"))
    ensures |errs| >= (if r.total < 0.0 then 1 else 0) + (if r.rest < 0.0 then 1 else 0)
    ensures r.total < 0.0 && r.rest < 0.0 ==> errs[1] == FieldError("rest", NegativeMessage("rest"))
    ensures FieldError("total", NegativeMessage("total")) in errs <==> r.total < 0.0
    ensures FieldError("rest", NegativeMessage("rest")) in errs <==> r.rest < 0.0
    ensures forall e :: e in errs ==>
      || (e == FieldError("total", NegativeMessage("total")) && r.total < 0.0)
      || (e == FieldError("rest", NegativeMessage("rest")) && r.rest < 0.0)
      || e in NestedProductErrors(r.products)
  {
    var c := NestedProductErrors(r.products);
    TopLevelFirst(r.total, r.rest, c);
    FieldErrors("", "total", r.total) + FieldErrors("", "rest", r.rest) + c
  }

  /** The check's own errors in front of nested ones: the `total` and
      `rest` errors appear exactly when those values are negative, in that
      order, and no nested error can be mistaken for them. */
  lemma TopLevelFirst(total: real, rest: real, nested: seq<FieldError>)
    requires forall e :: e in nested ==> UnderProducts(e)
    ensures var errs := FieldErrors("", "total", total) + FieldErrors("", "rest", rest) + nested;
      && (total < 0.0 ==> errs[0] == FieldError("total", NegativeMessage("total")))
      && (total >= 0.0 && rest < 0.0 ==> errs[0] == FieldError("rest", NegativeMessage("rest")))
      && |errs| >= (if total < 0.0 then 1 else 0) + (if rest < 0.0 then 1 else 0)
      && (total < 0.0 && rest < 0.0 ==> errs[1] == FieldError("rest", NegativeMessage("rest")))
      && (FieldError("total", NegativeMessage("total")) in errs <==> total < 0.0)
      && (FieldError("rest", NegativeMessage("rest")) in errs <==> rest < 0.0)
      && (forall e :: e in errs ==>
            || (e == FieldError("total", NegativeMessage("total")) && total < 0.0)
            || (e == FieldError("rest", NegativeMessage("rest")) && rest < 0.0)
            || e in nested)
  {
    var a := FieldErrors("", "total", total);
    var b := FieldErrors("", "rest", rest);
    assert forall e :: e in a + b + nested <==> e in a || e in b || e in nested;
    assert FieldError("total", NegativeMessage("total")) !in nested;
    assert FieldError("rest", NegativeMessage("rest")) !in nested;
    assert NegativeMessage("total")[0] != NegativeMessage("rest")[0];
  }

  /** Building a CreateCheckResponse: accepted, unchanged, exactly when
      the total, the change and every product field are non-negative;
      zero passes. */
  function ValidateCheckResponse(r: CreateCheckResponse): (v: Result<CreateCheckResponse, seq<FieldError>>)
    ensures v.Ok? <==> CheckResponseErrors(r) == []
    ensures v.Ok? ==> v.value == r
    ensures v.Err? ==> v.error == CheckResponseErrors(r)
  {
    var errs := CheckResponseErrors(r);
    if errs == [] then Ok(r) else Err(errs)
  }

  /** Building a GetDetailCheckResponse runs the same validation as its
      base class; the receipt URL is not checked. */
  function ValidateDetailResponse(d: DetailCheckResponse): (v: Result<DetailCheckResponse, seq<FieldError>>)
    ensures v.Ok? <==> ValidateCheckResponse(d.base).Ok?
    ensures v.Ok? ==> v.value == d
    ensures v.Err? ==> v.error == CheckResponseErrors(d.base)
  {
    var errs := CheckResponseErrors(d.base);
    if errs == [] then Ok(d) else Err(errs)
  }

  /** The query parameters of the check list, before validation. */
  datatype FilterParams = FilterParams(
    createdFrom: Option<string>,
    createdTo: Option<string>,
    minTotal: Option<real>,
    maxTotal: Option<real>,
    paymentType: Option<string>)

  const GreaterEqualZero: string := "Input should be greater than or equal to 0"
  const PaymentTypePattern: string := "String should match pattern '^(cash|card)$'"

  /** The `ge=0` constraint of an optional number. */
  function BoundErrors(field: string, value: Option<real>): (errs: seq<FieldError>)
    ensures errs == [] <==> (value.Some? ==> value.value >= 0.0)
  {
    if value.Some? && value.value < 0.0 then [FieldError(field, GreaterEqualZero)] else []
  }

  /** The errors of the list's query parameters, in field order: the two
      dates are free-form and never rejected; `min_total` and `max_total`
      must be at least zero; `payment_type` must be exactly "cash" or
      "card". */
  function FilterParamErrors(f: FilterParams): (errs: seq<FieldError>)
    ensures errs == [] <==>
      && (f.minTotal.Some? ==> f.minTotal.value >= 0.0)
      && (f.maxTotal.Some? ==> f.maxTotal.value >= 0.0)
      && (f.paymentType.Some? ==> f.paymentType.value in {"cash", "card"})
  {
    var kind := if f.paymentType.Some? && f.paymentType.value != "cash" && f.paymentType.value != "card"
                then [FieldError("payment_type", PaymentTypePattern)] else [];
    BoundErrors("min_total", f.minTotal) + BoundErrors("max_total", f.maxTotal) + kind
  }
}

/** The product schemas of the receipt backend: a product as submitted in a
    new check, the payment submitted with it, and a product as returned in
    a response, whose validator refuses negative numbers. */
module Products {

  import opened Outcomes

  /** A product in a check-creation request. No field is validated: a
      negative price or quantity is accepted. */
  datatype ProductCreate = ProductCreate(name: string, price: real, quantity: real)

  /** `ProductCreate.total`: price times quantity, exactly (Decimal). */
  function LineTotal(p: ProductCreate): real
  {
    p.price * p.quantity
  }

  /** The payment of a check-creation request. `kind` is the source's
      `type`: any string, and the amount may be negative. */
  datatype PaymentCreate = PaymentCreate(kind: string, amount: real)

  /** A product in a check response. */
  datatype ProductResponse = ProductResponse(name: string, price: real, quantity: real, total: real)

  /** What the product response validator accepts: no negative field. */
  predicate ProductValid(p: ProductResponse)
  {
    p.price >= 0.0 && p.quantity >= 0.0 && p.total >= 0.0
  }

  /** The message of the ValueError raised for a negative `field`. */
  function NegativeMessage(field: string): string
  {
    field + " cannot be negative"
  }

  /** `check_non_negative`: a value below zero raises a ValueError naming
      the field; anything else, zero included, is returned unchanged. */
  function CheckNonNegative(field: string, value: real): (r: Result<real, FieldError>)
    ensures r.Ok? <==> value >= 0.0
    ensures r.Ok? ==> r.value == value
    ensures r.Err? ==> r.error.field == field && r.error.message == NegativeMessage(field)
  {
    if value < 0.0 then Err(FieldError(field, NegativeMessage(field))) else Ok(value)
  }

  /** The errors of one validator run on `field`, located under `prefix`:
      none or one. */
  function FieldErrors(prefix: string, field: string, value: real): (errs: seq<FieldError>)
    ensures errs == [] <==> value >= 0.0
    ensures errs != [] ==> errs == [FieldError(prefix + field, NegativeMessage(field))]
  {
    match CheckNonNegative(field, value)
    case Ok(_) => []
    case Err(e) => [FieldError(prefix + e.field, e.message)]
  }

  /** The errors pydantic collects when building a ProductResponse: the
      validator runs on price, quantity and total, in that order, with
      `prefix` in front of each field name (the location of a nested
      product). */
  function ProductResponseErrors(p: ProductResponse, prefix: string): (errs: seq<FieldError>)
    ensures errs == [] <==> p.price >= 0.0 && p.quantity >= 0.0 && p.total >= 0.0
    ensures |errs| <= 3
    ensures p.price < 0.0 ==> errs[0] == FieldError(prefix + "price", NegativeMessage("price"))
    ensures p.quantity < 0.0 ==> FieldError(prefix + "quantity", NegativeMessage("quantity")) in errs
    ensures p.total < 0.0 ==> errs[|errs| - 1] == FieldError(prefix + "total", NegativeMessage("total"))
    ensures FieldError(prefix + "price", NegativeMessage("price")) in errs <==> p.price < 0.0
    ensures FieldError(prefix + "quantity", NegativeMessage("quantity")) in errs <==> p.quantity < 0.0
    ensures FieldError(prefix + "total", NegativeMessage("total")) in errs <==> p.total < 0.0
    ensures |errs| == (if p.price < 0.0 then 1 else 0) + (if p.quantity < 0.0 then 1 else 0)
                      + (if p.total < 0.0 then 1 else 0)
  {
    var a := FieldErrors(prefix, "price", p.price);
    var b := FieldErrors(prefix, "quantity", p.quantity);
    var c := FieldErrors(prefix, "total", p.total);
    assert b != [] ==> (a + b + c)[|a|] == b[0];
    MessagesDiffer();
    a + b + c
  }

  /** Nothing but the negative fields is reported: every error is the
      error of a negative field, located under `prefix`. */
  lemma ProductErrorsExact(p: ProductResponse, prefix: string)
    ensures forall e :: e in ProductResponseErrors(p, prefix) <==>
      || (e == FieldError(prefix + "price", NegativeMessage("price")) && p.price < 0.0)
      || (e == FieldError(prefix + "quantity", NegativeMessage("quantity")) && p.quantity < 0.0)
      || (e == FieldError(prefix + "total", NegativeMessage("total")) && p.total < 0.0)
  {
    var a := FieldErrors(prefix, "price", p.price);
    var b := FieldErrors(prefix, "quantity", p.quantity);
    var c := FieldErrors(prefix, "total", p.total);
    assert ProductResponseErrors(p, prefix) == a + b + c;
    assert forall e :: e in a + b + c <==> e in a || e in b || e in c;
  }

  /** The three messages are told apart by their first letter. */
  lemma MessagesDiffer()
    ensures NegativeMessage("price") != NegativeMessage("quantity")
    ensures NegativeMessage("price") != NegativeMessage("total")
    ensures NegativeMessage("quantity") != NegativeMessage("total")
  {
    assert NegativeMessage("price")[0] == 'p';
    assert NegativeMessage("quantity")[0] == 'q';
    assert NegativeMessage("total")[0] == 't';
  }

  /** Building a ProductResponse: accepted, unchanged, exactly when no field
      is negative. */
  function ValidateProductResponse(p: ProductResponse): (r: Result<ProductResponse, seq<FieldError>>)
    ensures r.Ok? <==> p.price >= 0.0 && p.quantity >= 0.0 && p.total >= 0.0
    ensures r.Ok? ==> r.value == p
  {
    var errs := ProductResponseErrors(p, "");
    if errs == [] then Ok(p) else Err(errs)
  }
}

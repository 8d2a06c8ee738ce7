/** The two queries of the check service, as operations on the tables: the
    filtered, paginated list (the conjunction of the conditions and the
    owner condition, then OFFSET, then LIMIT, in table order) and the
    owner-scoped lookup by id. Each returned check carries its products. */
module CheckService {

  import opened Outcomes
  import opened Store
  import opened CheckSchemas
  import opened CheckUtils

  /** How the database reads a date literal: the comparison
      `created_at >= '2023-01-01'` makes it parse the string, and a string
      it cannot read makes the whole query fail. */
  type DateReader = string -> Option<Date>

  predicate Readable(c: Condition, read: DateReader)
  {
    match c
    case CreatedFrom(s) => read(s).Some?
    case CreatedTo(s) => read(s).Some?
    case _ => true
  }

  predicate AllReadable(conds: seq<Condition>, read: DateReader)
  {
    forall i :: 0 <= i < |conds| ==> Readable(conds[i], read)
  }

  /** Whether a check row satisfies one condition. */
  predicate Holds(c: Condition, row: CheckRow, read: DateReader)
    requires Readable(c, read)
  {
    match c
    case CreatedFrom(s) => OnOrBefore(read(s).value, row.createdAt)
    case CreatedTo(s) => OnOrBefore(row.createdAt, read(s).value)
    case MinTotal(x) => row.total >= x
    case MaxTotal(x) => row.total <= x
    case PaymentTypeIs(kind) => row.paymentType == kind
    case OwnedBy(u) => row.userId == u
  }

  /** `and_(*conds)`. */
  predicate AllHold(conds: seq<Condition>, row: CheckRow, read: DateReader)
    requires AllReadable(conds, read)
  {
    forall i :: 0 <= i < |conds| ==> Holds(conds[i], row, read)
  }

  /** The rows that satisfy every condition, in table order. */
  function Select(checks: seq<CheckRow>, conds: seq<Condition>, read: DateReader): (r: seq<CheckRow>)
    requires AllReadable(conds, read)
    ensures |r| <= |checks|
    ensures forall x :: x in r <==> x in checks && AllHold(conds, x, read)
    ensures IdsIncrease(checks) ==> IdsIncrease(r)
  {
    if checks == [] then []
    else
      var last := checks[|checks| - 1];
      var init := checks[..|checks| - 1];
      var front := Select(init, conds, read);
      assert checks == init + [last];
      assert IdsIncrease(checks) ==> IdsIncrease(front + [last]) by {
        if IdsIncrease(checks) {
          assert IdsIncrease(init);
          forall x | x in front ensures x.id < last.id {
            var i :| 0 <= i < |init| && init[i] == x;
          }
          IncreasingSnoc(front, last);
        }
      }
      front + (if AllHold(conds, last, read) then [last] else [])
  }

  /** A row with a larger id than every row before it keeps the ids
      increasing. */
  lemma IncreasingSnoc(rows: seq<CheckRow>, last: CheckRow)
    requires IdsIncrease(rows) && forall x :: x in rows ==> x.id < last.id
    ensures IdsIncrease(rows + [last])
  {
    var all := rows + [last];
    forall i, j | 0 <= i < j < |all| ensures all[i].id < all[j].id {
      assert all[i] == rows[i];
      if j < |rows| { assert all[j] == rows[j]; }
    }
  }

  /** OFFSET `skip` LIMIT `perPage`. */
  function Page<T>(xs: seq<T>, skip: nat, perPage: nat): (r: seq<T>)
    ensures |r| <= perPage
    ensures skip >= |xs| ==> r == []
    ensures skip < |xs| ==> |r| == Text.Max(0, if perPage < |xs| - skip then perPage else |xs| - skip)
    ensures skip < |xs| ==> r == xs[skip..skip + |r|]
  {
    if skip >= |xs| then []
    else if perPage < |xs| - skip then xs[skip..skip + perPage]
    else xs[skip..]
  }

  /** A check row with its products, as `selectinload` loads them. */
  function Load(products: seq<ProductRow>, row: CheckRow): CheckAggregate
  {
    CheckAggregate(row, ProductsOf(products, row.id))
  }

  function LoadAll(products: seq<ProductRow>, rows: seq<CheckRow>): (r: seq<CheckAggregate>)
    ensures |r| == |rows|
    ensures forall i :: 0 <= i < |r| ==> r[i] == Load(products, rows[i])
  {
    seq(|rows|, i requires 0 <= i < |rows| => Load(products, rows[i]))
  }

  /** The rows the WHERE clause keeps: every condition and the caller's
      ownership, in table order. */
  function Matches(checks: seq<CheckRow>, conds: seq<Condition>, userId: nat, read: DateReader): (m: seq<CheckRow>)
    requires AllReadable(conds, read)
    ensures forall x :: x in m <==>
      x in checks && x.userId == userId && AllHold(conds, x, read)
    ensures IdsIncrease(checks) ==> IdsIncrease(m)
  {
    var all := conds + [OwnedBy(userId)];
    assert AllReadable(all, read);
    assert forall x :: AllHold(all, x, read) <==> AllHold(conds, x, read) && x.userId == userId by {
      forall x ensures AllHold(all, x, read) <==> AllHold(conds, x, read) && x.userId == userId {
        if AllHold(all, x, read) {
          assert Holds(all[|conds|], x, read);
          forall i | 0 <= i < |conds| ensures Holds(conds[i], x, read) { assert all[i] == conds[i]; }
        }
        if AllHold(conds, x, read) && x.userId == userId {
          forall i | 0 <= i < |all| ensures Holds(all[i], x, read) {
            if i < |conds| { assert all[i] == conds[i]; }
          }
        }
      }
    }
    Select(checks, all, read)
  }

  /** `get_filtered_checks_query`: the checks satisfying every condition and
      belonging to the caller, past the first `skip`, at most `perPage` of
      them, each with its products. A date the database cannot read fails
      the query. */
  function GetFilteredChecks(checks: seq<CheckRow>, products: seq<ProductRow>, conds: seq<Condition>,
                             userId: nat, skip: nat, perPage: nat, read: DateReader)
    : (r: Result<seq<CheckAggregate>, HttpError>)
    ensures r.Err? <==> !AllReadable(conds, read)
    ensures r.Err? ==> r.error == QueryFailed
    ensures r.Ok? ==> |r.value| <= perPage
    ensures r.Ok? ==>
      var m := Matches(checks, conds, userId, read);
      && |r.value| == (if skip >= |m| then 0 else if perPage < |m| - skip then perPage else |m| - skip)
      && forall i :: 0 <= i < |r.value| ==> r.value[i] == Load(products, m[skip + i])
    ensures r.Ok? ==> forall i :: 0 <= i < |r.value| ==>
      && r.value[i].check in checks
      && r.value[i].check.userId == userId
      && AllHold(conds, r.value[i].check, read)
      && r.value[i].products == ProductsOf(products, r.value[i].check.id)
  {
    if !AllReadable(conds, read) then Err(QueryFailed)
    else
      var m := Matches(checks, conds, userId, read);
      var page := Page(m, skip, perPage);
      var r := LoadAll(products, page);
      assert forall i :: 0 <= i < |r| ==> r[i].check == m[skip + i] && m[skip + i] in m;
      Ok(r)
  }

  /** The list query adds the owner condition although `apply_filters`
      already ends with it; a repeated conjunct changes nothing. */
  lemma OwnerConditionIdempotent(conds: seq<Condition>, userId: nat, row: CheckRow, read: DateReader)
    requires AllReadable(conds, read) && OwnedBy(userId) in conds
    ensures AllReadable(conds + [OwnedBy(userId)], read)
    ensures AllHold(conds + [OwnedBy(userId)], row, read) <==> AllHold(conds, row, read)
  {
    var all := conds + [OwnedBy(userId)];
    assert forall i :: 0 <= i < |conds| ==> all[i] == conds[i];
    if AllHold(conds, row, read) {
      var i :| 0 <= i < |conds| && conds[i] == OwnedBy(userId);
      assert Holds(conds[i], row, read);
    }
  }

  /** What the conditions built from the parameters mean for one row: the
      row is the caller's, and each truthy bound holds. A zero `min_total`
      or `max_total` and an empty string give no bound at all. */
  lemma ConditionsMeaning(f: FilterParams, userId: nat, row: CheckRow, read: DateReader)
    requires AllReadable(Expected(f, userId, 6), read)
    ensures AllHold(Expected(f, userId, 6), row, read) <==>
      && row.userId == userId
      && (TextGiven(f.createdFrom) ==>
            read(f.createdFrom.value).Some? && OnOrBefore(read(f.createdFrom.value).value, row.createdAt))
      && (TextGiven(f.createdTo) ==>
            read(f.createdTo.value).Some? && OnOrBefore(row.createdAt, read(f.createdTo.value).value))
      && (NumberGiven(f.minTotal) ==> row.total >= f.minTotal.value)
      && (NumberGiven(f.maxTotal) ==> row.total <= f.maxTotal.value)
      && (TextGiven(f.paymentType) ==> row.paymentType == f.paymentType.value)
  {
    var conds := Expected(f, userId, 6);
    ExpectedConditions(f, userId);
    var meaning := forall c :: c in conds ==> Holds(c, row, read);
    assert AllHold(conds, row, read) <==> meaning by {
      if meaning {
        forall i | 0 <= i < |conds| ensures Holds(conds[i], row, read) { assert conds[i] in conds; }
      }
    }
    assert Requested(OwnedBy(userId), f, userId);
    if TextGiven(f.createdFrom) { assert Requested(CreatedFrom(f.createdFrom.value), f, userId); }
    if TextGiven(f.createdTo) { assert Requested(CreatedTo(f.createdTo.value), f, userId); }
    if NumberGiven(f.minTotal) { assert Requested(MinTotal(f.minTotal.value), f, userId); }
    if NumberGiven(f.maxTotal) { assert Requested(MaxTotal(f.maxTotal.value), f, userId); }
    if TextGiven(f.paymentType) { assert Requested(PaymentTypeIs(f.paymentType.value), f, userId); }
  }

  /** The caller's rows of a table, in table order. */
  function RowsOf(checks: seq<CheckRow>, userId: nat): (r: seq<CheckRow>)
    ensures forall x :: x in r <==> x in checks && x.userId == userId
  {
    if checks == [] then []
    else
      var last := checks[|checks| - 1];
      assert checks == checks[..|checks| - 1] + [last];
      RowsOf(checks[..|checks| - 1], userId) + (if last.userId == userId then [last] else [])
  }

  /** `get_check_by_id_from_db`: the first check with this id that belongs
      to the caller, with its products. */
  function GetCheckById(checks: seq<CheckRow>, products: seq<ProductRow>, checkId: nat, userId: nat)
    : (r: Option<CheckAggregate>)
    ensures r.Some? <==> exists i :: 0 <= i < |checks| && checks[i].id == checkId && checks[i].userId == userId
    ensures r.Some? ==>
      && r.value.check in checks
      && r.value.check.id == checkId && r.value.check.userId == userId
      && r.value.products == ProductsOf(products, checkId)
  {
    if checks == [] then None
    else if checks[0].id == checkId && checks[0].userId == userId then Some(Load(products, checks[0]))
    else
      assert forall i :: 0 < i < |checks| ==> checks[i] == checks[1..][i - 1];
      GetCheckById(checks[1..], products, checkId, userId)
  }

  /** The lookup sees only the caller's checks: removing every other
      owner's row changes nothing, so a check of another owner answers
      exactly as a missing id does. */
  lemma {:induction false} OtherOwnersInvisible(checks: seq<CheckRow>, products: seq<ProductRow>,
                                                 checkId: nat, userId: nat)
    ensures GetCheckById(checks, products, checkId, userId)
         == GetCheckById(RowsOf(checks, userId), products, checkId, userId)
  {
    // Both results are determined by the first matching row, and the
    // matching rows of both tables are the same, in the same order.
    FirstMatchKept(checks, products, checkId, userId);
  }

  lemma {:induction false} FirstMatchKept(checks: seq<CheckRow>, products: seq<ProductRow>, checkId: nat, userId: nat)
    ensures GetCheckById(checks, products, checkId, userId)
         == GetCheckById(RowsOf(checks, userId), products, checkId, userId)
    decreases |checks|
  {
    if checks != [] {
      var front := checks[..|checks| - 1];
      var last := checks[|checks| - 1];
      var kept := if last.userId == userId then [last] else [];
      assert checks == front + [last];
      assert RowsOf(checks, userId) == RowsOf(front, userId) + kept;
      FirstMatchKept(front, products, checkId, userId);
      LookupAppend(front, [last], products, checkId, userId);
      LookupAppend(RowsOf(front, userId), kept, products, checkId, userId);
      assert GetCheckById([last], products, checkId, userId) == GetCheckById(kept, products, checkId, userId);
    }
  }

  /** Looking up in a table made of two parts: the first part's answer if
      it has one, else the second part's. */
  lemma {:induction false} LookupAppend(a: seq<CheckRow>, b: seq<CheckRow>, products: seq<ProductRow>,
                                        checkId: nat, userId: nat)
    ensures GetCheckById(a + b, products, checkId, userId)
         == if GetCheckById(a, products, checkId, userId).Some? then GetCheckById(a, products, checkId, userId)
            else GetCheckById(b, products, checkId, userId)
    decreases |a|
  {
    if a != [] {
      assert (a + b)[1..] == a[1..] + b;
      LookupAppend(a[1..], b, products, checkId, userId);
    } else {
      assert a + b == b;
    }
  }

  /** Ids are unique, so the lookup finds the one check with that id when
      it is the caller's. */
  lemma ByIdFindsTheCheck(checks: seq<CheckRow>, products: seq<ProductRow>, i: nat, userId: nat)
    requires IdsIncrease(checks) && i < |checks| && checks[i].userId == userId
    ensures GetCheckById(checks, products, checks[i].id, userId) == Some(Load(products, checks[i]))
  {
    var r := GetCheckById(checks, products, checks[i].id, userId);
    var j :| 0 <= j < |checks| && checks[j] == r.value.check;
    assert checks[j].id == checks[i].id;
  }
}

# ReceiptsHub check core, in Dafny

ReceiptsHub is a FastAPI/SQLAlchemy backend where a user registers, logs
in, records purchase checks (a list of products and a payment), lists and
filters their checks, and fetches a plain-text receipt for a check. This
project models the deterministic core of that backend and proves what it
promises:

- **check arithmetic** — a line total is price times quantity, a check's
  total is the sum of its line totals, and the change is the payment minus
  the total. A payment below the total is refused with a 400. Money is
  Python `Decimal`, so it is modelled exactly as `real` (`CheckUtils`,
  `CheckSchemas`, `Products`);
- **check creation as a store update** — `Store.Database` holds the `checks`
  and `products` tables and the next serial id. `CheckRouter.CreateCheck`
  computes the totals before it touches the store, so a refused payment
  leaves the store unchanged. Otherwise it appends the header row and one
  product row per requested product, and it keeps every stored check's
  total equal to the sum of its product rows;
- **filters and owner-scoped queries** — `CheckUtils.ApplyFilters` builds
  the condition list by truthiness, in a fixed order, ending with the owner
  condition. `CheckService.GetFilteredChecks` selects, skips and limits.
  `CheckService.GetCheckById` finds a check only when both the id and the
  owner match, so another owner's check answers exactly as a missing id
  does. The text endpoint looks its check up by id alone;
- **the text receipt** — `Receipt.RenderReceipt` builds the text
  line by line with a loop over the products, exactly as the endpoint does
  with `+=`. It is proved equal to a declarative list of lines
  (`Receipt.ReceiptLines`). About that list the project proves:
  - the line count is 2n+9;
  - the rules are as long as the header exactly when `fop_width >= 3`;
  - every amount reads back from its padded, comma-grouped field;
  - the "Картка" row ignores the payment type;
  - splitting the text at newlines gives the lines back;
- **validators** — the response models refuse negative numbers (zero
  passes), and the filter parameters are validated. For registration:
  - the username is at most 20 ASCII letters and digits;
  - the full name is at most 50 ASCII letters and spaces;
  - the password is at least 6 characters with an upper-case letter, a
    lower-case letter and a digit, checked in that order.

  Login refuses blank fields. pydantic runs every field's validator and
  collects the failures in field order, so each validator returns a value
  or a message, and the errors of a whole model are a list of
  `FieldError`s.

Where behaviour is surprising, the model keeps it and proves it:
- a username or full name followed by one newline is accepted, because
  `$` matches before a final newline;
- a negative price passes the request model and the totals check. The
  check is stored, and only the response built after the commit is
  refused, which reaches the caller as a 500;
- `min_total=0` and an empty string add no condition at all;
- the owner condition arrives twice in the list query, harmlessly.

The files follow the source modules: `outcomes.dfy` (Option, Result,
errors), `text.dfy` (Python format specs, line joining), `store.dfy`
(tables), `products.dfy`, `check_schemas.dfy`, `check_utils.dfy`,
`check_service.dfy`, `receipt.dfy` (the body of `get_check_text`),
`check_router.dfy` and `auth_schemas.dfy`.

## Model

| member | source | states |
|---|---|---|
| Text.Repeat | src/checks/router.py:239-240 | `c * n` has length n and holds only c |
| Text.PadLeft | src/checks/router.py:238 | right alignment `:>{w}` gives length max(len, w) and never truncates |
| Text.PadLeftShape | src/checks/router.py:243-244 | right alignment keeps the text whole as the suffix, with only spaces before it |
| Text.PadRight | src/checks/router.py:244 | left alignment `:<{w}` gives length max(len, w) and never truncates |
| Text.PadRightShape | src/checks/router.py:244 | left alignment keeps the text whole as the prefix, with only spaces after it |
| Text.PaddingAddsOnlySpaces | src/checks/router.py:238-255 | padding adds no character other than a space, in either direction |
| Text.NatToString | src/checks/router.py:243 | a decimal numeral is non-empty and all digits |
| Text.NatToStringRoundTrip | src/checks/router.py:243 | the numeral reads back as the number and has no leading zero unless it is 0 |
| Text.ZeroPad2 | src/checks/router.py:255 | `%d` and `%m` give at least two digits |
| Text.ZeroPad2Value | src/checks/router.py:255 | below 100, `%d`/`%m` give exactly two digits that read back as the value |
| Text.ZeroPad4 | src/checks/router.py:255 | `%Y` gives at least four digits |
| Text.ZeroPad4Value | src/checks/router.py:255 | `%Y` reads back as the year, and has exactly four digits below 10000 |
| Text.Group | src/checks/router.py:243 | thousands grouping of a non-empty digit string is non-empty |
| Text.GroupPositions | src/checks/router.py:243-244 | counting from the right, every fourth character of a grouped numeral is a comma and every other one a digit; the length grows by one comma per full group of three |
| Text.GroupOnlyInsertsCommas | src/checks/router.py:243 | removing the commas from a grouped numeral gives the numeral back |
| Text.Fixed2 | src/checks/router.py:243 | `.2f` of an amount in hundredths: sign, integer part, point, two digits; its shape is in Fixed2Shape and its value in Fixed2RoundTrip |
| Text.Fixed2Shape | src/checks/router.py:243 | a minus sign exactly for a negative amount, so zero prints as "0.00"; the point third from the end |
| Text.Grouped2 | src/checks/router.py:244-251 | `,.2f` of an amount in hundredths; pinned by GroupedIsFixedWithSeparators and GroupPositions |
| Text.Fixed2RoundTrip | src/checks/router.py:243 | `.2f` of an amount in hundredths reads back as the same amount, sign included |
| Text.GroupedIsFixedWithSeparators | src/checks/router.py:243-244 | `,.2f` is `.2f` with thousands commas inserted, and nothing else |
| Text.AmountChars | src/checks/router.py:243-251 | `,.2f` holds only digits, commas, the point and the sign; `.2f` holds no comma |
| Text.AmountSeparators | src/checks/router.py:243-251 | formatted amounts hold no space and no newline, and `.2f` holds no comma |
| Text.GroupedReadsBack | src/checks/router.py:244-251 | a right-aligned `,.2f` field of any width reads back as its amount |
| Text.FixedReadsBack | src/checks/router.py:243 | a right-aligned `.2f` field of any width reads back as its amount |
| Text.TerminatedSnoc | src/checks/router.py:238-255 | appending `line + "\n"` to the text adds one more terminated line |
| Text.JoinSnoc | src/checks/router.py:256 | the final line is appended without a newline |
| Text.SplitJoinRoundTrip | src/checks/router.py:238-256 | splitting newline-joined lines that hold no newline gives the lines back |
| Store.ProductsOf | src/checks/models.py:21 | a check's products are rows of the products table carrying its id |
| Store.ProductsOfAppend | src/checks/models.py:21 | a check's products in two appended tables are its products in each, in order |
| Store.Database.constructor | src/checks/models.py:9-21 | the store starts with empty tables and the first id 1 |
| Store.Database.AddCheck | src/checks/utils.py:60-68 | `session.add` plus `flush` appends one header row with the next id and today's date, and advances the id |
| Store.Database.AddProducts | src/checks/utils.py:95 | `add_all` appends the rows to the products table and changes nothing else |
| Products.CheckNonNegative | src/products/schemas.py:25-43 | refuses exactly a value below zero, naming the field; zero passes; returns the value unchanged |
| Products.FieldErrors | src/products/schemas.py:41-42 | one validator run gives no error exactly when the value is not negative, else one error at the field |
| Products.ProductResponseErrors | src/products/schemas.py:25-43 | a product response has errors exactly when price, quantity or total is negative, in that field order; each field's error is present exactly when that field is negative, and there is one error per negative field |
| Products.ProductErrorsExact | src/products/schemas.py:25-43 | every reported error is the error of a negative field, at that field under the prefix, with its message: zero passes and nothing else is named |
| Products.ValidateProductResponse | src/products/schemas.py:20-43 | a product response is accepted, unchanged, exactly when no field is negative |
| Products.LineTotal | src/products/schemas.py:70-82 | `ProductCreate.total`: price times quantity, exactly |
| CheckSchemas.Total | src/checks/schemas.py:124-135 | `CheckCreate.total`: the sum of the line totals; its properties are TotalAppend and TotalOfFew |
| CheckSchemas.TotalAppend | src/checks/schemas.py:124-135 | `CheckCreate.total` of two concatenated product lists is the sum of their totals |
| CheckSchemas.TotalOfFew | src/checks/schemas.py:135 | the total of no products is 0, and of one product is price times quantity |
| CheckSchemas.NestedProductErrors | src/checks/schemas.py:46 | the nested products give no error exactly when every price, quantity and total is non-negative; every nested error is located under `products.` |
| CheckSchemas.CheckResponseErrors | src/checks/schemas.py:48-66 | a check response has errors exactly when total, rest or a product field is negative; the `total` error is present exactly when the total is negative and comes first, the `rest` error exactly when the change is negative and comes next; every other error is a nested product's |
| CheckSchemas.ValidateCheckResponse | src/checks/schemas.py:40-66 | a check response is accepted, unchanged, exactly when it has no errors, else refused with them |
| CheckSchemas.ValidateDetailResponse | src/checks/schemas.py:69-80 | the detail response has the same validation as its base; the URL is not checked |
| CheckSchemas.BoundErrors | src/checks/schemas.py:158-163 | `min_total`/`max_total` are refused exactly when given and negative |
| CheckSchemas.FilterParamErrors | src/checks/schemas.py:150-167 | the filter parameters are refused exactly when a bound is negative or the payment type is given but is not "cash" or "card"; dates are not checked |
| CheckUtils.PriceTimesQuantitySum | src/checks/utils.py:28-29 | the generator sum of price times quantity in `calculate_totals`; equal to `CheckCreate.total` by SumIsCheckCreateTotal |
| CheckUtils.SumIsCheckCreateTotal | src/checks/utils.py:28-29 | the sum of price times quantity equals `CheckCreate.total` |
| CheckUtils.CalculateTotals | src/checks/utils.py:14-38 | 400 exactly when the payment is below the total; otherwise the total, and a change that is not negative and adds up to the payment |
| CheckUtils.BuildProducts | src/checks/utils.py:85-94 | one product row per input, in order, each carrying the check id and total price times quantity |
| CheckUtils.BuiltRowsSumToTotal | src/checks/utils.py:85-94 | the built rows' totals add up to the check's total |
| CheckUtils.CreateCheckRecord | src/checks/utils.py:41-70 | the header row is appended with the next id; the products table is unchanged |
| CheckUtils.AddProductsToCheck | src/checks/utils.py:73-95 | exactly the built rows are appended to the products table; nothing else changes |
| CheckUtils.FetchCheckWithProducts | src/checks/utils.py:98-119 | the lookup by id alone finds a check exactly when some row has the id, and loads its products |
| CheckUtils.Wanted | src/checks/utils.py:136-147 | each parameter slot yields its own kind of condition, and the last slot the owner condition |
| CheckUtils.AppendRequested | src/checks/utils.py:136-147 | appending a truthy parameter's condition extends the list built so far |
| CheckUtils.SkipUnrequested | src/checks/utils.py:136-145 | a falsy parameter adds no condition |
| CheckUtils.ExpectedIsBuilt | src/checks/utils.py:134-149 | the condition list holds exactly the requested conditions of the slots seen so far, in slot order |
| CheckUtils.ExpectedConditions | src/checks/utils.py:134-149 | the list ends with the owner condition, has length 1 plus the number of truthy parameters, and is in fixed order |
| CheckUtils.ApplyFilters | src/checks/utils.py:122-149 | the conditions appended one by one are: one per truthy parameter, in the order created_from, created_to, min_total, max_total, payment_type, then the owner |
| CheckService.Holds | src/checks/utils.py:137-147 | the SQL meaning of each condition on one row: date bounds through the date reader, total bounds, payment type, owner |
| CheckService.Select | src/checks/service.py:33 | a row is selected exactly when it is in the table and satisfies every condition; with increasing ids the selection keeps table order, without repeats |
| CheckService.Page | src/checks/service.py:34-35 | OFFSET then LIMIT: at most `per_page` rows, empty when skip reaches the end, otherwise the slice from `skip` |
| CheckService.LoadAll | src/checks/service.py:32 | each selected check is loaded with its own products |
| CheckService.Matches | src/checks/service.py:33 | the WHERE clause keeps exactly the stored rows that are the caller's and satisfy every condition; with increasing ids (as the store keeps them) in table order, without repeats |
| CheckService.GetFilteredChecks | src/checks/service.py:9-40 | an unreadable date literal fails the query; otherwise the matches from position `skip` on, min(per_page, matches − skip) of them (none once skip reaches the end), each loaded with its products; each is stored, the caller's and satisfies every condition |
| CheckService.OwnerConditionIdempotent | src/checks/service.py:33 | repeating the owner condition changes no row's selection |
| CheckService.ConditionsMeaning | src/checks/utils.py:136-147 | a row satisfies the built conditions exactly when it is the caller's and meets each truthy bound |
| CheckService.GetCheckById | src/checks/service.py:43-72 | found exactly when some row has both the id and the owner; the result is that row with its products |
| CheckService.OtherOwnersInvisible | src/checks/service.py:64-69 | the lookup answers the same when all other owners' rows are removed |
| CheckService.ByIdFindsTheCheck | src/checks/service.py:72 | with unique ids, a caller's check is found by its id, with its products |
| Receipt.Header | src/checks/router.py:238 | 'ФОП' right-aligned to `fop_width`, a space, the full name; its length is in RulesMatchHeader |
| Receipt.Rule | src/checks/router.py:239-240 | a rule of `fop_width + len(full_name) + 1` copies of the character |
| Receipt.QuantityLine | src/checks/router.py:243 | quantity as `.2f` right-aligned in `qty_width`, " x ", price as `,.2f` right-aligned in `price_width`; read back by ItemReadsBack |
| Receipt.NameLine | src/checks/router.py:244 | name left-aligned in `name_width`, a space, line total as `,.2f` right-aligned in `total_width`; read back by ItemReadsBack |
| Receipt.AmountLine | src/checks/router.py:249-251 | caption left-aligned in its width, a space, the amount as `,.2f` right-aligned in `total_width`; read back by AmountLineReadsBack |
| Receipt.DateText | src/checks/router.py:255 | `%d.%m.%Y %H:%M` of a date column, so the time is always 00:00 |
| Receipt.ReceiptLines | src/checks/router.py:238-256 | the receipt's lines in order; shape in ReceiptShape, rendering in RenderReceipt |
| Receipt.ItemLines | src/checks/router.py:242-244 | two lines per product, in product order: the quantity line, then the name line |
| Receipt.ItemLinesSnoc | src/checks/router.py:242-244 | one more product adds exactly its two lines at the end |
| Receipt.ItemLinesAt | src/checks/router.py:242-244 | product i is printed at lines 2i and 2i+1 |
| Receipt.RenderReceipt | src/checks/router.py:238-256 | the text accumulated with `+=` over the loop is the receipt's lines joined by newlines, with no final newline |
| Receipt.ReceiptShape | src/checks/router.py:238-256 | 2n+9 lines: header and rule, the item lines, the rule, three amounts, the rule and the date, then the thanks |
| Receipt.DefaultRules | src/checks/router.py:194-201 | at the default widths the header and the rules are 11 + len(full_name) long |
| Receipt.RulesMatchHeader | src/checks/router.py:238-253 | the header is max(3, fop_width)+1+len(name) long; a rule is as long as the header exactly when `fop_width >= 3` |
| Receipt.PaymentLabelIgnoresType | src/checks/router.py:250 | the payment row is labelled "Картка" and the text does not depend on the payment type |
| Receipt.AmountLineReadsBack | src/checks/router.py:249-251 | the amount after a summary caption reads back as the amount |
| Receipt.ItemReadsBack | src/checks/router.py:243-244 | the quantity, price and line total read back from their fields |
| Receipt.SummaryReadsBack | src/checks/router.py:249-251 | the total, payment and change rows read back as the check's amounts |
| Receipt.AmountLineOneLine | src/checks/router.py:249-251 | an amount row holds no newline |
| Receipt.ItemLinesOneLine | src/checks/router.py:243-244 | item lines hold no newline when product names hold none |
| Receipt.RuleOneLine | src/checks/router.py:239-240 | a rule holds no newline |
| Receipt.DateOneLine | src/checks/router.py:255 | the date line holds no newline |
| Receipt.OpeningClosingOneLine | src/checks/router.py:238-255 | the header, rules, amounts and date hold no newline when the full name holds none |
| Receipt.RenderedLines | src/checks/router.py:238-256 | the text splits back into its 2n+9 lines and ends with "Дякуємо за покупку!" |
| CheckRouter.ResponseOf | src/checks/router.py:66-85 | the response fields copied from the stored check and its product rows |
| CheckRouter.FirstInvalidProduct | src/checks/router.py:76-84 | the first product whose response is invalid, or the number of products when none is |
| CheckRouter.BuildResponse | src/checks/router.py:66-85 | a response is built exactly when it is valid; otherwise the first invalid product's own errors are raised, and only with every product valid are the check's `total`/`rest` errors |
| CheckRouter.ProductResponses | src/checks/router.py:76-84 | one product response per stored row, in order, with the row's fields |
| CheckRouter.NewCheckProducts | src/checks/router.py:61-64 | after creation, the new check's products are exactly the built rows |
| CheckRouter.OlderCheckProducts | src/checks/router.py:61 | creation leaves every older check's products as they were |
| CheckRouter.CreationKeepsTotals | src/checks/router.py:50-62 | creation keeps every stored check's total equal to the sum of its product rows |
| CheckRouter.NewResponseErrors | src/checks/router.py:66-85 | the new check's response has errors exactly when the total, the change or a requested price, quantity or line total is negative |
| CheckRouter.CreatedResponse | src/checks/router.py:64-85 | the response is the stored check with its rows, refused with a 500 exactly when a number in it is negative, with the errors building it raises |
| CheckRouter.CreateCheck | src/checks/router.py:30-85 | a 400 leaves the store unchanged; otherwise one header and the built rows are appended with the next id, totals stay consistent, and the response is built from the stored rows |
| CheckRouter.FirstFailing | src/checks/router.py:120-136 | the first response in the list whose validation fails, or the length when none does |
| CheckRouter.ValidateAll | src/checks/router.py:120-136 | the list is returned exactly when every response validates, otherwise a 500 with the errors building the first failing check's response raises |
| CheckRouter.Responses | src/checks/router.py:120-136 | one response per returned check, in order |
| CheckRouter.ListChecks | src/checks/router.py:88-138 | 422 for invalid parameters; otherwise at most `per_page` valid responses, each the caller's and within each truthy bound |
| CheckRouter.GetCheckDetail | src/checks/router.py:141-187 | 404 exactly when the owner-scoped lookup finds nothing; a 500 exactly when the found check's response is invalid, with the errors building it raises; otherwise the found check with its products and the receipt URL `<url>/text` |
| CheckRouter.Cents | src/checks/router.py:243-251 | an amount in hundredths, as `.2f` shows it for a value with at most two decimals |
| CheckRouter.NewRow | src/checks/utils.py:60-68 | the header row `create_check_record` adds: the next id, the owner, today's date, the total, the payment and the change |
| CheckRouter.ReceiptDataOf | src/checks/router.py:238-255 | the check fields the text endpoint prints: the owner's full name, the product rows, total, payment, change and date, amounts in hundredths; the payment type is carried but never printed |
| CheckRouter.ReceiptItems | src/checks/router.py:242-244 | one receipt item per stored product row, amounts in hundredths |
| CheckRouter.GetCheckText | src/checks/router.py:190-258 | 404 exactly when no check has the id, whoever asks; otherwise the rendered receipt of that check |
| CheckRouter.ShoppingExample | src/checks/utils.py:28-36 | 2 × 25.50 plus 1 × 40 is 91; paying 100 leaves 9, paying 50 is refused |
| CheckRouter.NegativePriceExample | src/checks/utils.py:28-38 | a negative line passes the totals check with positive change, and its response is refused with the product's `price` and `total` errors, the check's own never reached |
| AuthSchemas.Run | src/auth/schemas.py:32 | the greedy `[...]+` consumes the longest prefix inside the class |
| AuthSchemas.RunStopsAt | src/auth/schemas.py:32 | the run stops exactly at the first character outside the class |
| AuthSchemas.RegexMatch | src/auth/schemas.py:32-53 | `re.match(^[...]+$)`: a non-empty greedy run ending at the end or before a final newline |
| AuthSchemas.MatchAgrees | src/auth/schemas.py:32-53 | `re.match(^[...]+$)` accepts exactly one or more class characters, optionally followed by one newline |
| AuthSchemas.Search | src/auth/schemas.py:74-80 | `re.search` finds the leftmost class character, and finds one exactly when one occurs |
| AuthSchemas.ValidateUsername | src/auth/schemas.py:20-38 | accepted, unchanged, exactly when at most 20 long and matching; the length error comes first |
| AuthSchemas.ValidateFullName | src/auth/schemas.py:40-59 | accepted, unchanged, exactly when at most 50 long and letters or spaces; the length error comes first |
| AuthSchemas.ValidatePassword | src/auth/schemas.py:61-83 | accepted, unchanged, exactly when at least 6 long with an upper-case letter, a lower-case letter and a digit; the first missing one names the error |
| AuthSchemas.Located | src/auth/schemas.py:16-18 | a field's failure is reported at that field |
| AuthSchemas.RegistrationErrors | src/auth/schemas.py:16-83 | no errors exactly when all three validators accept; an error is present exactly when it is a failing validator's own message at that validator's field, and the errors come in field order full_name, username, password |
| AuthSchemas.ValidateRegistration | src/auth/schemas.py:6-83 | a registration is accepted, unchanged, exactly when every field meets its rule |
| AuthSchemas.TrailingNewlineAccepted | src/auth/schemas.py:32-53 | a valid name followed by one newline matches; followed by two it does not |
| AuthSchemas.UsernameExamples | src/auth/schemas.py:29-36 | "alice" and "alice\n" pass, "alice_1" fails on characters, 21 letters fail on length |
| AuthSchemas.StripLeading | src/auth/schemas.py:103 | `lstrip` removes exactly the leading whitespace |
| AuthSchemas.StripTrailing | src/auth/schemas.py:103 | `rstrip` removes exactly the trailing whitespace |
| AuthSchemas.Strip | src/auth/schemas.py:103 | `strip` gives the piece of the value left when only whitespace is removed before and after it, and it neither starts nor ends with whitespace |
| AuthSchemas.StripEmptyIffBlank | src/auth/schemas.py:103 | a value strips to nothing exactly when every character is whitespace |
| AuthSchemas.NotEmpty | src/auth/schemas.py:97-108 | accepted, unchanged, exactly when some character is not whitespace; the message names the field |
| AuthSchemas.LoginErrors | src/auth/schemas.py:94-108 | no errors exactly when both fields are accepted; an error is present exactly when it is a blank field's own message at that field; a blank username is reported first and a blank password last |
| AuthSchemas.ValidateLogin | src/auth/schemas.py:86-108 | a login is accepted, unchanged, exactly when each field has a non-whitespace character |

## Left out

- Password hashing and tokens (bcrypt, JWT), cookie extraction and token expiry: foreign libraries and the clock.
- HTTP routing, sessions, commit and refresh, application setup: framework wiring; the store is an in-memory pair of tables.
- The SQL row order: the database promises none without ORDER BY, so the list keeps store order.
- Date filter literals: `created_from`/`created_to` are bound as strings against a `Date` column; the parameter `DateReader` stands for the database driver and the database together, and a literal either reads as a date or fails the whole query. The deployed driver may refuse every string literal, which is the reader that reads nothing.
- Float storage and rounding: the columns are `Float`, and the model uses exact reals for them; `.2f` rounding of amounts with more than two decimals is not modelled.
- CheckRouter.Cents: takes the floor of an amount times 100, which is exact only for amounts with at most two decimals.
- pydantic's int coercion of `CreateCheckResponse.total`, `ProductResponse.quantity` and `ProductResponse.total` (`int` fields): a fractional value would also be refused there; the model treats these fields as numbers.
- Receipt widths, `skip` and `per_page` are natural numbers: negative values (Python format-spec errors, SQL errors) are not modelled.
- `created_at` is a `Date` column, so the receipt's `%H:%M` is always "00:00"; timezone and locale handling in `strftime` are not modelled.
- Text.ZeroPad4: `%Y` is modelled as zero-padded to four digits; for years below 1000 the platform's `strftime` may print fewer digits.
- AuthSchemas.ValidatePassword: `\d` is modelled as the ASCII digits 0-9; Python also accepts other Unicode decimal digits, so such a password is refused here.
- The product table's own primary key is not modelled: no operation reads it.
- Users: the text endpoint reads the owner's full name through the foreign key; the users table is the parameter `fullNames`.

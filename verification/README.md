# Expense tracker core in Dafny

This project models the core of a small expense tracker. Its Express server keeps
expense records in memory and exposes them through a REST API:

- list, optionally filtered by category;
- get one record by id;
- create, update and delete records;
- a summary with the grand total, the record count and per-category totals.

A browser client shows those records. The model covers the client's pure rules:

- HTML escaping of user text;
- the newest-first ordering of the expense list;
- the highest-first ordering of the category breakdown;
- each breakdown row's percentage bar;
- the two empty states.

The modules follow the program's structure:

- `Wrappers`: `Option`.
- `Records`: the expense record, the request body, and the partial update rule. It also holds the
  helpers for first match, category filter and amount total.
- `ExpenseStore`: the server's mutable state (`expenses`, `nextId`) as an immutable `Store`. Each
  handler is a function returning its response and the next store. `Valid` is the id invariant:
  ids are unique and every id lies below `nextId`.
- `Summary`: the `/api/summary` report. `byCategory` is an association list in first-seen order,
  which is the order `Object.entries` reports for the object the server builds.
- `HtmlEscape`: `escapeHtml` and an unescaping partner that proves it loses nothing.
- `Sorting`: a stable insertion sort over any total "may come before" relation. It stands in for
  `Array.prototype.sort`.
- `Dates`: the date comparator, and the proof that on `YYYY-MM-DD` strings it is calendar order.
- `Display`: the list view and the breakdown view.
- `PrototypeKeys`: the server's `byCategory` accumulation exactly as written, including its
  behaviour on category names that `Object.prototype` already defines (see Findings).

Amounts are integer cents. The path id is `Option<int>`: `None` stands for a `parseInt` result of
`NaN`. Each request-body field is an `Option`, with `None` meaning the field is absent. A string
field counts as supplied when it is truthy, that is present and non-empty. The amount counts as
supplied whenever it is present, so 0 is accepted.

Two details of the handlers that the model keeps:

- The update handler overwrites the amount whenever the body carries one, including 0
  (server.js:104).
- The create handler rejects only an absent amount (server.js:78). A present 0 is accepted.

## Model

| member | source | states |
|---|---|---|
| Records.Patch | server.js:101-106 | The id never changes. Each field takes the body's value exactly when the body supplies it, and keeps the old value otherwise; an amount of 0 counts as supplied. |
| Records.PatchIdempotent | server.js:103-106 | Sending the same update body twice leaves the record as one application did. |
| Records.FindIndex | server.js:113 | The result is absent exactly when no record has the id. Otherwise it is the first position holding that id. |
| Records.OfCategory | server.js:60 | The filter returns a sub-multiset of the records. A record is kept exactly when its category equals the query, and every copy of a matching record survives. |
| Records.OfCategoryAppend | server.js:60 | Filtering commutes with concatenation, so the result is in the records' original order. |
| ExpenseStore.Seed | server.js:53-54 | The seeded store numbers records 1..n in order, sets `nextId` to n + 1, and satisfies the id invariant. |
| ExpenseStore.List | server.js:57-63 | With no category, or an empty one, the whole list comes back. Otherwise the result holds exactly the records of that category, each as often as stored. |
| ExpenseStore.Get | server.js:66-72 | Never a 400. The result is found exactly when some record has the id, and then it is the first such record. |
| ExpenseStore.GetFindsStored | server.js:67 | In a valid store every stored record is found by its own id. |
| ExpenseStore.Create | server.js:75-92 | A 400 comes back exactly when the description, category or date is missing or empty, or the amount is absent; the store is then unchanged. Otherwise the new record carries `nextId`, is appended, and `nextId` grows by one. |
| ExpenseStore.CreatePreservesValid | server.js:82-90 | Creating keeps ids unique and below `nextId`. |
| ExpenseStore.CreateIdIsFresh | server.js:83 | No record stored before the create has the new record's id. |
| ExpenseStore.CreateThenGet | server.js:82-91 | After a successful create, getting the new id returns exactly the record the create returned. |
| ExpenseStore.Update | server.js:95-109 | A 404 comes back exactly when the id is unparsable or absent, and then the store is unchanged. Otherwise the first record with the id is patched in place and returned; the length and `nextId` are unchanged. |
| ExpenseStore.UpdatePreservesValid | server.js:103-106 | An update keeps the id invariant, since a patch never changes an id. |
| ExpenseStore.UpdateEmptyIsIdentity | server.js:101-108 | An update with an empty body leaves the store as it was and responds as a get would. |
| ExpenseStore.UpdateIdempotent | server.js:96-108 | In any store, repeating an update gives the same response and the same store as doing it once. |
| ExpenseStore.Delete | server.js:112-120 | A 404 comes back exactly when the id is unparsable or absent, and then the store is unchanged. Otherwise the first record with the id is spliced out and returned, and `nextId` is unchanged. |
| ExpenseStore.DeletePreservesValid | server.js:113-118 | A delete keeps the id invariant. |
| ExpenseStore.DeleteRemovesOne | server.js:118-119 | A successful delete removes exactly the returned record, as a multiset, and shortens the list by one. |
| ExpenseStore.DeleteThenGet | server.js:113-119 | In a valid store, after a delete the id is no longer found. |
| ExpenseStore.RunPreservesValid | server.js:53-120 | Any sequence of creates, updates and deletes keeps the id invariant and never lowers `nextId`. Every id present at the end was either present at the start or handed out during the run. |
| ExpenseStore.StepKeepsIds | server.js:83 | One handler call never makes up an id: each id afterwards was already stored or is the `nextId` it consumed. |
| Summary.Add | server.js:128-131 | Adding one record keeps the keys distinct, adds its category to the keys, and raises only that category's value, by its amount. The sum of values grows by the amount. |
| Summary.Accumulate | server.js:127-132 | Folding the records adds their categories to the keys. Each category's value grows by the total of that category's records, and the sum of values grows by the total of all amounts. |
| Summary.ByCategory | server.js:125-132 | The keys are exactly the categories of the records, each listed once, and each value is that category's total. The values add up to the grand total. |
| Summary.Summarize | server.js:123-139 | `count` is the number of records and `total` the sum of their amounts. `byCategory` holds each category once with its own total, and the per-category totals add up to `total`. |
| Summary.CreateRaisesTotal | server.js:124 | After a successful create the summary total has grown by exactly the new amount and the count by one. |
| Summary.DeleteLowersTotal | server.js:124 | Deleting a record that a get finds lowers the summary total by exactly that record's amount and the count by one. |
| Summary.UpdateShiftsTotal | server.js:104 | Updating a record that a get finds changes the summary total by the returned (patched) amount minus the old one. |
| HtmlEscape.Entity | public/script.js:193-199 | Each of `& < > " '` becomes a multi-character entity that starts with `&` and ends with `;`. Every other character stands for itself. |
| HtmlEscape.Escape | public/script.js:192-201 | The output has no `<`, `>`, quote or apostrophe. Its length grows by 4 per `&`, 3 per `<` or `>`, and 5 per quote or apostrophe. A string with none of these comes back unchanged. |
| HtmlEscape.EscapeAppend | public/script.js:200 | Escaping works character by character: escaping a concatenation concatenates the escapes. |
| HtmlEscape.EscapeRoundTrip | public/script.js:192-201 | Decoding the five entities recovers the original text exactly, so escaping loses no information. |
| Sorting.SortBy | public/script.js:56 | For any total ordering relation, the result is a permutation of the input in which each element may precede the next. |
| Sorting.SortedAllPairs | public/script.js:168 | For a transitive relation, adjacent order extends to every pair of positions. |
| Dates.NotAfterConnected | public/script.js:56 | Any two date strings are comparable. |
| Dates.NotAfterTransitive | public/script.js:56 | The date comparison is transitive, so the sort's comparator is consistent. |
| Dates.IsoOrderIsCalendarOrder | public/script.js:56 | On `YYYY-MM-DD` strings, string order coincides with the order of (year, month, day). |
| Display.SortNewestFirst | public/script.js:56 | The result is a permutation of the list in which no record is dated earlier than one after it. |
| Display.RenderList | public/script.js:50-56 | The empty state is shown exactly when there are no records. Otherwise every record appears, as often as it occurs, newest first. |
| Display.ListIsChronological | public/script.js:56 | With well-formed dates, the rows run from the latest calendar day to the earliest. |
| Display.SortByAmount | public/script.js:167-168 | The result is a permutation of the category entries with amounts non-increasing. |
| Display.Percentage | public/script.js:171 | With a non-positive total the bar is 0. Otherwise the bar is the share of the total times 100, that is p·total = amount·100. |
| Display.PercentageBounds | public/script.js:171 | A category amount between 0 and a positive total gives a bar between 0 and 100. |
| Display.RenderBreakdown | public/script.js:161-171 | "No data" is shown exactly when `byCategory` is empty. Otherwise the rows show every category entry, highest amount first, each with its own percentage. |
| Display.BreakdownFillsHundred | public/script.js:167-177 | When the per-category values add up to a positive total, the bars of all rows add up to exactly 100. |
| PrototypeKeys.Lookup | server.js:128 | An own-property read finds a value exactly when the name is an own key, and the value belongs to a property of that name. |
| PrototypeKeys.AddAsWritten | server.js:128-131 | One step of the server's accumulation, including the inherited-name cases. When the category is already an own key, the set of keys stays the same, a numeric value grows by the amount and a string value stays a string. Every other key keeps its value. A fresh ordinary name is appended with the amount. A fresh `__proto__` leaves the object unchanged. Another fresh inherited name becomes a string value. |
| PrototypeKeys.AgreesWithoutInheritedNames | server.js:125-132 | When no category names an `Object.prototype` member, the as-written accumulation equals `Summary.ByCategory`. |
| PrototypeKeys.ToStringCategoryBecomesText | server.js:128-131 | A single record with category `toString` yields a non-numeric value under the as-written code, while the corrected summary reports that record's amount. |
| PrototypeKeys.ProtoCategoryIsDropped | server.js:128-131 | A single record with category `__proto__` vanishes from `byCategory` as written, although the total counts its amount. |

## Left out

- Express routing, JSON parsing, CORS, static files, `listen` and the HTTP status codes beyond the 200/201, 400 and 404 distinction: these are I/O. Each handler is a function of the store and the request's parsed parts.
- `generateRandomExpenses`: its data comes from `Math.random`. `ExpenseStore.Seed` takes the generated drafts as a parameter and models only the numbering.
- Floating-point amounts, `parseFloat`, `toFixed(2)` rounding of the total and `NaN` amounts, for example a `null` amount that passes the `!== undefined` check: amounts are exact integer cents.
- `parseInt` on the path segment: the id arrives already parsed as `Option<int>`. `None` stands for `NaN`, which matches no record.
- Body fields of non-string types, such as a number as description: truthiness is modelled only for strings.
- Category names that look like array indices, such as `"123"`: `Object.entries` lists those first in numeric order, which the first-seen association list does not model.
- The client's DOM updates, `fetch` calls, `confirm` dialogs, notifications, timers, form handling, `formatDate` and the `$x.yz` amount formatting: these are I/O or locale formatting.
- `escapeHtml` on non-string values: description and category may be any truthy JSON value (server.js:78 and 84, shown at public/script.js:61 and 63), and then `text.replace` throws (public/script.js:200). The model's records hold only strings (see the line on non-string body fields).
- Concurrency: Node handles one request at a time, so handlers are modelled as sequential steps (`ExpenseStore.Run`).
- Display.SortNewestFirst: `new Date(b) - new Date(a)` is modelled as string order on the date text. `Dates.IsoOrderIsCalendarOrder` shows this is calendar order for `YYYY-MM-DD`. Dates that `Date` cannot parse give a `NaN` comparator, which is not modelled. Create accepts any truthy date (server.js:78), and non-ISO dates that `Date` can parse may sort differently under string order: `"2025-9-01"` sorts after `"2025-10-01"` as text, though it is the earlier day.
- Sorting.SortBy: stability of the engine's sort is not stated. The contracts give only permutation and order, which is what the client relies on.
- Display.Percentage: exact reals rather than IEEE doubles, so `BreakdownFillsHundred` holds exactly here. In the browser it holds up to rounding.

## Findings

| source | as written | input that shows it | evidently intended | confidence | as-written member | corrected member |
|---|---|---|---|---|---|---|
| server.js:128-131 | `if (!byCategory[e.category])` reads through `{}` into `Object.prototype`. For a category such as `toString` or `constructor`, the inherited function is truthy, so no 0 is stored and `+=` concatenates the amount onto the function's source text. | one record `{id: 1, description: "Coffee", amount: 450, category: "toString", date: "2025-01-01"}` | `byCategory.toString == 450`, the category's numeric total | high; not executed | PrototypeKeys.ToStringCategoryBecomesText | Summary.ByCategory |
| server.js:128-131 | Reading `byCategory["__proto__"]` calls the inherited accessor, which returns `Object.prototype`. That value is truthy, so the `if` is skipped. The `+=` then assigns the string `"[object Object]450"`, and the `__proto__` setter ignores it because it is not an object. No own key is created, so the category never appears in `Object.entries`, while `total` still counts its amounts. | one record with category `"__proto__"` and amount 450 | an own entry `__proto__` with value 450, so the breakdown adds up to the total | high; not executed | PrototypeKeys.ProtoCategoryIsDropped | Summary.ByCategory |

# TuAmigoFiel admin console — a Dafny model of its page logic

The TuAmigoFiel console is a React admin front end for a veterinary-supply
shop. Staff use it to sell products and services at the point of sale
(`VentasPage`), keep the warehouse (`AlmacenPage`, `ProductModal`,
`AdminPage`), run the service catalogue (`ServicesPage`), watch expiry and
stock alerts (`AlertsPage`), browse sales and customer accounts
(`HistorialVentas`, `CustomerAccountPage`, `CustomerSelect`,
`RegisterPaymentModal`), read monthly reports (`ReportsPage`), and guard
routes (`RequireAuth`).

The pages are mostly network plumbing, but each one holds a piece of pure
logic. That logic is modelled here as immutable datatypes and pure functions:

- the cart and what a sale sends;
- the filters, sorts and counters of the lists;
- form initialisation, validation and the request payloads;
- the optimistic alert resolve;
- the account and interest arithmetic;
- the report aggregates and the CSV export;
- the login/admin routing decision.

Each operation is paired with what it promises. That pairing takes the form
of one of:

- a sub-list or permutation of its input, with an exact membership condition;
- a round trip (open a record in a form, save it untouched, get the record back);
- an aggregate that moves by exactly one line's share;
- an if-and-only-if between a page's counters and its lists.

How JavaScript behaviour is modelled:

- **Numbers** are `real`. `NaN` is the `None` of an `Option`. `Number`,
  `parseFloat` and `parseInt` are modelled on the plain decimal grammar in
  module `Numbers`. `String(x)` of a number is `Numbers.NumText`.
- **Loose values** are `Values.Value` (`null`, number or text), for columns
  that can arrive as a number, as text or as null. Truthiness and `a || b`
  are defined on that type.
- **Outside inputs are parameters.** These are request outcomes, confirmation
  dialogs, date conversions and `JSON.parse`.
- **`Array.prototype.sort`** is a stable insertion sort over a total
  preorder (module `Sorting`).

Modules: `Common` (Option, sub-lists, filter, sums, de-duplication), `Text`
(trim, lower-case, substring, split/join, string order), `Numbers`,
`Values`, `Sorting`, `Catalog` (the product record and category groups
shared by three pages), and one module per page or component: `Ventas`,
`Reports`, `Services`, `Almacen`, `Alerts`, `Account`, `Admin`,
`ProductModal`, `Historial`, `CustomerSelect`, `RegisterPayment`,
`RequireAuth`.

## Model

| member | source | states |
|---|---|---|
| Ventas.LimitOf | src/pages/VentasPage.jsx:234-235 | a line may grow without bound exactly when the item is a service; a product's limit is its stock, and 0 when the stock is `null` |
| Ventas.LineKeyInjective | src/pages/VentasPage.jsx:235 | two cart keys `p-<id>` / `s-<id>` are equal only for the same kind and id, so a key names one item |
| Ventas.Clamp | src/pages/VentasPage.jsx:244 | `Math.min(q, stock)`: never above the quantity or the stock, one of the two, and no clamp at all for services |
| Ventas.NewLine | src/pages/VentasPage.jsx:247-255 | a new line carries the item's key and id, the price `precio \|\| 0`, the quantity as given and the item's stock limit |
| Ventas.AddToCart | src/pages/VentasPage.jsx:233-258 | a product without positive stock leaves the cart unchanged; an existing key keeps length and order and changes only that line, to the clamped sum; a new key appends exactly one line at the end |
| Ventas.AddKeepsUniqueKeys | src/pages/VentasPage.jsx:233-258 | adding never creates a second line with the same key |
| Ventas.AddNewLineTotals | src/pages/VentasPage.jsx:247-268 | appending a new item raises the item count by its quantity and the subtotal by price times quantity |
| Ventas.AddServiceNeverClamped | src/pages/VentasPage.jsx:241-245 | merging into a service line adds the quantities in full, and the count grows by exactly that amount |
| Ventas.AddProductClamped | src/pages/VentasPage.jsx:241-245 | a merged product line never exceeds the product's stock |
| Ventas.SetQty | src/pages/VentasPage.jsx:260-263 | the lines with the key get the new quantity; length, keys and every other line stay |
| Ventas.UpdateCartQty | src/pages/VentasPage.jsx:260-263 | only the matching line changes, to `max(1, value)` or to 1 for an empty input, with no stock check; length and order are kept |
| Ventas.SetQtyTotals | src/pages/VentasPage.jsx:260-268 | changing one line's quantity moves the count and the subtotal by that line's change alone |
| Ventas.RemoveFromCart | src/pages/VentasPage.jsx:265 | the result is an order-preserving sub-list holding exactly the lines with another key, and is the cart itself when the key is absent |
| Ventas.RemoveTotals | src/pages/VentasPage.jsx:265-268 | removing a line takes exactly its amount and quantity off the subtotal and the count |
| Ventas.CustomerChange | src/pages/VentasPage.jsx:307-317 | choosing a customer turns "on credit" on and records it; the empty choice turns both off; the cart is untouched |
| Ventas.SetOnCredit | src/pages/VentasPage.jsx:451 | the checkbox changes the credit flag and nothing else |
| Ventas.PayloadLines | src/pages/VentasPage.jsx:282 | the request lists every cart line, in cart order, as id, quantity, price and kind |
| Ventas.CustomerRefOf | src/pages/VentasPage.jsx:288 | the customer reference is a number exactly when the selected value reads as one, else the raw text |
| Ventas.ConfirmSale | src/pages/VentasPage.jsx:271-304 | an empty cart, or credit with no customer, stops before any request; a declined confirmation stops too; a sale sends the lines in order, pays 0 on credit and the subtotal otherwise, and names the customer only on credit |
| Ventas.AfterSale | src/pages/VentasPage.jsx:292-303 | success empties the cart and clears search, credit flag and customer; failure leaves the page as it was |
| Ventas.ChosenCustomerGoesOnCredit | src/pages/VentasPage.jsx:282-317 | a sale right after choosing a customer goes on credit, pays nothing now and names that customer |
| Ventas.CashSalePaysSubtotal | src/pages/VentasPage.jsx:267-290 | a cash sale pays the sum of the amounts of the lines it sends |
| Ventas.Tag | src/pages/VentasPage.jsx:213-230 | every entry of a result list is paired with its kind, one for one |
| Ventas.ListItems | src/pages/VentasPage.jsx:213-230 | a blank query shows the top items of the chosen mode, otherwise the search results of the chosen search mode |
| Ventas.ListItemsProductsFirst | src/pages/VentasPage.jsx:213-230 | in the item grid every product comes before every service |
| Reports.OnApply | src/pages/ReportsPage.jsx:99-103 | no fetch when either date is empty or when `from` is after `to`; otherwise the reports are fetched |
| Reports.PickSpec | src/pages/ReportsPage.jsx:120-121 | the `reduce` keeps the first row holding the maximum (or minimum): nothing beats it and it strictly beats every earlier row |
| Reports.AvgPerMonth | src/pages/ReportsPage.jsx:118 | 0 for no months; otherwise the average times the number of months is the total |
| Reports.Extreme | src/pages/ReportsPage.jsx:120-121 | best/worst month is null exactly for an empty series, else the row the `reduce` keeps |
| Reports.TotalsOf | src/pages/ReportsPage.jsx:110-124 | each of the six totals (sales, orders, items, revenue, cost of goods, profit) is its column's sum (a missing cell counts 0, `NaN` if any cell is not a number), with the average and the extreme months above |
| Reports.BestAndWorstMonth | src/pages/ReportsPage.jsx:120-121 | with every amount a number, the best month has the largest amount and no earlier month ties it, and the worst month likewise for the smallest |
| Reports.ChangeOf | src/pages/ReportsPage.jsx:129-131 | the change is null exactly for a base of 0, and `NaN` exactly when a term is not a number |
| Reports.ChangeOfPct | src/pages/ReportsPage.jsx:131 | the percentage times `\|prev\|` is `(cur − prev) × 100`, positive exactly for a rise and 0 exactly for no move |
| Reports.SortByMonth | src/pages/ReportsPage.jsx:127 | the copy is a permutation of the rows in ascending month order |
| Reports.WithChange | src/pages/ReportsPage.jsx:126-134 | a permutation of the rows, in descending month order, whose earliest month has no change |
| Reports.WithChangeAgainstPrevious | src/pages/ReportsPage.jsx:129-133 | each row's change is taken against the row of the month before it |
| Reports.WithChangeOfSorted | src/pages/ReportsPage.jsx:126-134 | a series already in strictly ascending month order comes back reversed, each change against the row that preceded it |
| Reports.DistinctMonthsSorted | src/pages/ReportsPage.jsx:127 | two ascending orders of the same rows with distinct months coincide, so the sort's result does not depend on its algorithm |
| Reports.SalesWithChange | src/pages/ReportsPage.jsx:136 | the sales series keeps every row |
| Reports.ProfitWithChange | src/pages/ReportsPage.jsx:137 | the profit series keeps every row |
| Reports.Quoted | src/pages/ReportsPage.jsx:148 | a CSV cell is the value between two double quotes |
| Reports.CsvFor | src/pages/ReportsPage.jsx:139-149 | nothing to export for an empty series; otherwise the header line then one line per row of quoted cells, joined by newlines |
| Reports.LineRoundTrip | src/pages/ReportsPage.jsx:148 | a line of cells with no comma or line break splits at its commas back into the quoted cells |
| Reports.SalesCsvRoundTrip | src/pages/ReportsPage.jsx:139-149 | the sales export splits at its newlines into the header and one line per row, each splitting back into that row's quoted cells |
| Reports.ProfitCsvRoundTrip | src/pages/ReportsPage.jsx:139-149 | the same for the profit export |
| Services.Categories | src/pages/ServicesPage.jsx:45-49 | the category options have no duplicates, are exactly the non-empty categories of the services, and come in the order of each category's first service |
| Services.CompareAgrees | src/pages/ServicesPage.jsx:100-118 | the page's comparator returns at most 0 exactly when the model's order puts the first entry first |
| Services.OrderIsPreorder | src/pages/ServicesPage.jsx:100-118 | the comparator is a total preorder, so the sort is well defined |
| Services.Filtered | src/pages/ServicesPage.jsx:69-121 | the list holds every service passing the status, category and search filters as often as it occurs, and nothing else, sorted by the chosen key and direction |
| Services.MissingKeysLast | src/pages/ServicesPage.jsx:100-106 | entries missing the sort key come after every entry that has it, in either direction |
| Services.NumericOrder | src/pages/ServicesPage.jsx:100-117 | entries with a readable numeric key are in ascending or descending numeric order |
| Services.NoFilterKeepsAll | src/pages/ServicesPage.jsx:71-99 | with no filter set the list is a reordering of all services |
| Services.OpenCreate | src/pages/ServicesPage.jsx:124-128 | the drawer opens on the default form, in create mode |
| Services.OpenEdit | src/pages/ServicesPage.jsx:130-141 | the drawer opens on the service's values, missing ones blank, always active, editing that id |
| Services.CloseDrawer | src/pages/ServicesPage.jsx:143-150 | ignored while saving; otherwise the drawer closes at once, still holding the edited service, and the reset timer is set |
| Services.ClearDrawer | src/pages/ServicesPage.jsx:146-149 | when the timer fires the edited id and the form are forgotten, the open flag untouched |
| Services.CloseThenClear | src/pages/ServicesPage.jsx:143-150 | a close followed by its timer leaves a closed drawer in create mode on the default form |
| Services.EditOpenedBeforeClearIsLost | src/pages/ServicesPage.jsx:130-150 | a service opened for editing before an earlier close's timer fires ends up in an open drawer in create mode on the default form |
| Services.Validate | src/pages/ServicesPage.jsx:160-165 | the first failing check of name, price and duration, each message exactly when the earlier checks pass and its own fails |
| Services.TrimOrNull | src/pages/ServicesPage.jsx:174-177 | blank text becomes null, anything else its trimmed form |
| Services.SaveService | src/pages/ServicesPage.jsx:167-196 | a failed check sends nothing; otherwise a PUT for an edited service or a POST, with the trimmed and null-coerced payload whose price and duration are the form's numbers, always active |
| Services.EditSaveRoundTrip | src/pages/ServicesPage.jsx:130-196 | a valid service opened and saved untouched sends a PUT to its id with its own values |
| Services.RemoveService | src/pages/ServicesPage.jsx:198-208 | the list loses exactly the services with that id, keeping every other one as often as it occurs and in order, and only after a confirmed, successful request |
| Almacen.CategoryOptions | src/pages/AlmacenPage.jsx:19 | the selector offers "Todas" followed by every group name in order |
| Almacen.AllowedCategories | src/pages/AlmacenPage.jsx:36-50 | no restriction exactly for an empty or "Todas" choice; a group expands to itself and its sub-categories; a known sub-category to its group's list; anything else to itself |
| Almacen.SelectedIsAllowed | src/pages/AlmacenPage.jsx:36-50 | the chosen category is always among the allowed ones |
| Almacen.SubcategoryLikeGroup | src/pages/AlmacenPage.jsx:42-47 | choosing any listed sub-category admits the same categories as choosing its group |
| Almacen.Filtered | src/pages/AlmacenPage.jsx:105-123 | the list is an order-preserving sub-list holding every product that passes the category, stock and search filters as often as it occurs, and nothing else |
| Almacen.FilteredRespectsCategory | src/pages/AlmacenPage.jsx:107-112 | with a restriction, every product shown has an allowed category |
| Almacen.FilteredOnlyStockZero | src/pages/AlmacenPage.jsx:113 | with "Sin stock" on, every product shown has no positive stock |
| Almacen.ClearedShowsAll | src/pages/AlmacenPage.jsx:105-123 | the cleared filters show every product, in order |
| Almacen.StockZeroNarrows | src/pages/AlmacenPage.jsx:113 | "Sin stock" yields exactly the unrestricted result's products with no positive stock |
| Almacen.ExpiryOf | src/pages/AlmacenPage.jsx:125-135 | no date, an unreadable date, expired for a negative day count, expiring for 0 to 30 days, valid beyond 30, with the day count kept |
| Almacen.ExpiryLabelInjective | src/pages/AlmacenPage.jsx:125-135 | different expiry states never show the same badge text |
| Almacen.HandleSaved | src/pages/AlmacenPage.jsx:99-102 | every product with the saved id is replaced by it; length, order and all other products stay |
| Almacen.HandleSavedIdempotent | src/pages/AlmacenPage.jsx:99-102 | saving twice is saving once, and the ids of the list never change |
| Almacen.OpenModal | src/pages/AlmacenPage.jsx:89-92 | the modal opens on the chosen product; the list is untouched |
| Almacen.CloseModal | src/pages/AlmacenPage.jsx:94-97 | the modal closes with nothing selected; the list is untouched |
| Almacen.DeleteAsWritten | src/pages/AlmacenPage.jsx:52-55 | as written, a delete never changes the list and always ends with the modal open showing an error |
| Almacen.DeleteAsWrittenKeepsDeleted | src/pages/AlmacenPage.jsx:52-55 | a delete the server accepted still shows "Error al eliminar" and keeps the product listed |
| Almacen.DeleteCorrected | src/pages/AlmacenPage.jsx:52-55 | the intended delete removes the products with the deleted id and closes the modal on success, and changes nothing on failure |
| Almacen.DeleteCorrectedRemoves | src/pages/AlmacenPage.jsx:52-55 | after the intended delete the id is gone and every other product is still listed, in order |
| Catalog.ErrorText | src/component/ProductModal.jsx:99-118 | the server's message when there is one, else the page's fallback text |
| Catalog.InputDate | src/component/ProductModal.jsx:6-15 | an empty date stays empty; anything else goes through the date conversion |
| Catalog.GroupNames | src/pages/AdminPage.jsx:12-22 | the group names, one per group, in declaration order |
| ProductModal.InitForm | src/component/ProductModal.jsx:33-46 | missing text becomes `''`; price and stock are written out exactly when present |
| ProductModal.Validate | src/component/ProductModal.jsx:65-76 | name, price and stock checks in order, each message exactly when the earlier ones pass and its own fails; negative prices pass |
| ProductModal.PayloadOf | src/component/ProductModal.jsx:78-86 | empty price, stock or date become null, the others are parsed or passed through as typed |
| ProductModal.HandleSave | src/component/ProductModal.jsx:60-104 | a rejected form sends nothing; an accepted one sends the payload to the product's own address |
| ProductModal.AfterSave | src/component/ProductModal.jsx:88-103 | the modal closes and hands the saved product to the page exactly when the update succeeds; a failure shows the server's message or "Error al actualizar" |
| ProductModal.InitSaveRoundTrip | src/component/ProductModal.jsx:33-104 | a named product with a six-decimal price and a whole non-negative stock passes validation and saves back its own price and stock |
| ProductModal.PriceRoundTrip | src/component/ProductModal.jsx:39-82 | a price written into the form reads back as the same price |
| ProductModal.StockRoundTrip | src/component/ProductModal.jsx:42-85 | a whole stock written into the form passes the check and reads back as the same count |
| ProductModal.FractionalStockRejected | src/component/ProductModal.jsx:42-76 | a product whose stock has a fraction cannot be saved untouched |
| ProductModal.HandleClose | src/component/ProductModal.jsx:55-58 | the modal closes exactly when neither a save nor a delete is in flight |
| ProductModal.HandleDelete | src/component/ProductModal.jsx:106-124 | the modal closes and notifies the page exactly when the request succeeds and the page's callback does not throw; otherwise it shows an error |
| Alerts.ParseMeta | src/pages/AlertsPage.jsx:23-33 | falsy metadata is null, an object is kept, text that parses becomes the parsed value, and unparsable text stays as text |
| Alerts.TextOfObjectReadsAsObject | src/pages/AlertsPage.jsx:23-33 | metadata sent as JSON text reads like the object it encodes |
| Alerts.BadgeLabel | src/pages/AlertsPage.jsx:16-21 | every badge has a visible label |
| Alerts.CountsOf | src/pages/AlertsPage.jsx:90-108 | the "all" counter is the number of alerts; expired and expiring together, and low stock, never exceed it |
| Alerts.CountsCountAlerts | src/pages/AlertsPage.jsx:90-108 | each counter is the number of alerts meeting its own condition |
| Alerts.NewestFirstIsPreorder | src/pages/AlertsPage.jsx:129 | the newest-first order is a total preorder |
| Alerts.Filtered | src/pages/AlertsPage.jsx:110-130 | the list holds exactly the alerts passing the tab and search filters, no more often than they occur, newest first |
| Alerts.AllTabShowsEverything | src/pages/AlertsPage.jsx:110-130 | with a blank query the "all" tab shows every alert |
| Alerts.ExpiringListIncludesExpired | src/pages/AlertsPage.jsx:113-121 | every alert listed as expired is also listed as expiring |
| Alerts.TabListsAgainstCounters | src/pages/AlertsPage.jsx:94-121 | with one date source, the expired list is as long as its counter, and the expiring list as long as the expired and expiring counters together |
| Alerts.BadgeOf | src/pages/AlertsPage.jsx:239-251 | expired and expiring badges go exactly to the alerts counted as such; the stock badge only to low-stock alerts with no expiry date |
| Alerts.BadgesMatchCounters | src/pages/AlertsPage.jsx:239-251 | as many alerts carry the expired (expiring) badge as the expired (expiring) counter says |
| Alerts.Optimistic | src/pages/AlertsPage.jsx:78 | the optimistic list is an order-preserving sub-list keeping every alert of another id as often as it occurs, and none of the resolved id |
| Alerts.HandleResolve | src/pages/AlertsPage.jsx:73-88 | a request goes out exactly when confirmed; a decline or a failure leaves the list exactly as before; success removes that id |
| Alerts.ResolveIdempotent | src/pages/AlertsPage.jsx:73-88 | resolving the same id twice is resolving it once, and resolving an absent id changes nothing |
| Account.TotalCuenta | src/pages/CustomerAccountPage.jsx:54 | the balance is a number exactly when every total reads as one, and then their sum, with missing totals counting 0 |
| Account.FinalAmount | src/pages/CustomerAccountPage.jsx:56-69 | an empty or non-numeric input leaves the balance; a percentage `p >= 0` gives `balance × (1 + p/100)`; a negative one leaves the balance |
| Account.TypedInterest | src/pages/CustomerAccountPage.jsx:56-69 | typing a percentage adds exactly that share of the balance, never lowering a non-negative balance; a negative percentage adds nothing |
| Account.OpenFullPayment | src/pages/CustomerAccountPage.jsx:103-107 | the modal opens with the interest cleared, so the amount due is the plain balance |
| Account.HandleFullPayment | src/pages/CustomerAccountPage.jsx:82-101 | a request only after both confirmations; success empties the history, clears the interest and closes the modal; otherwise nothing changes |
| Account.PaidAccountIsZero | src/pages/CustomerAccountPage.jsx:82-101 | after a full payment the balance and the amount due are 0 |
| Account.DetailOf | src/pages/CustomerAccountPage.jsx:349-352 | name, unit price and quantity fall back in the order the page uses; a truthy `line_total` is the subtotal |
| Account.SubtotalFallsBack | src/pages/CustomerAccountPage.jsx:350-352 | without a truthy `line_total` (0 included) the subtotal is unit price times quantity, and 0 for a line with no price |
| Admin.Brands | src/pages/AdminPage.jsx:88-91 | the brand list has no duplicates, holds exactly the non-empty brands of cached products in the group's categories, and lists them in the order of each brand's first product of the group |
| Admin.ProductsOf | src/pages/AdminPage.jsx:121-123 | the product list is an order-preserving sub-list holding every cached product of the group with that exact brand as often as it occurs, and nothing else |
| Admin.BrandOfferedIffProducts | src/pages/AdminPage.jsx:88-124 | a brand is offered exactly when choosing it lists at least one product |
| Admin.CategoryEffect | src/pages/AdminPage.jsx:83-113 | the category effect alone: every field but the category becomes `''`, the brands are those of the group and the product list is emptied |
| Admin.ProductEffect | src/pages/AdminPage.jsx:115-133 | the brand effect alone: nothing without a brand; otherwise the group's products of that brand are listed and the product choice is cleared |
| Admin.ChangeCategory | src/pages/AdminPage.jsx:83-156 | a new category resets the nine other fields and offers the group's brands; the product list is the new group's products of the old brand, the product effect having run with the old brand after the category effect emptied it, and `[]` when no brand was set; the same category changes nothing |
| Admin.ChangeCategoryHidesPicker | src/pages/AdminPage.jsx:83-268 | after a category change the product picker is hidden and no product is chosen, so the leftover list is never offered |
| Admin.BrandAfterCategory | src/pages/AdminPage.jsx:83-156 | a brand chosen after a category change lists exactly its products of the new group |
| Admin.ChangeCategoryForgetsEarlier | src/pages/AdminPage.jsx:83-156 | after a second category change the page depends only on the last category, and the product list is empty |
| Admin.ChangeBrand | src/pages/AdminPage.jsx:115-156 | a new non-empty brand clears the product choice and lists that brand's products of the group; the empty brand keeps the list; the same brand changes nothing |
| Admin.FindById | src/pages/AdminPage.jsx:138 | the first product with the chosen id is found, and none is found only when no product has it |
| Admin.PickProduct | src/pages/AdminPage.jsx:136-151 | choosing a listed product fills the form from it; an unknown or empty choice only records the id |
| Admin.Validate | src/pages/AdminPage.jsx:165-188 | name, price, stock and cost checks in order, each message exactly when the earlier ones pass and its own fails |
| Admin.PayloadOf | src/pages/AdminPage.jsx:190-200 | empty price, stock, cost or date become null, the others are parsed or passed through |
| Admin.AcceptedPayloadIsClean | src/pages/AdminPage.jsx:165-200 | an accepted form never sends `NaN`, and its stock is never negative |
| Admin.HandleSubmit | src/pages/AdminPage.jsx:158-227 | a failed check sends nothing; otherwise a PUT for a chosen product or a POST; success resets the form to its defaults; a save or reload failure keeps the form and shows the error |
| Admin.SavedFormIsDefault | src/pages/AdminPage.jsx:218-220 | after a successful save the form is the default one, with the first category selected |
| Admin.PickSaveRoundTrip | src/pages/AdminPage.jsx:136-200 | a listed product chosen and saved untouched passes validation and sends back its own price, stock and cost |
| Admin.DecimalRoundTrip | src/pages/AdminPage.jsx:143-184 | a price or cost written into the form reads back as the same number |
| Admin.CountRoundTrip | src/pages/AdminPage.jsx:145-177 | a whole stock written into the form reads back as the same count |
| Historial.TotalText | src/pages/HistorialVentas.jsx:35 | a falsy total searches as `''`, any other as its text |
| Historial.Filtered | src/pages/HistorialVentas.jsx:30-40 | a blank term returns the sales unchanged; otherwise an order-preserving sub-list holding every matching sale as often as it occurs, and nothing else |
| Historial.FilteredIdempotent | src/pages/HistorialVentas.jsx:30-40 | searching the result again with the same term changes nothing |
| Historial.TotalFindsSale | src/pages/HistorialVentas.jsx:34-39 | a sale whose total contains the term is found; a sale with total 0 and no items is never found |
| Historial.Remaining | src/pages/HistorialVentas.jsx:117 | the count of items after the first, 0 with no items |
| Historial.SummaryOf | src/pages/HistorialVentas.jsx:115-117 | a sale with items shows its first item, and a "more" label exactly when there are further ones |
| Historial.MoreLabelCountsRest | src/pages/HistorialVentas.jsx:117-144 | the "more" label reads `+<n> más` with `n` the number of further items |
| CustomerSelect.Filtered | src/component/CustomerSelect.jsx:44-48 | an empty query lists everyone; otherwise an order-preserving sub-list holding every matching customer as often as it occurs, and nothing else |
| CustomerSelect.OwnFieldFinds | src/component/CustomerSelect.jsx:44-48 | typing a customer's own name, email or phone finds that customer |
| CustomerSelect.HandleSelect | src/component/CustomerSelect.jsx:50-54 | selecting reports the customer, empties the query and closes the list |
| CustomerSelect.ClearSelected | src/component/CustomerSelect.jsx:56-61 | clearing reports no customer, empties the query and closes the list |
| CustomerSelect.AfterChangeListIsFull | src/component/CustomerSelect.jsx:44-61 | after selecting or clearing, the list shows every customer again |
| RegisterPayment.InitialAmount | src/component/RegisterPaymentModal.jsx:7-15 | the amount starts as the written balance, `''` when there is none |
| RegisterPayment.HandleSubmit | src/component/RegisterPaymentModal.jsx:17-33 | a payment goes out exactly for a positive amount, with that amount, the sale and the customer; anything else is rejected with "Monto inválido" |
| RegisterPayment.ProposedAmountPaysBalance | src/component/RegisterPaymentModal.jsx:7-33 | submitting the proposed amount pays the whole positive balance; with no or zero balance nothing is sent |
| RequireAuth.Decide | src/component/RequireAuth.jsx:11-27 | to the login page exactly without a token; home exactly on an admin route without the admin flag; otherwise the page renders |
| RequireAuth.AdminGuardIsStricter | src/component/RequireAuth.jsx:13-26 | an admin route renders only where an ordinary one would, the two agree for admins, and only the exact text `'true'` counts as the flag |
| Values.Total | src/pages/ReportsPage.jsx:111-116 | a column total is a number exactly when every entry is one, and then their ordinary sum |
| Common.FilterPinned | src/pages/AlmacenPage.jsx:108-122 | an order-preserving sub-list that keeps each accepted value as often as the list holds it, and no other value, is the filter's result, so the page filters' contracts determine their lists |
| Common.DistinctFilled | src/pages/ServicesPage.jsx:45-49 | the distinct non-empty values of a column, each once, in order of first appearance |

## Left out

- Requests, `localStorage`, `window.confirm` and toasts are not modelled as effects. Request outcomes, server messages and confirmations are inputs, and "a request went out" is an output.
- The live-search debounce and request cancellation in `VentasPage` are left out, as timers and async interleaving. So are the alert polling interval and the paging of the product-browse modal. The searches' results are inputs of `Ventas.ListItems`.
- Date handling is left out. Calendar day differences, `parseISO`, `new Date` and locale formatting are function parameters from text to an optional day count. `formatToInputDate`'s conversion is also a parameter, of `Catalog.InputDate`.
- `JSON.parse` inside `parseMeta` is a parameter. It is a partial function from text to metadata.
- `localeCompare(…, 'es')` and JavaScript's `<=` on month texts are both modelled as code-unit lexicographic order (`Text.StrLess`). Spanish collation is not modelled.
- `toLowerCase` lower-cases ASCII and Latin-1 letters only. `trim` removes the common JavaScript white-space characters.
- Numbers are exact reals, so floating-point rounding is not modelled.
- `Number`, `parseFloat` and `parseInt` accept the plain decimal grammar only. Exponents, hexadecimal and `Infinity` are not modelled.
- `String(x)` of a non-integer is exact only up to six decimals (`Numbers.NumText`). The round-trip lemmas require at most six decimals for that reason.
- The CSV Blob creation and download are left out. Only the text is modelled.
- The fallback date fields `fecha_vencimiento` and `expiry` are not modelled in the product forms and the warehouse badge. The product record has a single `vencimiento`.
- Alerts.NewestFirst: `created_at` is an integer timestamp. An invalid date, which sorts unpredictably in the page, is not modelled.
- Alerts.HandleResolve: polling can replace the list between the optimistic removal and a failure. That case is not modelled: the rollback restores the snapshot taken before removal.
- Historial.Remaining: the model covers only sales with an item list. The case without one, where the page computes `undefined - 1` but never shows it, is not modelled.
- The presentation-only files are not modelled: `Home`, `LoginPage`, `NavbarAdmin`, `Routes`, `CustomersPage` and `SaleDetailModal`.
- Reports.CsvFor: the header is the fixed key list the page's row objects always have. `Object.keys` is not modelled.
- Reports.SortByMonth: the page's comparator `a.month > b.month ? 1 : -1` never answers "equal". The order it gives rows that share a month depends on the engine, and the model keeps them in input order. `Reports.DistinctMonthsSorted` shows the choice is immaterial when months are distinct.
- Admin.Prefilled: the page copies `precio` into the form as a number, not as text. The model writes it as its text (`Numbers.NumText`), which `parseFloat` reads the same way.
- Services.ClearDrawer: the 200 ms delay is not modelled as time. The timer's firing is a separate step, `ClearDrawer`, that may come after any other step, as `Services.EditOpenedBeforeClearIsLost` shows.
- Services.Filtered: the sort is a stable insertion sort. The page relies on the engine's `Array.prototype.sort`, which is also stable.

## Findings

| source | as written | input that shows it | evidently intended | confidence | as-written member | corrected member |
|---|---|---|---|---|---|---|
| src/pages/AlmacenPage.jsx:52-55 | `handleDeleted` is declared outside the component and calls `setProductos`, which is not in scope there; the modal's `onDeleted` call throws, and its `catch` reports "Error al eliminar" | any delete the server accepts, e.g. product id 7 with a successful `DELETE` | the deleted product leaves the list and the modal closes | not executed | Almacen.DeleteAsWrittenKeepsDeleted | Almacen.DeleteCorrectedRemoves |

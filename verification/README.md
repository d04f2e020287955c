# clothy back-office logic in Dafny

clothy is a clothing-store back office: products with size and colour variants, stock held
per branch, stock movements, purchase orders, a dashboard and reports. Persistence and the
stock procedures run in a hosted backend. The decisions made in the browser and in the
server functions are modelled here as pure functions over the rows the backend returns:

- the CSV export and a parser for it (`CsvExport`);
- the delimiter-preserving title-casing (`TitleCase`);
- the report folds, the stock-health classifier and the movement tallies (`Reports`, with the
  generic group-by fold in `Grouping`);
- the two report tabs (`InventoryHealthTab`, `StockMovementsTab`);
- the dashboard data and its two widgets (`DashboardData`, `RecentMovementsWidget`,
  `PendingOrdersWidget`);
- the inventory page's adjustment rule and filter, the table's badge, and the search-state
  update (`InventoryPage`, `InventoryTable`, `SearchState`);
- the product form validators, the variant payload, the attribute toggle and the products
  page (`ProductSchema`, `ProductMutations`, `AttributeToggle`, `ProductPage`);
- the page title and layout decision from the path (`Routes`);
- two disagreements between files, stated as lemmas (`Consistency`).

Shared helpers: `Wrappers` (`Option`, `Result`, JavaScript's `x || fallback`), `Seqs`
(filter, map, subsequence, de-duplication, substring search) and `Ascii` (case mapping).

Rows arrive as sequences of records; a field reached through an optional join is an
`Option`. Quantities and prices are `int`. The transfer counter, which the source builds
from halves, is a `real`. Strings are `seq<char>` with ASCII case mapping.

## Model

| member | source | states |
|---|---|---|
| CsvExport.ExportCsv | src/lib/export.ts:5 | No rows give no document at all; any row gives one. |
| CsvExport.EscapeField | src/lib/export.ts:11-20 | A value holding a comma, a quote or a line feed is written between quotes; any other value is written as is. |
| CsvExport.EscapeRoundTrip | src/lib/export.ts:11-20 | Unquoting an escaped field gives back the original text: strip the surrounding quotes if any, then collapse doubled quotes. |
| CsvExport.EscapeInjective | src/lib/export.ts:11-20 | Two different values never escape to the same field. |
| CsvExport.CollapseDoubled | src/lib/export.ts:18 | Collapsing `""` to `"` undoes the doubling of every quote. |
| CsvExport.EscapedFieldHasNoBareComma | src/lib/export.ts:13-20 | An escaped field contains no comma outside quotes and leaves the reader outside a quoted section. |
| CsvExport.LineBareCommas | src/lib/export.ts:8-22 | A rendered line of n fields holds exactly n-1 commas outside quotes. |
| CsvExport.ReadEscapedField | src/lib/export.ts:12-20 | Reading an escaped field up to the next comma, line break or end yields the original value. |
| CsvExport.RenderLine | src/lib/export.ts:8-22 | A rendered line of at least one value reads back as exactly those values, in order. |
| CsvExport.ReadRenderedLine | src/lib/export.ts:8-22 | A rendered data line followed by a line feed, or by nothing, reads back as that row's values, in order. |
| CsvExport.ParseRenderedDocument | src/lib/export.ts:24 | Lines joined with LF parse back line by line into their fields. |
| CsvExport.HeaderIsRenderedLine | src/lib/export.ts:7 | When no key needs quoting, the header joined by commas is the same text as the keys rendered as a line. |
| CsvExport.ExportRoundTrip | src/lib/export.ts:5-24 | For records that each have at least one field and header keys that need no quoting, parsing the exported document gives the first row's keys followed by every row's values. |
| CsvExport.EmptyRecordIsAmbiguous | src/lib/export.ts:22 | A row with no fields renders like a row with one empty field. |
| CsvExport.HeaderKeyWithCommaSplits | src/lib/export.ts:7 | A header key containing a comma is not quoted, so it reads back as two columns. |
| TitleCase.Alternatives | src/utils/strings.ts:6-10 | The pattern's alternatives are the delimiters themselves, matched literally. An empty list leaves only the empty alternative. |
| TitleCase.MatchAt | src/utils/strings.ts:10-12 | The match at a position is an alternative occurring there, and none is found only when no alternative occurs there; which alternative wins is stated by MatchAtFirst. |
| TitleCase.MatchAtFirst | src/utils/strings.ts:6-12 | The match is the first alternative in list order that occurs at the position: every earlier alternative does not occur there. |
| TitleCase.SplitFrom | src/utils/strings.ts:12 | The split alternates text and matched delimiters: it has odd length and every odd piece is a delimiter; PiecesFree states that the text pieces hold none. |
| TitleCase.Split | src/utils/strings.ts:12 | `str.split(regex)` alternates text and delimiter pieces, starting and ending with text; its lossless join is SplitJoin and its delimiter-free words are WordsFree. |
| TitleCase.PiecesFree | src/utils/strings.ts:10-12 | With non-empty alternatives, no text piece of the split contains an alternative anywhere. |
| TitleCase.WordsFree | src/utils/strings.ts:4-12 | With a non-empty list of non-empty delimiters, every text piece of the split contains none of the delimiters. |
| TitleCase.SplitJoin | src/utils/strings.ts:12 | Concatenating the pieces of the split gives back the input. |
| TitleCase.RenderShape | src/utils/strings.ts:14-23 | A delimiter piece is copied unchanged. Any other non-empty piece becomes one capital followed by lower case. Either way the piece lower-cases as before. |
| TitleCase.Render | src/utils/strings.ts:14-23 | A piece keeps its length, and a delimiter piece is copied unchanged; the title-casing of the other pieces is RenderShape. |
| TitleCase.TitleCaseStructure | src/utils/strings.ts:12-25 | The output is the re-cased pieces joined; the delimiter pieces are unchanged, every other non-empty piece is title-cased, and with non-empty delimiters every text piece is free of delimiters. |
| TitleCase.ToTitleCase | src/utils/strings.ts:1-25 | The output has the input's length and lower-cases to the lower-cased input: only letter case changes. |
| TitleCase.TitleCaseCaseInsensitive | src/utils/strings.ts:12-25 | With delimiters free of letters, inputs that agree up to case give the same output. |
| TitleCase.TitleCaseIdempotent | src/utils/strings.ts:12-25 | With delimiters free of letters, title-casing twice equals title-casing once. |
| TitleCase.EmptyUnchanged | src/utils/strings.ts:2 | The empty string is returned unchanged. |
| TitleCase.DefaultSplitsOnSpace | src/utils/strings.ts:1-4 | For every input, a single delimiter behaves as a one-element list, and the default delimiter as the list holding one space. |
| TitleCase.SpaceSeparatedWords | src/utils/strings.ts:1-25 | "hI yO" with the default delimiter becomes "Hi Yo". |
| TitleCase.SplitNoMatch | src/utils/strings.ts:12 | Where no delimiter occurs in the rest of the input, the split returns the rest as one piece. |
| TitleCase.NoDelimiterOneWord | src/utils/strings.ts:6-25 | For every non-empty input without the one-character delimiter, the output is the first character upper-cased and the rest lower-cased, whatever character the delimiter is. |
| TitleCase.MetacharacterDelimiter | src/utils/strings.ts:6-7 | With "." as the delimiter, "axb" is one word ("Axb") and "a.b" two ("A.B"): the dot matches only itself. |
| TitleCase.FirstAlternativeWins | src/utils/strings.ts:6-12 | The order of the delimiters changes the output: "abc" gives "aBc" under ["a", "ab"] and "abC" under ["ab", "a"]. |
| Grouping.GroupAll | src/hooks/useReportsData.ts:104-123 | There are never more groups than rows, and at least one group when there is a row. |
| Grouping.GroupAllKeys | src/hooks/useReportsData.ts:104-123 | The group keys are the rows' keys with repetitions removed, in order of first appearance. |
| Grouping.GroupAllDistinct | src/hooks/useReportsData.ts:109-111 | Group keys are distinct, and a key has a group exactly when some row has that key. |
| Grouping.GroupAllConserves | src/hooks/useReportsData.ts:112-113 | The groups' quantities and values add up to the totals over all rows. |
| Grouping.GroupAllPerKey | src/hooks/useReportsData.ts:109-113 | Each group holds the sums over exactly its rows and keeps the id of its first row. |
| Grouping.KeyTotalsUnderFilter | src/hooks/useReportsData.ts:109-113 | Dropping only rows of other keys leaves a key's quantity and value sums unchanged. |
| Grouping.FirstIdUnderFilter | src/hooks/useReportsData.ts:109-111 | Dropping only rows of other keys keeps a present key present, with the same first row id. |
| Reports.StockByBranch | src/hooks/useReportsData.ts:104-123 | One entry per branch group, never more entries than rows. No entry is named after an inherited object property. |
| Reports.BranchStockConserves | src/hooks/useReportsData.ts:104-123 | The per-branch quantities and values add up to the totals over the rows whose branch name is not an inherited object property, and so over all rows when no name is one. |
| Reports.InheritedNameIgnored | src/hooks/useReportsData.ts:109-113 | A row whose branch (or category) name is an inherited object property, such as "constructor", changes nothing in that report. |
| Reports.BranchEntryOverAllRows | src/hooks/useReportsData.ts:109-113 | For a name that is not an inherited property, the sums and the first branch id over the kept rows equal those over all rows. |
| Reports.StockByBranchEntries | src/hooks/useReportsData.ts:104-123 | One entry per branch name ('Unknown' when missing), in first-appearance order, with inherited property names left out. Each entry sums all its rows and keeps its first row's branch id. |
| Reports.StockByCategory | src/hooks/useReportsData.ts:144-161 | One entry per category group, never more entries than rows. No entry is named after an inherited object property. |
| Reports.CategoryStockConserves | src/hooks/useReportsData.ts:144-161 | The per-category quantities and values add up to the totals over the rows whose category name is not an inherited object property, and so over all rows when no name is one. |
| Reports.CategoryEntryOverAllRows | src/hooks/useReportsData.ts:148-152 | For a name that is not an inherited property, the sums over the kept rows equal those over all rows. |
| Reports.StockByCategoryEntries | src/hooks/useReportsData.ts:144-161 | One entry per category name ('Uncategorized' when missing), in order, with inherited property names left out. Each entry sums all its rows. |
| Reports.TotalsAsGroupingSums | src/hooks/useReportsData.ts:108-113 | With the report's projection, the grouping fold's row sums are the total quantity and the total of quantity times price, a missing price counting as 0. |
| Reports.BranchSums | src/hooks/useReportsData.ts:286 | Summing the branch entries' values, the total inventory value, equals summing the groups' values. |
| Reports.TotalInventoryValue | src/hooks/useReportsData.ts:286 | Summing non-negative branch values gives a non-negative total; BranchSums ties it to the groups and BranchStockConserves to the rows. |
| Reports.Classify | src/hooks/useReportsData.ts:189-194 | The status is critical exactly at quantity 0, low exactly when non-zero and at or below the threshold, and ok otherwise. |
| Reports.InventoryHealth | src/hooks/useReportsData.ts:186-208 | One health item per row, in order. |
| Reports.HealthItemOfRow | src/hooks/useReportsData.ts:196-207 | An item carries the row's id, stock, threshold and classified status. A missing branch id gives '' and a missing price 0. |
| Reports.ToHealthItem | src/hooks/useReportsData.ts:196-207 | The item carries the row's id, stock and threshold, its status is critical exactly at 0 and low exactly when at or below the threshold, and a missing branch id or price gives '' or 0. |
| Reports.Summarize | src/hooks/useReportsData.ts:251-279 | Stock in and stock out are the sums of absolute quantities over their types, and the transfer count is half the absolute transfer volume rounded down, at most half of the two flows together. |
| Reports.ListedMovements | src/hooks/useReportsData.ts:260-276 | Every item is built from a row that the branch selection lists, and every listed row's item appears. |
| Reports.FetchMovements | src/hooks/useReportsData.ts:243-280 | The loop lists the selected branch's rows in order. The tallies are: stock in and stock out as sums of absolute quantities over their types, and transfers as the floor of half the transfer volume. |
| Reports.HalfFloor | src/hooks/useReportsData.ts:256-280 | Flooring half of a whole number is integer division by 2. |
| Reports.SelectionOnlyDrops | src/hooks/useReportsData.ts:260-277 | A branch selection only removes listed movements, keeping their order; 'all' lists every row. |
| Reports.UnrecognisedTypeIgnored | src/hooks/useReportsData.ts:251-255 | A movement of a type outside the five recognised ones changes no tally. |
| Reports.TransferPairCountsOnce | src/hooks/useReportsData.ts:251-257 | After any rows, a transfer out followed by a transfer in of the same size adds that size once to the transfer count, and once each to stock in and stock out. |
| InventoryHealthTab.StatusFilterMeaning | src/components/reports/InventoryHealthTab.tsx:35-37 | 'all' passes every item, 'low' passes low and critical items, and 'critical' or 'ok' pass exactly that status. |
| InventoryHealthTab.BranchFilterMeaning | src/components/reports/InventoryHealthTab.tsx:38 | 'all' passes every item; otherwise only items of that branch id pass. |
| InventoryHealthTab.CriticalWithinLow | src/components/reports/InventoryHealthTab.tsx:34-40 | Under any branch filter, the 'critical' result is an order-preserving subsequence of the 'low' result. |
| InventoryHealthTab.DefaultFiltersShowAttention | src/components/reports/InventoryHealthTab.tsx:31-40 | Under the initial 'low' and 'all' filters an item is shown exactly when it is low or critical. |
| InventoryHealthTab.FilteredItems | src/components/reports/InventoryHealthTab.tsx:34-40 | The filtered items are an order-preserving subsequence, and an item is listed exactly when it passes both filters. |
| InventoryHealthTab.BannerIffAttentionNeeded | src/components/reports/InventoryHealthTab.tsx:42-67 | The alert shows exactly when some item in the unfiltered list is not ok. |
| InventoryHealthTab.ShowsBanner | src/components/reports/InventoryHealthTab.tsx:42-67 | The banner needs some item; BannerIffAttentionNeeded states exactly when it shows. |
| InventoryHealthTab.RowCapMeaning | src/components/reports/InventoryHealthTab.tsx:147-169 | At most 50 rows show, as a prefix, and the note shows exactly when rows were cut. |
| InventoryHealthTab.ExportReadsBack | src/components/reports/InventoryHealthTab.tsx:114-122 | The export of the filtered items reads back as the header followed by one line per item; with no items nothing is exported. |
| InventoryHealthTab.ExportStatusColumn | src/components/reports/InventoryHealthTab.tsx:121 | The status column holds the item's status name upper-cased. |
| StockMovementsTab.TypeLabel | src/components/reports/StockMovementsTab.tsx:54-63 | A type keeps its own text as its label exactly when it is not one of the five known types; a known type's label starts with a capital. |
| StockMovementsTab.KnownLabelsDistinct | src/components/reports/StockMovementsTab.tsx:55-61 | No two known types share a label. |
| StockMovementsTab.MovementBadge | src/components/reports/StockMovementsTab.tsx:65-91 | A type containing "transfer" gets the Transfer badge whatever the sign. Otherwise the badge is IN exactly for a positive quantity and OUT for zero or less. |
| StockMovementsTab.SignPrefix | src/components/reports/StockMovementsTab.tsx:241-244 | The '+' prefix appears exactly for a positive quantity, and otherwise there is no prefix. |
| StockMovementsTab.SignAndTone | src/components/reports/StockMovementsTab.tsx:241-249 | The success colour goes exactly with the '+' prefix. |
| StockMovementsTab.QuantityTone | src/components/reports/StockMovementsTab.tsx:241-249 | The quantity takes the success colour exactly when the '+' prefix is shown. |
| StockMovementsTab.ShowsEmptyMessage | src/components/reports/StockMovementsTab.tsx:203 | The empty message shows exactly when the table renders no row. |
| StockMovementsTab.RowCapMeaning | src/components/reports/StockMovementsTab.tsx:219-262 | At most 50 movements show, as a prefix, and the note shows exactly when rows were cut. |
| StockMovementsTab.ExportRecord | src/components/reports/StockMovementsTab.tsx:184-193 | Every exported record has exactly the fixed header's keys, in order. |
| StockMovementsTab.ExportReadsBack | src/components/reports/StockMovementsTab.tsx:184-193 | The export reads back as the header plus one line per movement, without the 50-row cap. |
| DashboardData.LowStock | src/hooks/useDashboardData.ts:118-127 | The items are the fetched rows strictly below their threshold, mapped one to one in fetch order, so every such row is listed and every item is below its threshold. |
| DashboardData.LowStockMeaning | src/hooks/useDashboardData.ts:79-127 | A row is low exactly when it was fetched as a candidate (quantity under 100) and its quantity is below its threshold. The low rows keep their order. |
| DashboardData.RecentMovements | src/hooks/useDashboardData.ts:95-138 | The first min(n, 5) of the n newest-first rows, each carried over from its row in the same position. |
| DashboardData.PendingOrders | src/hooks/useDashboardData.ts:109-150 | The first min(k, 5) of the k pending rows (draft, ordered or partial) in delivery order, each mapped in the same position. |
| DashboardData.PendingOrdersComplete | src/hooks/useDashboardData.ts:109-150 | With at most five pending rows fetched, a fetched row is shown exactly when it is pending. |
| DashboardData.NextDelivery | src/hooks/useDashboardData.ts:153-155 | The next delivery is present exactly when some order has a non-empty date. It is the date of the first such order. |
| DashboardData.Stats | src/hooks/useDashboardData.ts:153-165 | The counts are those of the low-stock list and the pending orders, a reported product or branch count is passed through and a missing one becomes 0, and the next delivery is that of NextDelivery on the shown orders. |
| DashboardData.StatsMeaning | src/hooks/useDashboardData.ts:157-165 | The low-stock count counts every low row, while the widget keeps the first five. The pending count is at most five, and missing counts become 0. |
| DashboardData.LowStockWidget | src/hooks/useDashboardData.ts:165 | The widget's list is a prefix of the low-stock items, of length min(n, 5). |
| DashboardData.UnknownNames | src/hooks/useDashboardData.ts:121-145 | Missing product, branch and supplier names become 'Unknown'. A missing size shows as 'undefined'. |
| RecentMovementsWidget.MovementLabel | src/components/dashboard/RecentMovementWidget.tsx:17-26 | transfer_in and transfer_out show TRANSFER and adjustment shows ADJ. Every other type, 'in' and 'out' included, shows upper-cased. |
| RecentMovementsWidget.MovementStyle | src/components/dashboard/RecentMovementWidget.tsx:28-32 | Primary exactly for 'in' and 'transfer_in', destructive exactly for 'out' and 'transfer_out', muted otherwise. |
| RecentMovementsWidget.RenderCard | src/components/dashboard/RecentMovementWidget.tsx:42-75 | The view-all link shows exactly when there are lines, and the empty message exactly when there are no movements. Otherwise there is one line per movement. |
| RecentMovementsWidget.ShowsPlus | src/components/dashboard/RecentMovementWidget.tsx:68 | The '+' shows exactly when the type has an 'i' immediately followed by an 'n'. |
| RecentMovementsWidget.ContainsAt | src/components/dashboard/RecentMovementWidget.tsx:68 | `includes` holds exactly when the substring occurs at some position. |
| RecentMovementsWidget.SignMatchesStyle | src/components/dashboard/RecentMovementWidget.tsx:68-69 | 'in' and 'transfer_in' show a '+'; 'out' and 'transfer_out' do not. |
| RecentMovementsWidget.InflowsWithoutPlus | src/components/dashboard/RecentMovementWidget.tsx:28-69 | purchase_received and adjustment_add contain no "in", so they show no '+' and the muted style. |
| RecentMovementsWidget.UnlistedLabels | src/components/dashboard/RecentMovementWidget.tsx:25-31 | Unlisted types that agree up to case get the same label, and the muted style. |
| PendingOrdersWidget.StatusStyle | src/components/dashboard/PendingOrdersWidget.tsx:18-27 | Primary exactly for 'ordered', accent exactly for 'partial', muted for anything else. |
| PendingOrdersWidget.Capitalize | src/components/dashboard/PendingOrdersWidget.tsx:63 | Only the first character is upper-cased, the rest is unchanged, and an empty status stays empty. |
| PendingOrdersWidget.CapitalizeMeaning | src/components/dashboard/PendingOrdersWidget.tsx:63 | Capitalising is idempotent and leaves a status whose first character is not lower-case alone. |
| PendingOrdersWidget.RenderCard | src/components/dashboard/PendingOrdersWidget.tsx:39-50 | The view-all link shows exactly when there are lines, and the empty message exactly when there are no orders. |
| PendingOrdersWidget.LineMeaning | src/components/dashboard/PendingOrdersWidget.tsx:57-73 | The delivery line shows exactly when the date is present and non-empty. The line links to the order's page. |
| PendingOrdersWidget.NextDeliveryIsFirstLine | src/hooks/useDashboardData.ts:153-155 | The dashboard's next delivery is the first delivery line the widget shows, and is absent when none shows. |
| InventoryPage.Submit | src/components/pages/Inventory.tsx:62-89 | Nothing happens without a selection or a quantity. A quantity of zero or less, or a removal above the stock, is rejected with its message; everything else issues a mutation. |
| InventoryPage.IssuedMutation | src/components/pages/Inventory.tsx:77-88 | The mutation carries the quantity, the direction and the row id unchanged. An addition raises the stock by the quantity; a removal lowers it strictly and never below 0. |
| InventoryPage.NoSearchShowsAll | src/components/pages/Inventory.tsx:106-121 | Without search parameters every row is listed. |
| InventoryPage.FilteredInventory | src/components/pages/Inventory.tsx:106-121 | The listed rows are an order-preserving subsequence, and a row is listed exactly when it passes all three filters. |
| InventoryPage.SearchTermMeaning | src/components/pages/Inventory.tsx:107-114 | A non-empty term passes exactly the rows whose name or SKU contains it, ignoring case. |
| InventoryPage.BranchAndLowStockMeaning | src/components/pages/Inventory.tsx:115-119 | No branch or 'all' passes every row, and another id passes exactly its rows. The low-stock toggle keeps rows strictly below threshold. |
| InventoryTable.Badge | src/features/inventory/components/InventoryTable.tsx:69-75 | Low Stock exactly below the threshold. Out of Stock exactly at 0 with a threshold of 0 or less. In Stock exactly at or above the threshold and non-zero. |
| InventoryTable.EmptyRowWithThresholdIsLow | src/features/inventory/components/InventoryTable.tsx:69-72 | An empty row with a positive threshold shows Low Stock. |
| InventoryTable.Actions | src/features/inventory/components/InventoryTable.tsx:79-93 | Add is always enabled, and Remove is enabled exactly when the quantity is non-zero. |
| InventoryTable.Render | src/features/inventory/components/InventoryTable.tsx:24-31 | An empty list shows the no-records message instead of a table. |
| SearchState.UpdateFilter | src/features/inventory/context/InventoryContext.tsx:33-41 | A falsy value or 'all' removes the key, and any other value is stored as given. Every other key is unchanged. |
| SearchState.UpdateIdempotent | src/features/inventory/context/InventoryContext.tsx:36-39 | The same update twice equals one. |
| SearchState.AllSameAsEmpty | src/features/inventory/context/InventoryContext.tsx:38 | 'all', '' and every falsy value give the same state. |
| SearchState.UpdateOverwrites | src/features/inventory/context/InventoryContext.tsx:36-39 | A later update of a key overrides an earlier one. |
| ProductMutations.PayloadLength | src/features/products/api/mutations.ts:8-10 | The payload has one entry per size and colour pair: the number of sizes times the number of colours. |
| ProductMutations.PayloadIndex | src/features/products/api/mutations.ts:8-10 | Entries are size-major: entry i times the number of colours plus j pairs the i-th size with the j-th colour. |
| ProductMutations.VariantsPayload | src/features/products/api/mutations.ts:8-10 | A pair occurs exactly when its size is among the sizes and its colour among the colours. |
| ProductMutations.PayloadDistinct | src/features/products/api/mutations.ts:8-10 | Sizes and colours without repetitions give a payload without repeated pairs. |
| ProductMutations.EmptyAttributesEmptyPayload | src/features/products/api/mutations.ts:8-10 | No sizes or no colours give no variants. |
| ProductMutations.CreatePayload | src/features/products/api/mutations.ts:14-21 | An empty description or category id is sent as null; sku, name and price pass through unchanged; the variants are the flatMap payload of the chosen sizes and colours: one entry per pair, a pair present exactly when its size and colour were chosen. |
| ProductMutations.UpdatePayload | src/features/products/api/mutations.ts:40-53 | An update sends what a creation from the same form sends, plus the product id. |
| AttributeToggle.Toggle | src/features/products/components/AddProductForm.tsx:34-42 | A toggle changes the length by exactly one, down when the value is present and up otherwise. |
| AttributeToggle.ToggleEffect | src/features/products/components/AddProductForm.tsx:36-41 | A present value loses its first occurrence, with the rest kept in order; an absent value is appended. |
| AttributeToggle.ToggleTwiceRestores | src/features/products/components/AddProductForm.tsx:34-42 | Toggling an absent value twice restores the list. |
| AttributeToggle.ToggleOnDistinct | src/features/products/components/AddProductForm.tsx:34-42 | On a list without repetitions the result has none, the value's membership flips, and other memberships stay. |
| ProductPage.FilteredProducts | src/components/pages/Product.tsx:104-114 | The listed products are an order-preserving subsequence, and a product is listed exactly when it passes both filters. |
| ProductPage.ProductFilterMeaning | src/components/pages/Product.tsx:105-112 | No term passes every product; otherwise a product passes when its name or SKU contains the term, ignoring case. No category or 'all' passes every product; otherwise only exact category matches pass. |
| ProductPage.RecoveredSizes | src/components/pages/Product.tsx:87 | Recovered sizes have no repetitions and are exactly the sizes of the fetched variants; a failed fetch gives none. |
| ProductPage.RecoveredSizesOrder | src/components/pages/Product.tsx:87 | Recovered sizes keep the order of their first appearance. |
| ProductPage.RecoveredColors | src/components/pages/Product.tsx:88 | Recovered colours have no repetitions and are exactly the colours of the fetched variants; a failed fetch gives none. |
| ProductPage.RecoveredColorsOrder | src/components/pages/Product.tsx:88 | Recovered colours keep the order of their first appearance. |
| ProductPage.NoVariantsEmptyLists | src/components/pages/Product.tsx:87-88 | No variants, or a failed fetch, give empty lists. |
| ProductPage.RecoverPayloadSizes | src/components/pages/Product.tsx:82-87 | When the fetched rows are the sent payload in any order and some colour was chosen, the recovered sizes are the chosen sizes as a set. |
| ProductPage.RecoverPayloadColors | src/components/pages/Product.tsx:82-88 | When the fetched rows are the sent payload in any order and some size was chosen, the recovered colours are the chosen colours as a set. |
| ProductPage.RecoverSizesExactly | src/components/pages/Product.tsx:87 | Sizes without repetitions are recovered exactly, in order, when the variants come back in the order they were sent. |
| ProductPage.RecoverColorsExactly | src/components/pages/Product.tsx:88 | Colours without repetitions are recovered exactly, in order, when the variants come back in the order they were sent. |
| ProductPage.EditRoundTripAnyOrder | src/components/pages/Product.tsx:82-96 | Opening the editor on a saved product and saving it unchanged sends the same variants again, up to order, whatever order the rows come back in, for non-empty lists without repetitions. |
| ProductPage.EditRoundTrip | src/components/pages/Product.tsx:87-96 | When the variants come back in the order they were sent, the re-sent payload is the same sequence, for non-empty lists without repetitions. |
| ProductSchema.ParseForm | src/features/products/types/schema.ts:7-15 | An input is accepted exactly when it is an object with five string fields and two string lists (and, on the client, a non-empty price); an accepted input carries every one of the seven fields over, and a refusal lists at least one issue. |
| ProductSchema.ParsedFormAsJson | src/features/products/types/schema.ts:7-15 | Sent back as JSON, a parsed form agrees with the accepted input on all seven keys. |
| ProductSchema.FormSchemaOnForms | src/features/products/types/schema.ts:7-34 | The client schema accepts a form exactly when its price is non-empty, and any strings and string lists, empty ones included. The server form accepts every form. |
| ProductSchema.EmptyPriceOnlyServerAccepts | src/features/products/types/schema.ts:10-30 | An empty price passes the server validator but not the client form. |
| ProductSchema.ProductInputSchema | src/features/products/types/schema.ts:21-24 | An accepted limit lies in [1, 100]. |
| ProductSchema.ProductInputMeaning | src/features/products/types/schema.ts:21-24 | The limit is accepted exactly in [1, 100] and defaults to 50; categoryId is optional. |
| ProductSchema.SearchParams | src/features/products/types/schema.ts:41-44 | An accepted input is an object, and an absent key parses as absent. |
| ProductSchema.SearchParamsMeaning | src/features/products/types/schema.ts:41-44 | Any mix of present and absent string parameters is accepted as given; a non-string is refused. |
| Routes.SplitOn | src/routes/__root.tsx:53 | Splitting gives at least one piece. |
| Routes.SplitJoin | src/routes/__root.tsx:53 | The pieces joined with '/' give the path back, and no piece contains '/'. |
| Routes.SplitAround | src/routes/__root.tsx:53 | Splitting around one '/' splits each side separately. |
| Routes.NavTitleMatchesTable | src/components/layout/navLinks.ts:16-29 | A key has a title exactly when the table has an entry for it, and the title is that entry's. |
| Routes.NavTitle | src/components/layout/navLinks.ts:16-29 | The lookup `navLinks[key]?.title`; NavTitleMatchesTable states that it finds a title exactly for the table's keys, and then that entry's title. |
| Routes.TopLevelTitle | src/routes/__root.tsx:54-57 | '/key' takes the table title of key, and a path without a leading '/' has no title. |
| Routes.DeeperTitle | src/routes/__root.tsx:53-57 | A path '/key/rest' with key other than products takes the table title of key, whatever rest holds. |
| Routes.ProductPathTitle | src/routes/__root.tsx:54-57 | '/products/x' is titled Product Details when x has no '/', empty x included; deeper paths take the Products title. |
| Routes.ProductsListTitle | src/routes/__root.tsx:54-57 | '/products' and '/products/a/b' are titled Products, and '/products/a' Product Details. |
| Routes.PageTitleFromTable | src/routes/__root.tsx:53-57 | Every page title is Product Details or the title of a sidebar link. |
| Routes.PageTitle | src/routes/__root.tsx:53-57 | The layout's title for a pathname; PageTitleFromTable, TopLevelTitle, DeeperTitle and ProductPathTitle state what it gives. |
| Routes.UsesLayout | src/routes/__root.tsx:63-68 | A page shown without the dashboard layout has no title. |
| Routes.LayoutChoice | src/routes/__root.tsx:63-68 | The dashboard layout wraps every page except those whose first segment is login or signup. |
| Routes.LinkHref | src/components/layout/navLinks.ts:16-29 | Every entry's href is '/' followed by its key. |
| Routes.LinkTitlesItsPage | src/components/layout/navLinks.ts:16-29 | The page at each entry's href is titled with that entry's title. |
| Consistency.LowStockDisagreement | src/hooks/useReportsData.ts:192 | The page filter, the table badge and the dashboard agree on "low" (strictly below threshold); the reports' classifier disagrees exactly at quantity = threshold or at quantity 0 with a negative threshold. |
| Consistency.AtThresholdExample | src/features/inventory/components/InventoryTable.tsx:69 | A row of 5 with threshold 5 is low in the reports but not low on the page, the table or the dashboard. |
| Consistency.AdjustmentsNotTallied | src/components/pages/Inventory.tsx:85 | An adjustment is sent as 'in' or 'out'. A movement recorded under either name changes none of the report's tallies. |

## Left out

- Backend access: every Supabase query and RPC is outside the model. The rows a query returns are an input, in the order the backend returns them. The query filters that matter (quantity under 100, the pending statuses, the limit of five) are written as functions over the rows.
- The bodies of the `inventory_adjustment` and `*_product_with_variants` procedures are not in the repository. Whether the backend renames the movement types 'in'/'out' is therefore not modelled; `Consistency.AdjustmentsNotTallied` states what happens if it does not.
- The stock-movement form validator is imported from a schema file that does not define it, so it is not part of this model.
- Parsing of user input: `parseInt` on the quantity and `parseFloat` on the price are left out. A quantity arrives already parsed, and NaN is not modelled. The price is carried as the form's string.
- Floating point: quantities and prices are integers and the transfer counter is an exact real. `Reports.FetchMovements` therefore does not model rounding error in the running sum of halves.
- Number and date formatting: `toFixed`, `toLocaleDateString` and the date-fns formats are left out. A formatted date is a parameter of the export or is carried as text. The reports' date-window arithmetic is also left out.
- ProductPage.EditRoundTrip, ProductPage.RecoverSizesExactly, ProductPage.RecoverColorsExactly: assume the variant rows come back in the order they were sent. The query has no order clause, so `ProductPage.EditRoundTripAnyOrder`, `RecoverPayloadSizes` and `RecoverPayloadColors` state the order-free facts.
- ProductSchema.ParseForm: the issues are simplified. A type error carries a generic message instead of zod's own, and a list field gives one issue at its key, not one per bad element at the element's path. Which inputs are accepted and what they parse to are modelled exactly.
- Unicode: case mapping is ASCII only (`Ascii`), for `toLowerCase`, `toUpperCase` and the title-casing.
- CsvExport.ExportRoundTrip: requires header keys that need no quoting, because the source writes keys unquoted; `CsvExport.HeaderKeyWithCommaSplits` shows what happens otherwise. It also requires every record to have at least one field, because an empty record renders like a record holding one empty value (`CsvExport.EmptyRecordIsAmbiguous`).
- CsvExport.ExportCsv: only the text is modelled. The Blob, the object URL, the download file name and the click are left out.
- `Object.keys`/`Object.values` order: a record is a sequence of entries in insertion order. Groups are kept in first-insertion order. JavaScript lists integer-like keys first, and that reordering is not modelled.
- The label lookups read a plain object, so a type named like an inherited property (`constructor`, say) would hit the prototype. This is not modelled for the labels.
- Reports.StockByBranch, Reports.StockByCategory, Grouping.GroupAll: a row whose name is an inherited object property finds a truthy prototype value, so no own entry is created and `Object.entries` leaves it out. The model drops such rows before grouping, with the twelve names of a plain object's prototype. The NaN that `+=` writes onto the inherited property is not modelled, and neither is the write through `__proto__`, which changes the object's prototype.
- SearchState.UpdateFilter: a key set to `undefined` is modelled as removed from the state. The router serialises both the same way.
- Search values are the JavaScript values the filters use. NaN and objects are not modelled as falsy or truthy.
- Concurrency: the client-side read-modify-write of the stock quantity and the parallel fetches are left out.
- Rendering: components without decisions, the form components and the loading spinners of the report tabs are left out. The inventory table's spinner is modelled.
- Framework wiring is left out: React Query hooks, contexts without logic, toasts and navigation calls. A navigation target is modelled as its path.
- StockMovementsTab.TypeLabel: states which types keep their own text and that known labels start with a capital. The five fixed labels appear only in its body and in `KnownLabelsDistinct`.

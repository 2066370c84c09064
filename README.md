# PrintVault catalog and inventory, modelled in Dafny

PrintVault keeps a catalog of paints and an inventory of entries that refer
to them. A paint is identified by its key: brand, range and manufacturer
code. An entry is either owned or on the wishlist and carries a quantity.

This project models the logic that decides identity and quantities, over an
in-memory store:
- the shared reconciler `addOrIncrementInventoryItem`;
- the CSV catalog importer, from parsing a line to upserting paints and
  setting owned quantities;
- the manual "Add Paint" form;
- the reset service;
- the search and membership filters and the delete actions of the home,
  catalog, collection, wishlist and paint-detail screens.

The store is the class `StoreModel.Store`:
- `paints` and `items` are sequences of records, and `nextId` is the next
  fresh object identity.
- A ghost `deletions` log records every deleted object, in order.
- Every state-changing method ensures that the new `State()` equals a pure
  function of the old one. The properties are proved about those functions.

SwiftData behaviour is modelled as follows:
- `fetch(...).first` is the first match in store order.
- An insert appends.
- An entry refers to its paint by `paintId`.
- Deleting a paint cascades to its entries.

Environment stand-ins:
- Outside effects become parameters: the clock is `now`, and a failing
  fetch is a `...FetchFails` / `lookupFails` flag.
- Text is a sequence of Unicode scalars. Trimming uses the exact
  white-space set of `whitespacesAndNewlines`. Case mapping covers ASCII
  letters.
- `Int(String)` accepts an optional sign, then ASCII digits, within the
  64-bit range.

Two places where the code is followed:
- The manual form does not use the reconciler. It always inserts a new
  entry, so saving twice for an existing key and status leaves two entries
  (`AddPaint.SaveDuplicatesEntry`).
- `Paint.swift` declares `brand` and no type. Its callers use `brandRaw`,
  `typeRaw` and an initialiser with `type:`. The model has the fields the
  callers use.

The main results:
- `ImportIdempotence.ReimportChangesNothing`: importing the same file again
  leaves the store unchanged and reports the same counts.
- `ImportIdempotence.LastRowWins` and `ImportIdempotence.LastQuantityWins`:
  the last row for a key decides the paint's name and type, and the last
  row with a positive quantity decides its owned quantity. The barcode is
  that of the last row with a non-empty barcode
  (`ImportIdempotence.MergeAllShape`).
- The two import results above are about the importer as intended, which
  inserts a new paint when the lookup finds none (`ImportCSV.UpsertPaint`).
  As written, the insertion guard never holds (see "## Findings"), and
  re-importing is then not idempotent (`ImportCSV.AsWrittenReimportChanges`).
  Take an empty store and two rows for one key: the first with barcode "B1"
  and no quantity, the second with no barcode and quantity 2. The first run
  loses the first row's paint; the second row's paint, with a nil barcode,
  reaches the store through its owned entry. A second run finds that paint
  and gives it the barcode "B1".
- `InventoryActions.RepeatedAddsAccumulate`: `n` adds leave exactly one
  entry, with quantity `n`.
- `Wishlist.BoughtItMovesToOwned`: "bought it" adds exactly one to the
  owned entry (or creates it with one), whatever the wishlist quantity.
- `Reset.ResetStore`: entries are deleted before any paint.

## Model

| member | source | states |
|---|---|---|
| InventoryItemModel.StatusFromRaw | PrintVault/Models/InventoryItem.swift:26-27 | the getter decodes "wishlist" to wishlist and every other text, unknown ones included, to owned; a decoded status re-encodes to the text unless it fell back to owned |
| InventoryItemModel.StatusRoundTrip | PrintVault/Models/InventoryItem.swift:4-6 | decoding a status's raw value gives the status back |
| InventoryItemModel.StatusRawInjective | PrintVault/Models/InventoryItem.swift:4-13 | the raw values "owned"/"wishlist" differ, and so do the titles |
| InventoryItemModel.Title | PrintVault/Models/InventoryItem.swift:8-13 | owned shows "Owned" and wishlist shows "Wishlist" |
| InventoryItemModel.WithStatus | PrintVault/Models/InventoryItem.swift:28 | the setter stores the raw value; reading the status afterwards gives what was set, and all other fields are kept |
| InventoryItemModel.NewItem | PrintVault/Models/InventoryItem.swift:31-43 | the initialiser stores the status's raw value, so it reads back as that status, and keeps paint, quantity, notes and creation time as given |
| PaintModel.BrandRoundTrip | PrintVault/Views/ImportCSVView.swift:164 | decoding a brand's raw value gives the brand back |
| PaintModel.TypeRoundTrip | PrintVault/Views/ImportCSVView.swift:165 | decoding a type's raw value gives the type back |
| PaintModel.NewPaint | PrintVault/Models/Paint.swift:20-32 | the initialiser stores every argument as given, without trimming or case change, so brand and type read back as given |
| StoreModel.PaintById | PrintVault/Models/Paint.swift:17-18 | `item.paint` resolves to a stored paint with that identity, or to none when no paint has it |
| StoreModel.PaintByIdOfStored | PrintVault/Models/Paint.swift:17-18 | with unique identities, a stored paint is the one its identity resolves to |
| StoreModel.ItemKeySame | PrintVault/Models/InventoryActions.swift:24-26 | paints with the same identities and keys at every position give every entry the same paint key |
| StoreModel.FindPaint | PrintVault/Views/ImportCSVView.swift:200-211 | the lookup finds the first paint with the key; no earlier paint has it, and none is found exactly when no paint has it |
| StoreModel.FirstItem | PrintVault/Models/InventoryActions.swift:21-30 | the first entry with the raw status whose paint has the key; no earlier entry matches, and none is found exactly when none matches |
| StoreModel.InsertPaintKeeps | PrintVault/Models/Paint.swift:17-18 | inserting a paint with a fresh identity keeps the store well formed, and the new paint's `inventoryItems` is empty |
| StoreModel.InsertItemKeeps | PrintVault/Models/Paint.swift:17-18 | inserting an entry for a stored paint keeps the store well formed and appends the entry to that paint's `inventoryItems` |
| StoreModel.ReplacePaintKeeps | PrintVault/Views/ImportCSVView.swift:177-184 | overwriting a paint's fields in place, identity kept, keeps the store well formed |
| StoreModel.ReplaceQuantityKeeps | PrintVault/Models/InventoryActions.swift:31 | writing an entry's quantity keeps the store well formed |
| StoreModel.DeleteItemKeeps | PrintVault/Views/WishlistView.swift:125-128 | deleting an entry keeps the store well formed and removes exactly the entries with that identity |
| StoreModel.DeletePaintKeeps | PrintVault/Models/Paint.swift:17 | deleting a paint keeps the store well formed; it removes that paint and, by the cascade rule, every entry that refers to it, and nothing else |
| StoreModel.DeletePaintMembers | PrintVault/Models/Paint.swift:17 | what a paint deletion keeps, as membership: the other paints and the entries of other paints |
| StoreModel.Store.DeletePaint | PrintVault/Models/Paint.swift:17 | the state after the deletion; the log gains the cascaded entries, then the paint |
| StoreModel.Store.DeleteItem | PrintVault/Views/WishlistView.swift:126 | the state after the deletion; the log gains the entry |
| InventoryActions.IncrementsFirstMatch | PrintVault/Models/InventoryActions.swift:21-32 | with an existing entry for the key and status, the first one's quantity goes up by exactly one and the outcome carries the new quantity; nothing else changes and nothing is inserted |
| InventoryActions.InsertsWhenAbsent | PrintVault/Models/InventoryActions.swift:33-36 | without such an entry, exactly one entry is appended: quantity 1, the given status, nil notes, a fresh identity; the outcome is `addedNew` |
| InventoryActions.SameKeySameEntry | PrintVault/Models/InventoryActions.swift:15-27 | matching is by identity key: two paint records with the same key get the same outcome, and the same state when an entry exists |
| InventoryActions.OtherBucketUntouched | PrintVault/Models/InventoryActions.swift:18-23 | an entry of the other status is never changed, the paints are never changed, and any new entry has the given status |
| InventoryActions.AddOrIncrement | PrintVault/Models/InventoryActions.swift:15-37 | the paints never change; the outcome is `addedNew` exactly when the lookup for the key and status finds no entry; an increment keeps the number of entries and the next identity, an insert adds one entry and uses one identity |
| InventoryActions.KeepsAtMostOne | PrintVault/Models/InventoryActions.swift:21-37 | for a stored paint, the reconciler keeps the store well formed and keeps at most one entry per key and status |
| InventoryActions.RepeatedAddsAccumulate | PrintVault/Models/InventoryActions.swift:30-36 | starting without an entry, `n` calls leave one new entry with quantity `n`; the outcomes are `addedNew`, then `incremented(2)` to `incremented(n)` |
| InventoryActions.AddOrIncrementInventoryItem | PrintVault/Models/InventoryActions.swift:9-38 | a failing fetch throws and changes nothing; otherwise the state and outcome are those of the reconciler function |
| CsvLine.ParseCSVLine | PrintVault/Views/ImportCSVView.swift:261-298 | the loop returns the fields of the recursive reading of the line; their number is one more than the delimiters outside quotes |
| CsvLine.Fields | PrintVault/Views/ImportCSVView.swift:269-297 | reading from any position yields at least one field, since the field being built is always appended at the end |
| CsvLine.ParseLine | PrintVault/Views/ImportCSVView.swift:261-298 | a line gives one more field than it has delimiters outside quotes |
| CsvLine.FieldCount | PrintVault/Views/ImportCSVView.swift:285-296 | a line splits into one more field than it has delimiters outside quotes |
| CsvLine.QuotedRoundTrip | PrintVault/Views/ImportCSVView.swift:272-283 | any fields, written quoted with inner quotes doubled, parse back to themselves |
| CsvLine.PlainRoundTrip | PrintVault/Views/ImportCSVView.swift:285-296 | fields without quotes or delimiters, joined by the delimiter, parse back to themselves |
| CsvLine.ExampleEscapedQuote | PrintVault/Views/ImportCSVView.swift:273-277 | a doubled quote inside quotes is one quote, and a delimiter inside quotes is text |
| ImportText.LinesShape | PrintVault/Views/ImportCSVView.swift:120-124 | after line endings are normalised and empty pieces dropped, every line is non-empty and free of breaks, and together they hold exactly the non-break characters of the text |
| ImportText.NoLinesIff | PrintVault/Views/ImportCSVView.swift:120-128 | a text has no lines exactly when it consists of line breaks only |
| ImportText.LinesOfJoined | PrintVault/Views/ImportCSVView.swift:120-124 | lines joined with newlines split back into the same lines |
| ImportText.Lines | PrintVault/Views/ImportCSVView.swift:120-124 | every line is non-empty and holds no line break |
| ImportText.StripBOM | PrintVault/Views/ImportCSVView.swift:131 | no byte-order mark remains, no character is added, and every other character of the text still occurs |
| ImportText.StripBOMAppend | PrintVault/Views/ImportCSVView.swift:131 | removing the marks from a concatenation is removing them from each part, so order and count of the other characters are kept |
| ImportText.StripBOMChar | PrintVault/Views/ImportCSVView.swift:131 | a single character is dropped exactly when it is the byte-order mark |
| ImportText.Delimiter | PrintVault/Views/ImportCSVView.swift:133-136 | the delimiter is ';' exactly when the header has a ';' and no ','; otherwise it is ',' |
| ImportText.HeaderNames | PrintVault/Views/ImportCSVView.swift:138-139 | one name per field of the parsed header line, each that field with white space trimmed from both ends |
| ImportText.IndexOf | PrintVault/Views/ImportCSVView.swift:241-247 | every lowercased header name is a key, and every key maps to a column whose lowercased name is that key |
| ImportText.IndexOfLastWins | PrintVault/Views/ImportCSVView.swift:241-247 | no column after the one a key maps to has that lowercased name, so a repeated name maps to its last column |
| ImportText.IndexMap | PrintVault/Views/ImportCSVView.swift:241-247 | the loop builds exactly the last-wins column map |
| ImportText.FirstMissingColumn | PrintVault/Views/ImportCSVView.swift:143-147 | a missing required column is reported, and none is reported exactly when all five are present |
| ImportText.MissingColumnIsFirst | PrintVault/Views/ImportCSVView.swift:143-147 | the column reported comes no later in the order brand, range, type, manufacturercode, name than any missing one |
| ImportText.ReadHeader | PrintVault/Views/ImportCSVView.swift:131-140 | the delimiter is ';' exactly when the first line has a ';' and no ',', and is never the quote; every lowercased header name is in the column map |
| ImportText.Value | PrintVault/Views/ImportCSVView.swift:249-253 | a missing or out-of-range column reads as ""; otherwise the trimmed cell |
| ImportText.OptionalValue | PrintVault/Views/ImportCSVView.swift:255-258 | nil exactly when the value is empty, otherwise the value |
| ImportText.DecodeRow | PrintVault/Views/ImportCSVView.swift:155-165 | the code has no lowercase letter, range and name are trimmed, and a barcode is non-empty and trimmed |
| ImportText.DecodeRowReadsBack | PrintVault/Views/ImportCSVView.swift:153-165 | for a row of quoted cells under distinct header names, each field is the trimmed cell of its column: brand and type decoded with the fallback, the code uppercased, barcode and quantity nil when blank; a missing range or name reads as "", a missing barcode or quantity as nil |
| ImportText.DecodeRows | PrintVault/Views/ImportCSVView.swift:152-165 | one decoded row per data line, in order |
| ImportText.PositiveQuantity | PrintVault/Views/ImportCSVView.swift:189-191 | a quantity is used exactly when the trimmed text parses as an Int above zero, and it is that Int |
| ImportText.UnknownBrandIsOther | PrintVault/Views/ImportCSVView.swift:164 | a brand text that names no brand is stored as the fallback brand |
| ImportText.QuotedHeaderReadsBack | PrintVault/Views/ImportCSVView.swift:131-139 | a header written with quoted names reads back as those names |
| ImportCSV.ErrorDescription | PrintVault/Views/ImportCSVView.swift:311-316 | the message is "Missing required column: " followed by the column |
| ImportCSV.Merge | PrintVault/Views/ImportCSVView.swift:177-184 | the import overwrites brand, range, type, code and name, keeps the identity, and changes the barcode only for a non-empty one |
| ImportCSV.MergeIdempotent | PrintVault/Views/ImportCSVView.swift:177-184 | merging the same row twice equals merging it once |
| ImportCSV.UpsertPaint | PrintVault/Views/ImportCSVView.swift:167-184 | as intended: the first paint with the row's key is merged in place, or a new paint with a fresh identity and nil barcode is inserted and merged; no other paint and no entry changes |
| ImportCSV.UpsertPaintFinds | PrintVault/Views/ImportCSVView.swift:168-174 | after the upsert, a lookup by the row's key finds the upserted paint |
| ImportCSV.UpsertPaintKeeps | PrintVault/Views/ImportCSVView.swift:167-184 | the upsert keeps the store well formed |
| ImportCSV.UpsertOwnedQuantity | PrintVault/Views/ImportCSVView.swift:214-237 | the first owned entry for the key gets exactly the quantity, or an owned entry with that quantity and nil notes is appended; paints are unchanged and the result is always true |
| ImportCSV.OwnedQuantityIsSet | PrintVault/Views/ImportCSVView.swift:229-235 | afterwards the lookup finds an owned entry for the key holding exactly the quantity |
| ImportCSV.UpsertOwnedQuantityKeeps | PrintVault/Views/ImportCSVView.swift:214-237 | setting the quantity for a stored paint keeps the store well formed |
| ImportCSV.ImportRow | PrintVault/Views/ImportCSVView.swift:152-194 | each row adds one to `paintsUpserted`, and adds one to `collectionUpdated` exactly when its quantity is positive |
| ImportCSV.ApplyRows | PrintVault/Views/ImportCSVView.swift:149-197 | over all rows, `paintsUpserted` grows by the number of rows and `collectionUpdated` by the number of rows with a positive quantity |
| ImportCSV.ApplyRowsKeeps | PrintVault/Views/ImportCSVView.swift:152-195 | importing rows keeps the store well formed |
| ImportCSV.EmptyFileChangesNothing | PrintVault/Views/ImportCSVView.swift:126-128 | a file of line breaks only changes nothing and reports zero and zero |
| ImportCSV.MissingColumnFails | PrintVault/Views/ImportCSVView.swift:142-147 | the import fails exactly when a required column is missing from the header, naming the first one, and then nothing changes |
| ImportCSV.ImportCatalog | PrintVault/Views/ImportCSVView.swift:119-198 | a text without lines changes nothing and reports zero and zero; a failure names a required column missing from the header; a success reports one paint per data line and one collection update per positive quantity |
| ImportCSV.ImportKeepsWellFormed | PrintVault/Views/ImportCSVView.swift:119-198 | a successful import keeps the store well formed |
| ImportCSV.ImportCatalogCSV | PrintVault/Views/ImportCSVView.swift:119-198 | the imperative import, loops included, ends in the state and with the report or error of the functional import |
| ImportCSV.UpsertPaintAsWritten | PrintVault/Views/ImportCSVView.swift:167-174 | read literally, the insert guard never holds, so a row for an unknown key leaves the store unchanged |
| ImportCSV.AsWrittenDropsNewPaint | PrintVault/Views/ImportCSVView.swift:172-186 | on an empty store the literal reading stores no paint, yet the row counts as upserted; the corrected upsert stores a paint the lookup finds |
| ImportCSV.ImportRowAsWritten | PrintVault/Views/ImportCSVView.swift:152-195 | a row read literally reports the same counts as the intended row step; it differs only for an unknown key without a positive quantity, whose paint is lost |
| ImportCSV.ApplyRowsAsWritten | PrintVault/Views/ImportCSVView.swift:149-197 | read literally, the counters still grow by the number of rows and the number of positive-quantity rows |
| ImportCSV.AsWrittenReimportChanges | PrintVault/Views/ImportCSVView.swift:167-194 | read literally, importing two rows for one key again changes the store: the barcode of the first row, lost the first time, is set the second time |
| ImportIdempotence.ReimportChangesNothing | PrintVault/Views/ImportCSVView.swift:152-197 | with the intended upsert, importing a file again right after a successful import leaves the store unchanged and returns the same counts |
| ImportIdempotence.Replay | PrintVault/Views/ImportCSVView.swift:152-195 | when every row's paint and owned entry already exist, each paint holds the merge of its rows and each owned entry the quantity of its last positive row |
| ImportIdempotence.FirstRun | PrintVault/Views/ImportCSVView.swift:152-195 | after an import, every row's paint exists, every positive row's owned entry exists, and each already holds what re-reading its rows would write |
| ImportIdempotence.SettledIsFixed | PrintVault/Views/ImportCSVView.swift:177-194 | a state that already holds what the rows write is left unchanged by those rows |
| ImportIdempotence.LastRowWins | PrintVault/Views/ImportCSVView.swift:177-181 | with the intended upsert, the paint for a key ends with the name and type of the last row for that key |
| ImportIdempotence.LastQuantityWins | PrintVault/Views/ImportCSVView.swift:189-231 | with the intended upsert, the owned entry for a key ends with the quantity of the last row for that key with a positive quantity |
| ImportIdempotence.MergeAllShape | PrintVault/Views/ImportCSVView.swift:177-184 | merging many rows keeps the identity, takes name and type from the last row, and leaves the barcode of the last row with a non-empty one |
| AddPaint.CanSaveIff | PrintVault/Views/AddPaintView.swift:97-101 | Save is enabled exactly when range, code and name each hold a character that is not white space |
| AddPaint.FormKey | PrintVault/Views/AddPaintView.swift:106-113 | the lookup key has the form's brand, the range trimmed, and the code trimmed then uppercased, so no lowercase letter remains |
| AddPaint.FormKeyIgnoresPaddingAndCase | PrintVault/Views/AddPaintView.swift:106-113 | white space around range or code, or a lowercased code, gives the same key |
| AddPaint.NilIfEmpty | PrintVault/Views/AddPaintView.swift:133 | nil exactly when the text is empty, otherwise the text |
| AddPaint.FormPaint | PrintVault/Views/AddPaintView.swift:127-134 | the new paint has the form's key, brand and type and the trimmed name; its barcode is nil exactly when the form's barcode is blank, and otherwise the trimmed barcode |
| AddPaint.MergeForm | PrintVault/Views/AddPaintView.swift:116-121 | an existing paint gets the form's type and trimmed name and keeps its identity and key |
| AddPaint.BarcodeFirstWriteWins | PrintVault/Views/AddPaintView.swift:123-125 | a stored non-empty barcode is never replaced; a nil or empty one takes a non-blank form barcode; a blank form barcode changes nothing |
| AddPaint.Save | PrintVault/Views/AddPaintView.swift:103-163 | the message is set exactly when the lookup fails, and the saved paint is a stored one |
| AddPaint.SaveStoresForm | PrintVault/Views/AddPaintView.swift:106-144 | the saved paint has the normalised key, type and name; exactly one entry is appended for it with the form's status and quantity, nil notes when blank, and the clock reading |
| AddPaint.SaveUpdatesExisting | PrintVault/Views/AddPaintView.swift:116-125 | with a paint found, it is updated in place and no other paint changes |
| AddPaint.SaveInsertsNew | PrintVault/Views/AddPaintView.swift:126-136 | with none found, or the lookup failing, a paint with the normalised fields is appended, with a nil barcode when blank |
| AddPaint.SaveKeeps | PrintVault/Views/AddPaintView.swift:103-147 | a save keeps the store well formed |
| AddPaint.SaveDuplicatesEntry | PrintVault/Views/AddPaintView.swift:138-144 | when an entry for the key and status exists, a save adds a second one, so at most one entry per key and status no longer holds |
| AddPaint.LookupFailureDuplicatesPaint | PrintVault/Views/AddPaintView.swift:126-163 | a failing lookup inserts a second paint with a key that is already stored |
| AddPaint.SavedQuantityInStepperRange | PrintVault/Views/AddPaintView.swift:77-141 | a quantity set with the stepper is stored within 1 to 99 |
| AddPaint.SaveForm | PrintVault/Views/AddPaintView.swift:103-164 | the imperative save ends in the state and with the message of the functional save |
| Reset.ResetState | PrintVault/Models/ResetService.swift:10-24 | every entry goes unless the first fetch fails; paints go only for a full reset whose second fetch succeeds; an error comes back exactly when a fetch fails |
| Reset.ResetKeeps | PrintVault/Models/ResetService.swift:10-24 | a reset keeps the store well formed |
| Reset.ResetIdempotent | PrintVault/Models/ResetService.swift:10-24 | a second reset finds nothing more to delete |
| Reset.ResetStore | PrintVault/Models/ResetService.swift:10-24 | the loops end in the reset state; the log lists every entry of the snapshot, then every paint, and keeps the entry deletions when the second fetch fails |
| Reset.DeleteEveryItem | PrintVault/Models/ResetService.swift:12-15 | the first loop deletes the snapshot's entries in order and leaves the paints |
| Reset.DeleteEveryPaint | PrintVault/Models/ResetService.swift:20-23 | the second loop deletes the snapshot's paints in order, with nothing to cascade |
| Catalog.Filtered | PrintVault/Views/CatalogView.swift:10-22 | the results are no more than the catalog |
| Catalog.BlankQueryShowsAll | PrintVault/Views/CatalogView.swift:11-12 | a query of white space only lists every paint |
| Catalog.FilteredMembers | PrintVault/Views/CatalogView.swift:14-21 | otherwise a paint is listed exactly when its lowercased name, code, brand, range, type or barcode contains the lowercased query |
| Catalog.NilBarcodeSearchedAsEmpty | PrintVault/Views/CatalogView.swift:20 | a nil barcode is searched as "" |
| Catalog.FilteredOrdered | PrintVault/Views/CatalogView.swift:5-14 | the results keep the catalog's order |
| Catalog.FilteredSubsequence | PrintVault/Views/CatalogView.swift:10-22 | the results are the catalog with some paints left out |
| Text.SearchQuery | PrintVault/Views/HomeView.swift:20-23 | the query has no white space at either end and no uppercase letter; it is empty exactly when the text is white space only |
| Text.SearchQueryIgnoresCase | PrintVault/Views/HomeView.swift:21-23 | the lowercased or uppercased text gives the same query |
| Text.SearchQueryIgnoresPadding | PrintVault/Views/HomeView.swift:21-23 | white space added around the text gives the same query |
| Text.SearchQueryIdempotent | PrintVault/Views/HomeView.swift:21-23 | the query of a query is itself |
| Text.Trim | PrintVault/Views/AddPaintView.swift:168 | the result has no white space at either end and is no longer than the text |
| Text.TrimEmptyIff | PrintVault/Views/AddPaintView.swift:168 | the trimmed text is empty exactly when the text is white space only |
| Text.TrimPadded | PrintVault/Views/AddPaintView.swift:168 | white space added at either end is trimmed away again |
| Text.TrimIdempotent | PrintVault/Views/AddPaintView.swift:168 | trimming twice is trimming once |
| Text.Lower | PrintVault/Views/ImportCSVView.swift:244 | same length, and no uppercase letter remains |
| Text.Upper | PrintVault/Views/ImportCSVView.swift:158 | same length, and no lowercase letter remains |
| Text.LowerTrimCommute | PrintVault/Views/HomeView.swift:21-23 | lowercasing and trimming commute |
| Text.ParseInt | PrintVault/Views/ImportCSVView.swift:190 | a parsed value fits a 64-bit `Int` and the text starts with a digit or a sign |
| Text.ParseIntMeaning | PrintVault/Views/ImportCSVView.swift:190 | a text parses exactly when it is an optional sign followed by one or more ASCII digits whose signed value fits 64 bits, and the result is that value, leading zeros included |
| Text.ParseRejectsNonDigit | PrintVault/Views/ImportCSVView.swift:190 | any character other than a digit, except a sign in front, makes the text unreadable |
| Text.ParseIntExamples | PrintVault/Views/ImportCSVView.swift:190 | "007" reads as 7 and "-12" as -12; "", "+" and "1x" read as nil |
| Text.ParseDecimal | PrintVault/Views/ImportCSVView.swift:190 | a decimal rendering within range, with or without a sign, parses back to its value |
| Text.ParseRejectsBlank | PrintVault/Views/ImportCSVView.swift:190 | a text with white space at either end does not parse |
| Home.FilteredPaintsMembers | PrintVault/Views/HomeView.swift:20-31 | a paint is listed exactly when the query is not blank and its lowercased name or code contains it |
| Home.FilteredPaints | PrintVault/Views/HomeView.swift:20-31 | a blank query lists nothing; every listed paint is from the catalog and its lowercased name or code contains the query |
| Home.OnlyNameAndCodeSearched | PrintVault/Views/HomeView.swift:19-30 | brand, range, type and barcode do not affect a match |
| Home.HomeWithinCatalog | PrintVault/Views/HomeView.swift:27-30 | every home result is also a catalog result for the same text |
| Home.FilteredPaintsOrdered | PrintVault/Views/HomeView.swift:8-27 | the results keep the name order of the catalog query |
| Home.FilteredPaintsSubsequence | PrintVault/Views/HomeView.swift:20-31 | the results are the catalog with some paints left out |
| Home.SwipeStatus | PrintVault/Views/HomeView.swift:94-108 | the leading swipe adds as owned and the trailing swipe as wishlist |
| Home.QuickAdd | PrintVault/Views/HomeView.swift:138-144 | a swipe runs the reconciler with the swipe's status |
| Collection.OwnedItemsMembers | PrintVault/Views/CollectionView.swift:12-14 | an entry is listed exactly when its raw status is anything but "wishlist", so unknown statuses count as owned |
| Collection.OwnedItems | PrintVault/Views/CollectionView.swift:12-14 | every listed entry is one of the entries and its raw status is not "wishlist" |
| Collection.OwnedItemsNewestFirst | PrintVault/Views/CollectionView.swift:9-13 | the owned list keeps the newest-first order |
| Collection.SparedIffNotPicked | PrintVault/Views/CollectionView.swift:62-66 | with unique identities, a stored entry survives exactly when it is not one of the chosen entries |
| Collection.DeleteItems | PrintVault/Views/CollectionView.swift:62-67 | all offsets are resolved first; exactly the chosen owned entries are removed, in offset order, and every other entry stays |
| Collection.DeletedAreOwned | PrintVault/Views/CollectionView.swift:63 | every deleted entry is an owned one from the list |
| Wishlist.WishlistMembers | PrintVault/Views/WishlistView.swift:8-15 | an entry is listed exactly when its raw status is "wishlist" |
| Wishlist.WishlistItems | PrintVault/Views/WishlistView.swift:8-15 | every listed entry is one of the entries and has raw status "wishlist" |
| Wishlist.WishlistOrdered | PrintVault/Views/WishlistView.swift:13 | the list keeps the paint-name order it is given |
| Wishlist.WishlistAndCollectionPartition | PrintVault/Views/WishlistView.swift:8-15 | every entry is on exactly one of the wishlist and collection screens |
| Wishlist.Badge | PrintVault/Views/WishlistView.swift:90-94 | the badge shows exactly when the quantity is above one, and starts with "x" |
| Wishlist.BadgeReadsBack | PrintVault/Views/WishlistView.swift:91 | the badge's digits read back as the quantity |
| Wishlist.BoughtItMovesToOwned | PrintVault/Views/WishlistView.swift:102-112 | the wishlist entry is gone; an existing owned entry for the paint's key gains exactly one (outcome `incremented` to that quantity), otherwise a new owned entry with quantity 1 appears (outcome `addedNew`); the wishlist quantity plays no part |
| Wishlist.BoughtIt | PrintVault/Views/WishlistView.swift:102-123 | the paints never change; the result is an error exactly when the fetch fails, and then the only change is that the entry is gone |
| Wishlist.BoughtItKeeps | PrintVault/Views/WishlistView.swift:102-112 | "bought it" keeps the store well formed and at most one entry per key and status |
| Wishlist.BoughtItFailureLosesEntry | PrintVault/Views/WishlistView.swift:104-120 | when the fetch fails, the wishlist entry is gone and nothing is added |
| Wishlist.FindItemAfterDelete | PrintVault/Views/WishlistView.swift:104-111 | deleting entries of another status keeps every matching entry in order, so the first match is still the same entry |
| Wishlist.DeleteKeepsAtMostOne | PrintVault/Views/WishlistView.swift:104 | deleting an entry keeps at most one entry per key and status |
| Wishlist.BoughtItIn | PrintVault/Views/WishlistView.swift:102-123 | the entry is deleted first, then the reconciler runs for its paint as owned |
| Wishlist.Delete | PrintVault/Views/WishlistView.swift:125-128 | only the given entry goes |
| Wishlist.DeleteAtOffsets | PrintVault/Views/WishlistView.swift:130-135 | exactly the entries at the offsets are removed, in offset order, and every other entry stays |
| PaintDetail.Flags | PrintVault/Views/PaintDetailView.swift:115-130 | "in collection" holds exactly when some entry whose paint has this key decodes as owned; "in wishlist" when one decodes as wishlist |
| PaintDetail.ItemsForPaint | PrintVault/Views/PaintDetailView.swift:120-124 | no more entries than given, each one of the entries and referring to a paint with this key |
| PaintDetail.AnyWithStatus | PrintVault/Views/PaintDetailView.swift:127-128 | true exactly when some entry decodes to the status |
| PaintDetail.AnyForPaint | PrintVault/Views/PaintDetailView.swift:120-128 | an entry of the filtered list decodes to the status exactly when some entry for this key does |
| PaintDetail.NotInInventoryIff | PrintVault/Views/PaintDetailView.swift:45-47 | "Not in collection or wishlist" shows exactly when no entry refers to a paint with this key |
| PaintDetail.OtherKeysIgnored | PrintVault/Views/PaintDetailView.swift:120-124 | an entry whose paint has another key never changes the flags |
| PaintDetail.FlagsByKey | PrintVault/Views/PaintDetailView.swift:116-124 | paints with the same key show the same flags |
| PaintDetail.AddSetsFlag | PrintVault/Views/PaintDetailView.swift:77-83 | after adding a stored paint with a status, the flag for that status is set |
| PaintDetail.ActionStatus | PrintVault/Views/PaintDetailView.swift:53-63 | the collection button adds as owned and the wishlist button as wishlist |
| PaintDetail.AddToInventory | PrintVault/Views/PaintDetailView.swift:77-83 | a button runs the reconciler with its status |

## Left out

- File picking, reading the file and its text decoding, and every SwiftUI
  layout, sheet and alert are left out: they are I/O and presentation.
- Toasts are left out. Their timing, `Task.sleep`, cancellation and
  `MainActor` are concurrency, and their texts are presentation.
- `AdminView`, `ContentView`, `PrintVaultApp`, `ToastView`, `Item` and the
  disabled barcode-scan button are not part of this model.
- Paints and entries are values in the store, addressed by an identity, not
  shared objects. So aliasing of live objects, SwiftData's saving, undo and
  `persistentModelID` are not modelled.
- The sort orders of the `@Query` lists are not computed. The filters are
  shown to keep whatever order they are given.
- Brand and type labels are stand-ins ("Vallejo", "AK Interactive", "Base",
  "Acrylic Color", plus the "Other" fallback). Paint.swift's enums are not in
  the source shown. Only exact raw-value matching matters.
- Unicode case mapping beyond ASCII letters is left out. So is grapheme
  clustering: a Swift `Character` is modelled as one scalar, and a CRLF pair
  is handled explicitly.
- Import fetch failures (`try` on the lookups) are left out. The importer's
  lookups always succeed in the model. The reconciler, the form, "bought it"
  and reset take a failure flag.
- `InventoryActions.IncrementsFirstMatch`: `quantity += 1` is unbounded and
  does not trap at `Int.max`.
- `InventoryItemModel.NewItem`: `createdAt` is the caller's clock reading
  (`now`), not `Date.now`.
- `Wishlist.BoughtIt`: the paint is resolved before the entry is deleted,
  standing in for reading `item.paint` from the deleted object.
- `Wishlist.WishlistItems`: the list is the filter over the entries as
  given; the sort by paint name is taken as the order of its input.
- `Reset.ResetStore` requires a well-formed store (unique identities), which
  the database guarantees.

## Findings

| source | as written | input that shows it | evidently intended | confidence | as-written member | corrected member |
|---|---|---|---|---|---|---|
| PrintVault/Views/ImportCSVView.swift:172 | `if paint.persistentModelID == nil { modelContext.insert(paint) }`. The identifier is not optional, so the guard never holds and a new paint is not inserted here. A row without a positive quantity then loses its new paint. It also makes a second import of the same file change the store (`ImportCSV.AsWrittenReimportChanges`). | an empty store and one row for an unknown key with no positive `collectionquantity`: the paint is counted in `paintsUpserted` but never stored. With a positive quantity the paint still reaches the store, through the entry inserted at lines 233-234 | insert the paint when the lookup at line 168 found none | not executed | ImportCSV.AsWrittenDropsNewPaint | ImportCSV.UpsertPaintFinds |

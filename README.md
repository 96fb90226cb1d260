# Bete Crochê catalogue: a verified model of the page logic

This project models the logic of three pages of the Bete Crochê shop front in Dafny.

- **Collection page** (`Colecao.tsx`). The page takes the live snapshot of artworks and filters it by a case-insensitive title search and a category, where "Todos" means every category. It sorts the result by price ascending, by price descending, or by date with the newest first. It then shows one window of twelve records, and it keeps a current page number that the search button and the pagination buttons change.
- **Admin panel** (`Admin.tsx`). The panel keeps the category list, the artwork form, the record being edited and the encoded photo. Its handlers are: add and remove a category, save (create or update), change a status, delete a record, clear the form, and start editing. The photo is scaled to a width of at most 800.
- **Item detail page** (`Item.tsx`). The page maps a status to a label and a style colour. It hides the price and the contact button for sold pieces, fills in defaults for missing dimensions and description, and chooses between a spinner, "not found" and the detail view while the record loads.

Files:

- `wrappers.dfy` (`Wrappers`): `Option`.
- `catalog.dfy` (`Catalog`): the artwork record, the three status values, and `NoDup`.
- `text.dfy` (`Text`): the JavaScript string and array primitives the pages use. These are `toLowerCase`, `includes`, `trim`, `replace` with a one-character pattern, and `slice`.
- `colecao.dfy` (`Collection`): the query and pagination functions, with the class `CollectionPage` for the page's state.
- `admin.dfy` (`Admin`): the category-list and record-update functions, the photo size, and the class `AdminPanel` for the panel's state.
- `item.dfy` (`ItemDetail`): the presentation rules, with the class `ItemPage` for the loading state.

The remote `artworks` collection is a map from document id to record. The `settings/categories` document is a sequence of names. Reads are modelled as inputs: a snapshot, a parameter, or a `Lookup` result. Writes are modelled as state changes that take effect when a `writeOk` parameter says the remote call succeeded. The user's answer to a confirmation dialog is a `confirmed` parameter. `parseFloat`, `Number#toString`, `toLocaleString` and the clock are parameters too.

The sort is modelled as a stable insertion sort on a numeric key. The page's comparator is `key(a) - key(b)`, where the key is the price, minus the price, or minus the date. ECMAScript requires `Array.prototype.sort` to be stable (section 23.1.3.30 of ECMA-262, 2023 edition), so any stable sort by this key gives the same order as the page.

## Model

| member | source | states |
|---|---|---|
| Text.Lower | src/pages/Colecao.tsx:54 | lower-casing keeps the length, maps each character through ASCII lower-casing, and leaves no upper-case letter |
| Text.LowerIdempotent | src/pages/Colecao.tsx:54 | lower-casing an already lower-cased term changes nothing |
| Text.Includes | src/pages/Colecao.tsx:54 | `includes` answers yes only when the needle is no longer than the title (its meaning is stated by `Text.IncludesSpec`) |
| Text.IncludesSpec | src/pages/Colecao.tsx:54 | the left-to-right `includes` scan answers yes exactly when the needle occurs at some position of the title |
| Text.IncludesEmpty | src/pages/Colecao.tsx:54 | an empty search term is included in every title |
| Text.TrimStart | src/pages/Admin.tsx:160 | the result is a suffix of the input, everything removed is white space, and the result does not start with white space |
| Text.TrimEnd | src/pages/Admin.tsx:160 | the result is a prefix of the input, everything removed is white space, and the result does not end with white space |
| Text.Trim | src/pages/Admin.tsx:160 | the trimmed name is a contiguous piece of the input; every character before and after the piece is white space, and neither end of the piece is, so the piece is the largest one `trim` could keep |
| Text.TrimBlank | src/pages/Admin.tsx:160-161 | a name trims to "" exactly when every character is white space |
| Text.TrimIdempotent | src/pages/Admin.tsx:160 | trimming a trimmed name changes nothing |
| Text.IndexOf | src/pages/Admin.tsx:112 | gives -1 exactly when the character is absent, otherwise the first index holding it |
| Text.ReplaceFirst | src/pages/Admin.tsx:112 | replaces exactly the first occurrence and keeps every other character and the length |
| Text.ReplaceFirstAbsent | src/pages/Admin.tsx:112 | with no occurrence, the text is unchanged |
| Text.Clip | src/pages/Colecao.tsx:65 | a `slice` position is clipped into `0..len`, and a non-negative one becomes `min(k, len)` |
| Text.Slice | src/pages/Colecao.tsx:65 | for `0 <= start <= end`, `slice` is the sub-sequence between the clipped positions |
| Collection.MatchesSpec | src/pages/Colecao.tsx:53-57 | the filter callback keeps a record exactly when the lower-cased term occurs somewhere in the lower-cased title and the category is "Todos" or equals the record's category |
| Collection.FilterWorks | src/pages/Colecao.tsx:52-57 | every kept record matches the title search and the category, and the result is no longer than the snapshot (`Collection.FilterCounts` gives the exact counts) |
| Collection.FilterCounts | src/pages/Colecao.tsx:52-57 | a record is kept exactly as many times as the snapshot holds it when it matches, and never when it does not |
| Collection.FilterAppend | src/pages/Colecao.tsx:52-57 | filtering keeps the snapshot's order, because it distributes over concatenation |
| Collection.FilterIdempotent | src/pages/Colecao.tsx:52-57 | filtering the filtered list again changes nothing |
| Collection.FilterKeepsAll | src/pages/Colecao.tsx:52-57 | with an empty search and "Todos", every record is kept, in order |
| Collection.ComparatorIsRankDifference | src/pages/Colecao.tsx:58-62 | the page's comparator, as written for each mode, is the difference of the two records' ranks, so it is negative or zero exactly when the ranks are ordered or equal |
| Collection.Insert | src/pages/Colecao.tsx:58-62 | inserting into a sorted list gives a sorted list with the inserted record added |
| Collection.SortWorks | src/pages/Colecao.tsx:58-62 | the sort output is ordered by the comparator's key and is a permutation of its input |
| Collection.InsertStable | src/pages/Colecao.tsx:58-62 | an insertion puts the new record in front of the records whose key equals its own |
| Collection.SortStable | src/pages/Colecao.tsx:58-62 | records with equal keys leave the sort in the order they entered it |
| Collection.Query | src/pages/Colecao.tsx:51-63 | `filteredWorks` is in the mode's comparator order and holds exactly the records of the filtered snapshot, rearranged |
| Collection.QueryOrdered | src/pages/Colecao.tsx:58-62 | `filteredWorks` has non-decreasing prices for "price-asc" and non-increasing prices for "price-desc"; for any other mode, "recent" included, its dates never increase |
| Collection.QueryContents | src/pages/Colecao.tsx:52-62 | `filteredWorks` is a permutation of the filtered snapshot: each matching record appears as often as in the snapshot, and nothing else appears |
| Collection.QueryStable | src/pages/Colecao.tsx:52-62 | records of one search that tie on the key keep their snapshot order |
| Collection.TwoRecordOrders | src/pages/Colecao.tsx:58-62 | a cheaper and newer B before an older A: "price-asc" and "recent" give [B, A], and "price-desc" gives [A, B] |
| Collection.SortPair | src/pages/Colecao.tsx:58-62 | a two-record sort swaps the records exactly when the second has the smaller key |
| Collection.TotalPages | src/pages/Colecao.tsx:66 | the number of pages is the ceiling of count/12, and it is 0 exactly for an empty result |
| Collection.ShowPaginationIff | src/pages/Colecao.tsx:167 | the controls appear exactly when there are more than twelve results |
| Collection.PageItems | src/pages/Colecao.tsx:65 | a page holds at most twelve records and is the window `[(page-1)*12, page*12)` clipped to the list |
| Collection.PageNonEmpty | src/pages/Colecao.tsx:65-66 | a page numbered from 1 holds records exactly when it is at most `totalPages` |
| Collection.AllPagesPrefix | src/pages/Colecao.tsx:65 | pages 1 to k, concatenated, are the first `12k` records (or all of them) |
| Collection.PagesReassemble | src/pages/Colecao.tsx:65-66 | pages 1 to `totalPages`, concatenated, give back the whole list |
| Collection.CollectionPage.CurrentItems | src/pages/Colecao.tsx:65 | `currentItems` holds at most twelve results, is the window of the current page, and is non-empty exactly when the page is at most `totalPages` |
| Collection.CollectionPage.PageCount | src/pages/Colecao.tsx:66 | `totalPages` is the least number of twelve-record pages that holds every result |
| Collection.CollectionPage.ShowsControls | src/pages/Colecao.tsx:167 | the controls are drawn exactly when there are more than twelve results |
| Collection.CollectionPage.constructor | src/pages/Colecao.tsx:20-26 | the initial state: no records, loading, empty search, "Todos", "recent", page 1 |
| Collection.CollectionPage.ReceiveWorks | src/pages/Colecao.tsx:32-35 | a snapshot replaces the records, loading ends, and the page is not touched |
| Collection.CollectionPage.ReceiveCategories | src/pages/Colecao.tsx:37-42 | the category list is replaced when the document exists and kept otherwise |
| Collection.CollectionPage.SetSearchTerm | src/pages/Colecao.tsx:96 | typing changes the term only, not the page |
| Collection.CollectionPage.SetCategory | src/pages/Colecao.tsx:110 | the category select changes the category only, not the page |
| Collection.CollectionPage.SelectCategory | src/pages/Colecao.tsx:110 | corrected select: back to page 1, the page is in range, and it shows records whenever any match |
| Collection.CollectionPage.SetSortBy | src/pages/Colecao.tsx:114 | the sort select changes the mode only, not the page |
| Collection.CollectionPage.Search | src/pages/Colecao.tsx:68-70 | the search button and Enter set the page to 1 |
| Collection.CollectionPage.Previous | src/pages/Colecao.tsx:167-169 | goes back one page unless on page 1 or the controls are absent, and a page in range stays in range |
| Collection.CollectionPage.Next | src/pages/Colecao.tsx:177 | goes forward one page unless on the last page or the controls are absent, and a page in range stays in range |
| Collection.CollectionPage.GoToPage | src/pages/Colecao.tsx:172-176 | the button with index i sets page i+1 in `1..totalPages` when the controls are drawn, and changes nothing otherwise |
| Collection.CategoryChangeStrandsPage | src/pages/Colecao.tsx:110 | after a category change from page 2 to a category with 1 to 12 matches, page 2 is empty and no controls are drawn |
| Admin.AppendCategory | src/pages/Admin.tsx:160-163 | the trimmed name is appended unless it is blank or already listed; the old list is kept as a prefix, and a list without duplicates stays without duplicates |
| Admin.BlankNameRejected | src/pages/Admin.tsx:160-161 | a name made only of white space leaves the list unchanged |
| Admin.ExistingNameRejected | src/pages/Admin.tsx:161 | a name already listed after trimming leaves the list unchanged |
| Admin.DropCategory | src/pages/Admin.tsx:176 | the name no longer occurs, and the list does not grow |
| Admin.DropCounts | src/pages/Admin.tsx:176 | every other name keeps its number of occurrences, and the length drops by the number of occurrences of the removed name |
| Admin.DropAppend | src/pages/Admin.tsx:176 | removal keeps the order of the remaining names, because it distributes over concatenation |
| Admin.DropAbsent | src/pages/Admin.tsx:176 | removing an absent name leaves the list unchanged |
| Admin.DropFromMiddle | src/pages/Admin.tsx:176 | in a list without duplicates, removing `name` from `a + [name] + b` gives `a + b` |
| Admin.AddThenDrop | src/pages/Admin.tsx:160-176 | removing a name that was just added gives back the earlier list |
| Admin.DropKeepsNoDup | src/pages/Admin.tsx:176 | removal keeps a list free of duplicates |
| Admin.Created | src/pages/Admin.tsx:108-124 | a new record carries the form's fields, the date, the encoded image and the status "disponivel" |
| Admin.Updated | src/pages/Admin.tsx:108-119 | an update overwrites title, description, dimensions, price, category and date; it keeps the id and status, and keeps the image unless a new one was encoded |
| Admin.UpdateIdempotent | src/pages/Admin.tsx:116-119 | saving the same draft twice is the same as saving it once |
| Admin.LaterUpdateWins | src/pages/Admin.tsx:116-119 | a later save wins field by field, and an earlier image survives only when the later save has none |
| Admin.UpdatesKeepStatus | src/pages/Admin.tsx:108-119 | no sequence of saves changes a record's status or id |
| Admin.PriceSource | src/pages/Admin.tsx:112 | only the first comma of the price text becomes a point; all other characters are kept |
| Admin.ReplaceFirstAbsentOrFirst | src/pages/Admin.tsx:112 | with no comma the text is unchanged, and otherwise no comma comes before the replaced position |
| Admin.FirstCommaOnly | src/pages/Admin.tsx:112 | for any price text whose first comma follows a comma-free prefix, `parseFloat` receives the prefix, a point, and the rest unchanged |
| Admin.SecondCommaKept | src/pages/Admin.tsx:112 | "1,234,50" reaches `parseFloat` as "1.234,50" |
| Admin.TargetSize | src/pages/Admin.tsx:87-93 | the width is at most 800, and a wider photo gets width 800; the aspect ratio is kept exactly over reals; a photo up to 800 wide keeps its size; the height never grows |
| Admin.CanvasExtent | src/pages/Admin.tsx:94-95 | a canvas dimension is the size's integer part below 2^31; a value whose integer part modulo 2^32 is 2^31 or more gives the canvas default |
| Admin.CanvasSize | src/pages/Admin.tsx:87-95 | returns the target size, whose height-to-width ratio is the photo's; the canvas is 800 wide for a photo wider than 800 and as wide as the photo otherwise, equal to the target width; for a height below 2^31 the canvas height is the integer part of the target height, never more than the photo's height and equal to it for a photo up to 800 wide |
| Admin.AdminPanel.FormDraft | src/pages/Admin.tsx:108-116 | the `data` object holds the form's text fields, the price parsed after the first comma became a point, the save time, and an image exactly when one is encoded |
| Admin.AdminPanel.constructor | src/pages/Admin.tsx:17-30 | the initial state: a cleared form, an empty category name box, and the given store and list |
| Admin.AdminPanel.ClearForm | src/pages/Admin.tsx:65-74 | every form field is empty, there is no image and no edited id, and the store and list do not change |
| Admin.AdminPanel.EditClick | src/pages/Admin.tsx:47-55 | the form is filled from the record, editing that id starts, the file name says the image is kept, and the encoded image is left alone |
| Admin.AdminPanel.ChooseFile | src/pages/Admin.tsx:77-79 | picking a file shows its name |
| Admin.AdminPanel.ReceiveEncodedImage | src/pages/Admin.tsx:98 | the encoded photo becomes the form's image |
| Admin.AdminPanel.Save | src/pages/Admin.tsx:104-134 | editing updates the record (a missing document fails); creating without an image fails before any write, and otherwise adds the new record under a fresh id; success clears the form, and failure changes nothing |
| Admin.AdminPanel.Submit | src/pages/Admin.tsx:205-216 | the browser refuses the form, changing nothing, exactly when the `required` title, price or category is empty; otherwise the outcome and new state are those of `handleSave` |
| Admin.AdminPanel.UpdateStatus | src/pages/Admin.tsx:136-144 | only the chosen record's status changes, to any value, when the write succeeds; a missing document fails |
| Admin.AdminPanel.DeleteItem | src/pages/Admin.tsx:146-156 | the record goes only after confirmation and a successful write, and nothing else changes |
| Admin.AdminPanel.AddCategory | src/pages/Admin.tsx:158-171 | a blank or listed name is dropped; otherwise, after a successful write, the list is the appended list and the box is emptied; no duplicate is ever introduced |
| Admin.AdminPanel.RemoveCategory | src/pages/Admin.tsx:173-184 | after confirmation and a successful write, the list is the filtered list and the name is gone; records are not touched, and no duplicate appears |
| ItemDetail.StatusLabel | src/pages/Item.tsx:77-84 | the three known statuses get "Pronta Entrega", "Sob Encomenda" and "Vendido"; the label equals the stored status exactly when the status is none of those three |
| ItemDetail.StatusStyle | src/pages/Item.tsx:68-75 | the known statuses get green, blue and red, and the style is gray exactly for every other status |
| ItemDetail.KnownStatusesDistinct | src/pages/Item.tsx:68-84 | two different known statuses never share a label or a style |
| ItemDetail.PriceText | src/pages/Item.tsx:122-125 | the price text is "Acervo Privado" exactly when the status is "vendido", and otherwise "R$ " followed by the formatted price |
| ItemDetail.ActionFor | src/pages/Item.tsx:161-178 | the contact button is shown exactly when the status is not "vendido" |
| ItemDetail.Footnote | src/pages/Item.tsx:180-182 | the footnote is the WhatsApp note exactly when the piece is not sold, and the browse note exactly when it is |
| ItemDetail.SoldViewAgrees | src/pages/Item.tsx:122-182 | the price, the action and the footnote switch together, on the one condition "vendido" |
| ItemDetail.DimensionsText | src/pages/Item.tsx:136 | never blank: given dimensions are shown as they are, otherwise "Tamanho padrão" |
| ItemDetail.DescriptionText | src/pages/Item.tsx:156 | never blank: a given description is shown as it is, otherwise the fixed default text |
| ItemDetail.ItemPage.constructor | src/pages/Item.tsx:19-20 | `work` starts as the record passed with the navigation; loading is set exactly when none was passed, so the view is the detail or the spinner, and a fetch is due exactly when nothing was passed and the id is non-empty |
| ItemDetail.ItemPage.NeedsFetch | src/pages/Item.tsx:23 | a fetch is needed only when there is no record and the id is truthy, so a page already holding a record never fetches |
| ItemDetail.ItemPage.CurrentView | src/pages/Item.tsx:42-62 | the spinner exactly while loading, "not found" exactly when done without a record, and otherwise the detail of the record held |
| ItemDetail.ItemPage.LoadEffect | src/pages/Item.tsx:22-40 | fetches only without a record and with an id; loading then ends either way; a found document is shown under the route's id, and a missing document or a read error leaves "not found" |

## Left out

- Firebase I/O: the `onSnapshot` subscriptions and their unsubscription, `addDoc`, `updateDoc`, `setDoc`, `getDoc` and `deleteDoc`. Snapshots and lookups are inputs, and the outcome of a write is the `writeOk` parameter.
- Admin: the round trip from a write back through the `artworks` and `settings/categories` subscriptions is not modelled. The page itself never calls `setItems` or `setCategories` in its handlers; in the model a successful write changes the panel's `store` or `categories` directly, as if the subscription had already delivered it. The `items` array of the panel is the `store` map; the subscription's date ordering is not modelled.
- `orderBy("date", "desc")` and `limit(100)`: the snapshot's order and size come as the input sequence.
- Admin.AdminPanel.DeleteItem: deleting a missing document counts as a success that changes nothing, as Firestore's `deleteDoc` does. Deleting an existing document fails only when `writeOk` is false.
- Admin.AdminPanel.Save: it is stated for every form, including one the browser would not submit; `Admin.AdminPanel.Submit` adds the browser's `required` check on title, price and category. The submit button's `disabled={loading}` is not modelled, because the loading flag is left out.
- Admin.AdminPanel.Save: the record's date is an integer `now` parameter, not the ISO string of `new Date()`. `parseFloat` is a parameter, so NaN prices and floating-point rounding are outside the model.
- Admin.AdminPanel.EditClick: `Number#toString` is a parameter. The `|| ""` defaults for description and dimensions are the identity, because the record's fields are always strings here.
- Collection.Rank: dates are integer timestamps rather than strings parsed by `new Date`. A comparator that yields NaN (an unparsable date or a missing price) is not modelled.
- Text.Lower: only ASCII letters are lower-cased; the full Unicode case mapping of `toLowerCase` is not modelled.
- ItemDetail.PriceText: `toLocaleString('pt-BR')` is given as the already formatted number.
- ItemDetail.DimensionsText, ItemDetail.DescriptionText: a missing field is modelled as the empty string, the only falsy string.
- The loading flag and the status message of the admin panel, every `setTimeout`, `window.scrollTo`, the WhatsApp link and `encodeURIComponent`, and all markup and styling.
- Admin.TargetSize: the size is computed over reals. The double-precision rounding of `maxWidth / width` and of the product is not modelled, so the ratio is kept exactly only in the model.
- Admin.CanvasExtent: NaN and infinite sizes are not modelled; sizes are non-negative reals.
- Decoding and encoding the photo (`FileReader`, `Image`, `drawImage`, `toDataURL`): only the size arithmetic and the canvas truncation are modelled.
- The form's `onChange` setters of the admin panel: they are plain field assignments of the class and have no members of their own.
- Buttons that the page disables or does not draw are modelled as clicks that change nothing.
- `totalPages` is 0, not 1, for an empty result, because `Math.ceil(0 / 12)` is 0. The model follows the code.
- The item page's route always carries an `:id`, so the id is a string, and it is truthy when non-empty. Records passed with the navigation are taken as they are.

## Findings

| source | as written | input that shows it | evidently intended | confidence | as-written member | corrected member |
|---|---|---|---|---|---|---|
| src/pages/Colecao.tsx:110 | changing the category keeps `currentPage` | 13 records, one of them in category "Y"; go to page 2, then choose "Y": page 2 of the single result is empty, and with one page no pagination controls are drawn; the grid stays empty until the visitor searches again with the "Buscar" button or Enter, which return to page 1 | a category change returns to page 1, as the search does | medium, not executed | Collection.CategoryChangeStrandsPage (with Collection.CollectionPage.SetCategory) | Collection.CollectionPage.SelectCategory |

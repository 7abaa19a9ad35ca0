# FrameWall designer — a Dafny model of the storefront's data rules

FrameWall is a storefront where a customer lays out picture frames on a grid,
drops photos into them, saves the arrangement as a named design, and orders
it; a back-office page tracks orders through `received`, `printing`,
`shipped` and `delivered`. Nearly all of the application is UI and calls to a
hosted backend. This project lifts out the pure data rules embedded in its
pages and proves properties of them:

- **Grid** (`grid.dfy`): building a `rows × cols` grid of cells with ids
  `"{row}-{col}"`, framing a cell, attaching an image, clearing one cell or
  all of them, and the running total price.
- **Designer** (`designer.dfy`): the save step, which refuses a name that
  trims to nothing.
- **Catalog** (`catalog.dfy`): the fixed table of eleven frame sizes.
- **Checkout** (`checkout.dfy`): the per-key frame summary read back from a
  design's stored cells, the required-field check, and the new order record.
- **Admin** (`admin.dfy`, `orders.dfy`): the status filter and counters, the
  status/notes update, the status badge fallback, and frame-detail parsing.
- **Gallery** (`gallery.dfy`): loading designs (cells parsed, other fields
  kept), deleting by id, and the frames badge.
- Support modules: `wrappers.dfy` (Option/Result), `seqs.dfy` (filter and
  count over sequences), `decimal.dfy` (how `${n}` prints a natural number below 10^21, where JavaScript still uses plain digits),
  `js.dfy` (parsed JSON values, JavaScript truthiness, property access,
  the members `Object.prototype` lends every object, `Object.values`,
  `String.prototype.trim`).

Prices are integer cents (15.99 is `1599`). Calls to the backend (session,
document store, object store, email) become parameters: a boolean for
"the call succeeded", or the value it returned. `JSON.parse` is a parameter
`parse: string -> Option<Json>` whose `None` means "it threw".

## Model

| member | source | states |
|---|---|---|
| `Grid.PlaceRow` | src/pages/DesignerPage.tsx:29-33 | One pass of the inner loop appends row r's cells in column order, all empty, each at its row-major position. |
| `Grid.InitializeCells` | src/pages/DesignerPage.tsx:25-37 | The grid has exactly `rows * cols` cells; cell (r, c) sits at row-major position `r * cols + c` with id `"{r}-{c}"`, row r and col c; no cell has a frame or an image. |
| `Grid.CellIdInjective` | src/pages/DesignerPage.tsx:30 | Two positions with the same `"{row}-{col}"` id are the same position. |
| `Grid.LayoutIdsUnique` | src/pages/DesignerPage.tsx:27-35 | In a grid laid out as initialisation lays it out, no two cells share an id. |
| `Decimal.RenderInjective` | src/pages/DesignerPage.tsx:30 | Distinct row or column numbers print as distinct decimal strings, as the id template relies on. |
| `Grid.TotalPrice` | src/pages/DesignerPage.tsx:40-45 | The total is non-negative when every frame's price is, and zero when no cell has a frame. |
| `Grid.TotalPriceIsSumOfFramePrices` | src/pages/DesignerPage.tsx:41-43 | In exact cents, the left-to-right reduce equals the plain sum of the framed cells' prices; unframed cells add nothing (the page's floating-point reduce agrees only after rounding to cents). |
| `Grid.AssignFrame` | src/pages/DesignerPage.tsx:56-62 | Every cell with the clicked id gets the selected frame and keeps its image; every other cell is unchanged; positions and ids are kept. |
| `Grid.AssignFrameTotal` | src/pages/DesignerPage.tsx:56-62 | With unique ids, framing cell k changes the total by the new frame's price minus the cell's old price. |
| `Grid.AttachImage` | src/pages/DesignerPage.tsx:68-72 | Only cells with the given id receive the image URL and file name; their frames stay; other cells are unchanged. |
| `Grid.AttachImageKeepsTotal` | src/pages/DesignerPage.tsx:68-72 | Attaching an image never changes the total price. |
| `Grid.ClearCell` | src/pages/DesignerPage.tsx:100-106 | The cleared cell loses frame and image but keeps id, row and col; other cells are unchanged. |
| `Grid.ClearCellTotal` | src/pages/DesignerPage.tsx:100-106 | With unique ids, clearing cell k lowers the total by exactly that cell's price. |
| `Grid.ClearAll` | src/pages/DesignerPage.tsx:108-115 | Every cell is emptied; the length, ids and positions are kept. |
| `Grid.ClearAllSettles` | src/pages/DesignerPage.tsx:108-115 | Clearing all is idempotent and leaves a total of zero. |
| `Grid.UnknownIdIsNoOp` | src/pages/DesignerPage.tsx:56-106 | Framing, attaching an image to, or clearing an id no cell carries leaves the grid unchanged. |
| `Grid.SameShapeKeepsLayout` | src/pages/DesignerPage.tsx:56-115 | Any edit that keeps positions and ids keeps the row-major layout and the uniqueness of ids. |
| `Grid.TwoFrameExample` | src/pages/DesignerPage.tsx:40-62 | On a fresh 2 × 2 grid, a 4x6 in cell "0-0" and an 8x10 in cell "0-1" total 4898 cents (`calculateTotalPrice`'s floating-point reduce over those cells would give 48.980000000000004, which rounds to it). |
| `Js.MembersDistinct` | src/pages/CheckoutPage.tsx:81 | The object `JSON.parse` builds never holds two members with one name, even when the text repeats a name. |
| `Js.MembersLookup` | src/pages/CheckoutPage.tsx:81 | Each member of the built object holds the value the text gives last for its name. |
| `Js.MembersCover` | src/pages/CheckoutPage.tsx:81 | Every name the text gives is a member of the built object, with its last value. |
| `Js.MemberValuesExact` | src/pages/CheckoutPage.tsx:84 | `Object.values` of a parsed object yields exactly the last value given for each name; values hidden by a later duplicate are gone. |
| `Js.ObjectValues` | src/pages/CheckoutPage.tsx:84 | `Object.values` throws exactly for `null`, returns an array's items, an object's member values, and nothing for booleans and numbers. |
| `Js.DuplicateNameKeepsLast` | src/pages/CheckoutPage.tsx:81-84 | `{"a": null, "a": true}` yields the single value `true`. |
| `Js.TrimEmptyIffBlank` | src/pages/DesignerPage.tsx:118 | `name.trim()` is empty exactly when every character of the name is JavaScript whitespace. |
| `Designer.SavedTotalIsZero` | src/pages/DesignerPage.tsx:39-54 | The total the page saves is the sum over the empty initial cell list, so every saved design carries 0, whatever its cells hold. |
| `Designer.SaveDesign` | src/pages/DesignerPage.tsx:117-142 | Save is refused with "name required" exactly when the name is all whitespace; it succeeds exactly when the name is not blank, a session exists and the store accepts; the record keeps the untrimmed name, the session's user id, the grid size, the cells and the page's total. |
| `Catalog.CatalogIdsDistinct` | src/data/frameSizes.ts:3-15 | The catalog has exactly 11 entries and their ids are pairwise distinct. |
| `Catalog.CatalogIdsMatchDimensions` | src/data/frameSizes.ts:4-14 | Each id is `"{width}x{height}"` of its own entry. |
| `Catalog.CatalogPositive` | src/data/frameSizes.ts:4-14 | Every width, height and price is strictly positive. |
| `Catalog.CatalogPriceRange` | src/data/frameSizes.ts:4-14 | The cheapest entry is 4x6 at 15.99 and the dearest 20x24 at 89.99, and 8x10 costs 32.99, the figures the home page advertises. |
| `Checkout.FrameOf` | src/pages/CheckoutPage.tsx:85 | Reading `cell.frameSize` throws exactly for a null cell and counts the cell as framed exactly when the member is truthy. |
| `Checkout.Summarise` | src/pages/CheckoutPage.tsx:84-88 | The summary fails exactly when some cell is null or some framed cell's `frameSize` cannot be turned into an object key. |
| `Checkout.SummariseCounts` | src/pages/CheckoutPage.tsx:84-88 | For cells with no null and a key for every frame, a key is present exactly when some framed cell maps to it, and its count is the number of framed cells that map to it. |
| `Checkout.SummariseTotal` | src/pages/CheckoutPage.tsx:84-88 | For cells with no null and a key for every frame, the counts of the summary add up to the number of framed cells. |
| `Checkout.ParseFrameCells` | src/pages/CheckoutPage.tsx:79-94 | Unparseable text or a parsed `null` gives the empty summary instead of an error; otherwise the result is the summary of the parsed value's `Object.values`, or the empty summary when that summary fails. |
| `Checkout.ShadowedNullCellIgnored` | src/pages/CheckoutPage.tsx:79-94 | Cells text `{"a": null, "a": {"frameSize": true}}` summarises to one frame: the `null` hidden by the later member never reaches the loop. |
| `Checkout.FrameSummaryOfArray` | src/pages/CheckoutPage.tsx:79-94 | For stored text that parses to an array of cells with no null and a key for every frame, the summary's counts add up to the framed cells and each key counts the cells framed under it. |
| `Checkout.LinePrice` | src/pages/CheckoutPage.tsx:304 | A line's price is positive for a positive count and, for every catalog size, differs from that size's price times the count unless the count is zero: lines are never priced from the catalog. |
| `Checkout.LinePricesTotal` | src/pages/CheckoutPage.tsx:300-306 | The line prices of a summary add up to the flat price of all its frames together. |
| `Checkout.SummaryLinesTotal` | src/pages/CheckoutPage.tsx:84-88 | For cells with no null and a key for every frame, the summary lines total 25.00 per framed cell, whatever sizes were chosen. |
| `Checkout.SubmitOrder` | src/pages/CheckoutPage.tsx:103-163 | Nothing is attempted without a design and a user; an order is refused when name, email or address is the empty string; otherwise one is placed exactly when the store accepts it, with status `received`, amount equal to the design's stored total, and the form's fields and the frame summary copied in. |
| `Checkout.NotificationFailureIsolated` | src/pages/CheckoutPage.tsx:142-143 | The outcome of placing an order is the same whether or not the confirmation email goes out. |
| `Checkout.BlankNamePassesCheckout` | src/pages/CheckoutPage.tsx:107 | A customer name of one space passes the checkout check although it is all whitespace. |
| `Admin.StatusConfig` | src/pages/AdminPage.tsx:39-44 | A badge entry exists exactly for the four known statuses. |
| `Admin.DisplayFor` | src/pages/AdminPage.tsx:275-276 | A known status shows its own badge; a status naming an inherited member finds that member, which has no icon, caption or colour; any other status shows exactly the `Received` badge. |
| `Admin.ReadLabel` | src/pages/AdminPage.tsx:110 | Reading a status's label gives its caption exactly for the four known statuses, `undefined` exactly for names inherited from `Object.prototype`, and throws otherwise. |
| `Admin.StatusCount` | src/pages/AdminPage.tsx:223 | The counter shown for a status never exceeds the number of orders and equals the number of orders with that status. |
| `Admin.FilteredOrders` | src/pages/AdminPage.tsx:197-199 | Filter `all` returns the list unchanged; any other value keeps exactly the orders with that status, with their multiplicities, in their original order. |
| `Admin.CountersMatchFilter` | src/pages/AdminPage.tsx:222-223 | Each status counter equals the length of the list the filter shows for that status. |
| `Admin.CountersPartition` | src/pages/AdminPage.tsx:222-223 | The four counters plus the number of orders with an unknown status equal the list length. |
| `Admin.CountersSum` | src/pages/AdminPage.tsx:222-223 | The four counters never add up to more than the list length, and add up to it exactly when every order's status is known. |
| `Admin.KeptNotes` | src/pages/AdminPage.tsx:104 | An absent or empty new note keeps the previous notes; a non-empty one replaces them. |
| `Admin.ApplyUpdate` | src/pages/AdminPage.tsx:102-106 | Orders with the target id get the new status and notes and nothing else changes in them; other orders and the list length are unchanged. |
| `Admin.UpdateOrderStatus` | src/pages/AdminPage.tsx:86-122 | An id not in the list changes nothing and shows nothing; a store failure leaves the list and shows an error; otherwise the list is updated, with a success message naming a known status's caption, a success message reading `undefined` for a status that names an inherited member such as `constructor`, and an error message (after the update) for any other status. |
| `Admin.AnyTransitionAllowed` | src/pages/AdminPage.tsx:86-106 | Any known status can be set on an order in any known status. |
| `Admin.StatusEmailIsolated` | src/pages/AdminPage.tsx:124-183 | The status update's result is the same whether or not the notification email goes out. |
| `Admin.ParseFrameDetails` | src/pages/AdminPage.tsx:189-195 | Unparseable frame details read as an empty object; parseable ones as their parsed value. |
| `Gallery.CellsText` | src/pages/GalleryPage.tsx:33 | Missing or empty cells text reads as `"[]"`; anything else is kept. |
| `Gallery.LoadDesign` | src/pages/GalleryPage.tsx:31-34 | Loading replaces only the cells, with their parsed value; every other field is carried over. |
| `Gallery.LoadDesigns` | src/pages/GalleryPage.tsx:23-42 | A failed fetch, or one design whose cells do not parse, leaves the gallery empty; otherwise each stored design loads in place and in order. |
| `Gallery.MissingCellsLoadEmpty` | src/pages/GalleryPage.tsx:33 | A design with missing or empty cells text loads with an empty cell array. |
| `Gallery.DeleteDesign` | src/pages/GalleryPage.tsx:44-53 | After confirmation and a successful delete, exactly the designs with another id remain, with their multiplicities, in order; otherwise the list is unchanged. |
| `Gallery.DeleteAbsentIsNoOp` | src/pages/GalleryPage.tsx:49 | Deleting an id no design carries leaves the list unchanged. |
| `Gallery.FramesBadge` | src/pages/GalleryPage.tsx:172 | The badge exists exactly for an array of non-null cells, and then shows the number of cells with a truthy `frameSize`. |
| `Gallery.BadgeMatchesCheckoutSummary` | src/pages/GalleryPage.tsx:172 | For cells with no null and a key for every frame, the gallery's frame count equals the sum of the checkout summary's counts for the same cells. |
| `Gallery.UnkeyedFrameSplitsBadgeAndSummary` | src/pages/GalleryPage.tsx:172 | For cells `[{"frameSize": {"toString": 0}}]`, whose frame has no object key, the badge shows 1 frame while the checkout summary (CheckoutPage.tsx:86, 91) is empty. |

## Left out

- React state wiring: `initializeCells` and `calculateTotalPrice` run only once, in state initialisers, so the page never rebuilds the grid when the sliders move. `setTotalPrice` is called only from `calculateTotalPrice`, whose closure at that moment holds the initial empty cell list, so the page's total is fixed at 0 (`Designer.PageTotal`): the page always shows 0.00 and every saved design carries a total of 0 (`Designer.SavedTotalIsZero`). The facts proved about `Grid.TotalPrice` describe the sum `calculateTotalPrice` would compute over a given cell list, which the page never displays or stores.
- Slider bounds 1–8: the sliders keep rows and columns in range; `Grid.InitializeCells` accepts any natural numbers.
- `JSON.stringify` and `JSON.parse`: parse is a parameter and no text encoding or round trip is modelled. The designer's record keeps its cells structured; the checkout and admin pages read differently named fields (`grid_rows`, `total_price`) than the designer writes (`gridRows`, `totalPrice`), so no save-then-checkout round trip is claimed.
- Checkout.Summarise: the summary key is a parameter `key`, standing for JavaScript's conversion of the stored `frameSize` value to an object key, with `None` where that conversion throws; grouping by catalog id is not claimed, and the order of keys in the summary object is not modelled (the summary is a map). A key naming an inherited member (`Js.PrototypeMembers`) is not modelled either: for `toString` and the like, `(summary[key] || 0) + 1` adds 1 to the inherited function and stores a string, and for `__proto__` nothing is stored; the model counts such keys like any other.
- Backend calls (`blink.auth`, `blink.db`, `blink.storage`, `blink.notifications`) are booleans or returned values; upload paths, generated ids (the order id is a parameter), timestamps, email bodies, `toFixed(2)` formatting, toasts' wording, and loading and busy flags are not modelled; the delete confirmation is a boolean.
- Drag-and-drop and the file picker (`handleDrop`, `handleFileSelect`) only route a chosen file to the upload; they are not modelled.
- Js.Json: numbers keep an integer stand-in. That is enough for truthiness, but a number used as a summary key (a `frameSize` of `1.5` keys `"1.5"`) cannot be told apart from its stand-in; floating point is not modelled, and `Object.values` of a string yields one value per code point rather than per UTF-16 unit.
- Js.Members: JavaScript lists names that are array indices (`"0"`, `"1"`, ...) first and in ascending order; the model keeps the order of first appearance. No contract depends on that order: the summary counts the same either way.
- Decimal.Render: `${n}` prints digits only below 10^21; from there JavaScript switches to exponent form (`1e+21`). Grid sizes come from sliders bounded by 8, so the ids never reach that range, but `Grid.InitializeCells` over larger sizes would differ.
- Grid.TotalPrice: `calculateTotalPrice`'s reduce adds floating-point dollar prices (15.99 + 32.99 is 48.980000000000004, and a float sum depends on the order of addition); the model adds exact integer cents, so that reduce agrees with the model's total divided by 100 only after rounding to cents. The page's `price || 0` fallback only matters for missing frames; non-numeric prices do not arise in the model.
- Admin: the store-side update (which takes the old notes from the first order with the id), loading orders and designs, and the design lookup used for display are not modelled.
- Checkout: prefilling name and email from the session and loading the design are not modelled; the design and user arrive as options.
- Profile, home page content, header and routing are presentational and not modelled.

Behaviours of the code a reader might not expect:

- Order statuses may be set in any order (`Admin.AnyTransitionAllowed`); nothing enforces forward-only progress.
- The design total is computed once, over the empty initial cell list, so it is always 0: the page shows 0.00 and every saved design carries 0 (`Designer.SavedTotalIsZero`).
- The gallery does not fall back to an empty cell list for one corrupt design: a single cells text that fails to parse leaves the whole gallery empty (`Gallery.LoadDesigns`).
- Saving does not distinguish a missing session from a store failure: both give the same failure (`Designer.SaveDesign`).
- The checkout summary is keyed by the coerced `frameSize` value, not by the frame-size id, and each line is priced at a flat 25.00 rather than from the catalog.

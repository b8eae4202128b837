# ecommerce-example storefront logic in Dafny

This project models the client-side rules of the ecommerce-example web shop that live inside its React pages:

- **Checkout form** (`Checkout.tsx`):
  - the digit and `MM/YY` predicates;
  - the address validator;
  - the whole-form validator, which builds the error record and the validity flag;
  - the input change handler, including the "billing same as mailing" checkbox.
- **Cart** (`Cart.tsx`):
  - grouping the order's flat list of product ids into `(productId, quantity)` lines in first-occurrence order;
  - the guard that makes the item handlers do nothing without an order id;
  - the disabled "Proceed to Checkout" button.
- **Catalog home page** (`Home.tsx`):
  - the category list, starting with "All";
  - the case-insensitive name search combined with the category filter;
  - pages of 20 products;
  - the bounds-checked page change;
  - the return to page 1 when the search or category changes.
- **Admin table** (`CollectionEditor.tsx`):
  - the search over a chosen list of record fields;
  - the page size, which defaults to 10;
  - page count and page slice;
  - the "No records found." row and the pagination control.

React state hooks become explicit state values, and each handler is a function from the old state to the new one.

- `validateAddress` fills an error object through a chain of `if` statements, so it is a method that updates its result step by step. It has no loop.
- `validate` does the same for the whole form and runs the payment checks with a `forEach` over a table, so it is a method with a loop and its invariants.
- `groupedItems` fills a `Map` by counting, so it is also a method with a loop and its invariants.
- The rest is expressions, so it is modelled as functions.
- The `useEffect` that copies the mailing address into billing while "same address" is checked runs only when `form.mailingAddress` or `form.sameAddress` has changed. `Checkout.HandleChangeAndSync` is the handler followed by that effect: the effect runs after a `mailingAddress.*` event or a change of the flag, and otherwise the result is the handler's alone.

Modules:

- `Wrappers`: `Option`.
- `Text`: JavaScript string behaviour:
  - `toLowerCase` on ASCII;
  - `includes`;
  - `split`;
  - `String` of an integer;
  - reading digits back.
- `Seqs`: first-occurrence de-duplication (`new Set`), `filter` and JavaScript `slice`.
- `Paging`: `Math.ceil(n / size)` and the page slice `(page - 1) * size`.
- `Checkout`, `Cart`, `Home`, `CollectionEditor`: one module per component.

Integers are unbounded.

- The zip code is an `int`, and 0 stands for "missing".
- The quantities of a cart line are `nat`.

## Model

| member | source | states |
|---|---|---|
| Checkout.NumericIffPaddedRendering | apps/web/src/pages/checkout/Checkout.tsx:132 | `isNumeric` accepts a text exactly when it is some number of zeros (possibly none) followed by the decimal rendering of a natural number |
| Checkout.PaddingOfNumeric | apps/web/src/pages/checkout/Checkout.tsx:132 | every text that `isNumeric` accepts splits into leading zeros and the rendering of its value, the number its digits spell |
| Checkout.PaddedRenderingIsNumeric | apps/web/src/pages/checkout/Checkout.tsx:132 | zeros followed by the rendering of any natural number pass `isNumeric` |
| Checkout.LeadingZeros | apps/web/src/pages/checkout/Checkout.tsx:132 | the count of zeros a text starts with: all characters before it are '0' and the next one, if any, is not |
| Checkout.IsExpiryValid | apps/web/src/pages/checkout/Checkout.tsx:133-134 | an accepted expiry has length 5, starts with two digits, and those digits spell a month 1..12 |
| Checkout.ZipNumericIffPositive | apps/web/src/pages/checkout/Checkout.tsx:132 | a non-zero zip renders as a non-empty run of decimal digits exactly when it is positive (a negative zip renders with '-' and fails `isNumeric`) |
| Checkout.ExpiryValidIffMonthAndYear | apps/web/src/pages/checkout/Checkout.tsx:133-134 | an expiry passes exactly when it is a two-digit month 01..12, a '/', and a two-digit year, so "00/xx" and "13/xx" fail and the length is exactly 5 |
| Checkout.MonthAndYearOfExpiry | apps/web/src/pages/checkout/Checkout.tsx:133-134 | every accepted expiry is some month 1..12 and some year 0..99, each written with two digits, around a '/' |
| Checkout.ExpiryOfMonthAndYear | apps/web/src/pages/checkout/Checkout.tsx:133-134 | every month 1..12 and year 0..99, written that way, is accepted |
| Checkout.TwoDigits | apps/web/src/pages/checkout/Checkout.tsx:133-134 | the zero-padded rendering of a number below 100 is two decimal digits |
| Checkout.ValidateAddress | apps/web/src/pages/checkout/Checkout.tsx:136-147 | line 1, city and state each get their "required" message when empty. A zero zip gets "Zip code is required". Otherwise a zip whose rendering is not all digits gets "Zip code must be numeric", never both. Line 2 is never checked. The record is empty exactly when the address is complete |
| Checkout.ValidateAddresses | apps/web/src/pages/checkout/Checkout.tsx:169-181 | the mailing address contributes an error record exactly when it is incomplete, and that record is the address validator's. The billing address contributes none while `sameAddress` is set; otherwise it contributes one exactly when it is incomplete |
| Checkout.Validate | apps/web/src/pages/checkout/Checkout.tsx:149-239 | the result is valid exactly when the error record is empty and exactly when the whole form is complete. Names get their "required" errors. Email gets "required" when empty and "must be valid" when it lacks '@' or '.'. The mailing errors are the address validator's. Billing errors appear only when `sameAddress` is off. The payment errors are checked per field |
| Checkout.PaymentTableOutcome | apps/web/src/pages/checkout/Checkout.tsx:183-223 | running the six payment checks in order leaves each of card number, expiry and CVV with at most one message: "required" when empty, its format message when non-empty and badly formed, and none otherwise. No payment entry is left exactly when all three are well formed |
| Checkout.RunChecksStep | apps/web/src/pages/checkout/Checkout.tsx:218-223 | the `forEach` over the check table runs the checks one after another; the state after check `i` is that check applied to the state before it |
| Checkout.FieldOutcomeFacts | apps/web/src/pages/checkout/Checkout.tsx:183-223 | after a field's two checks the payment entry is absent exactly when it was absent and the field is well formed. The field is listed exactly when it is malformed or was listed before. Its message is "required" for an empty value and the format message otherwise. Every other field keeps its entry and message |
| Checkout.CheckPairIsFieldOutcome | apps/web/src/pages/checkout/Checkout.tsx:183-216 | a field's "required" check followed by its format check gives one of three outcomes: the "required" message, the format message, or no entry for that field |
| Checkout.EmptyFailsFormat | apps/web/src/pages/checkout/Checkout.tsx:132-134 | the empty text fails every payment format predicate, so the format checks must test for a non-empty value first |
| Checkout.HandleChange | apps/web/src/pages/checkout/Checkout.tsx:255-288 | the handler alone, before the mirroring effect: an input event changes a top-level field only when the event names it. It changes the mailing address or the payment only for a dotted name under that parent. The billing address changes only for a dotted billing name or the `sameAddress` box |
| Checkout.AddressInputChangesOneField | apps/web/src/pages/checkout/Checkout.tsx:260-270 | typing into `mailingAddress.f` or `billingAddress.f` changes that one field of that one address; the zip is converted to a number and the rest of the form is unchanged |
| Checkout.TopLevelInputChangesOneField | apps/web/src/pages/checkout/Checkout.tsx:287 | typing into `firstName`, `lastName` or `email` stores the typed text in that field and changes nothing else |
| Checkout.PaymentInputChangesOneField | apps/web/src/pages/checkout/Checkout.tsx:271-276 | typing into `payment.f` changes that one payment field and nothing else |
| Checkout.SameAddressToggle | apps/web/src/pages/checkout/Checkout.tsx:278-286 | checking `sameAddress` sets billing equal to mailing; unchecking it leaves billing as it was |
| Checkout.ToZip | apps/web/src/pages/checkout/Checkout.tsx:267 | `Number` of the zip input: the empty text gives 0, the missing zip. A digit run gives its value, leading zeros dropped, and a text gives a positive zip exactly when it is a digit run with a positive value |
| Checkout.ZipShownWithoutLeadingZero | apps/web/src/pages/checkout/Checkout.tsx:103 | the zip input shows the stored zip, or the empty text for the missing zip 0. What it shows never starts with '0', and typing it back stores the same zip |
| Checkout.LeadingZeroZipLost | apps/web/src/pages/checkout/Checkout.tsx:103 | a zip typed with a leading zero loses it through `Number` (line 267): "02134" is stored as 2134 and shown as "2134", and a lone "0" is stored as the missing zip and shown as "" |
| Checkout.ZipInputRoundTrip | apps/web/src/pages/checkout/Checkout.tsx:267 | a zip typed as the decimal rendering of `n` (negative included) is stored as `n` |
| Checkout.InitialFormMirroredAndIncomplete | apps/web/src/pages/checkout/Checkout.tsx:122-130 | the form as first rendered has "same address" set with billing equal to mailing, and the validator does not accept it |
| Checkout.HandleChangeAndSync | apps/web/src/pages/checkout/Checkout.tsx:255-303 | an input event followed by the effect on `[form.mailingAddress, form.sameAddress]`. Apart from billing, the form is what the handler gives. When the flag ends up set and the event replaced the mailing object or changed the flag, billing equals mailing. When neither dependency changed, or the flag is clear, the effect does nothing and the result is the handler's |
| Checkout.SyncKeepsBillingMirrored | apps/web/src/pages/checkout/Checkout.tsx:255-303 | from a form whose billing mirrors mailing while the flag is set, every event except typing into a billing field keeps it so |
| Checkout.MailingInputMirrored | apps/web/src/pages/checkout/Checkout.tsx:259-270 | with "same address" set, typing into a mailing field sets that field in both addresses, after the effect on lines 299-303 |
| Checkout.DottedName | apps/web/src/pages/checkout/Checkout.tsx:260-261 | a name `parent.child` with no other dot contains a dot and splits into exactly `[parent, child]` |
| Checkout.SetAddressChildByName | apps/web/src/pages/checkout/Checkout.tsx:265-268 | writing the child named after address field `f` sets exactly field `f` (the zip through `Number`) |
| Cart.CountMap.Get | apps/web/src/pages/cart/Cart.tsx:25 | `itemMap.get(id)` yields a value exactly when the id has been counted, and that value is the id's stored count |
| Cart.CountMap.Set | apps/web/src/pages/cart/Cart.tsx:25 | `itemMap.set` updates the count and appends a new key at the end of the key order, which keeps the map well formed |
| Cart.CountItems | apps/web/src/pages/cart/Cart.tsx:22-26 | after the counting loop, the keys are the distinct ids in first-occurrence order and each count is that id's number of occurrences |
| Cart.GroupItems | apps/web/src/pages/cart/Cart.tsx:19-32 | with no order data the grouping is empty. Otherwise it has one line per distinct id, in first-occurrence order, and every id of the order has a line. The ids are unique, each quantity equals the id's occurrence count and is at least 1, and the quantities sum to the number of order items |
| Cart.LinesOfDistinct | apps/web/src/pages/cart/Cart.tsx:28-31 | lines listing the distinct ids with their occurrence counts cover every id, repeat none, have quantities of at least 1 and sum to the number of items |
| Cart.CountSumOfDistinct | apps/web/src/pages/cart/Cart.tsx:24-26 | the occurrence counts of the distinct ids of a list add up to the list's length |
| Cart.CountSumAddOne | apps/web/src/pages/cart/Cart.tsx:25 | counting one more occurrence of `x` raises the total over distinct keys by one exactly when `x` is among them |
| Cart.TotalOfLines | apps/web/src/pages/cart/Cart.tsx:28-31 | the quantities of the lines built from the entries sum to the counts of their keys |
| Cart.PlanCartAction | apps/web/src/pages/cart/Cart.tsx:34-77 | remove, increment and decrement send nothing exactly when the order data is missing or its id is empty; otherwise they send their own action for that order id and product |
| Cart.CheckoutDisabledIffNoLines | apps/web/src/pages/cart/Cart.tsx:169 | "Proceed to Checkout" is disabled exactly when the grouping has no lines, that is when the order has no items |
| Home.CategoryList | apps/web/src/pages/home/Home.tsx:18 | `products.map(p => p.product_category)`: one category per product, in product order |
| Home.Categories | apps/web/src/pages/home/Home.tsx:16-20 | without products there are no categories. Otherwise the list is "All" followed by distinct categories, with no repeats in the tail. A category is in the tail exactly when some product has it |
| Home.CategoriesInFirstAppearanceOrder | apps/web/src/pages/home/Home.tsx:18-19 | the categories after "All" appear in the order of their first appearance among the products |
| Home.FilteredProducts | apps/web/src/pages/home/Home.tsx:22-29 | without products the result is empty. Otherwise it is an order-preserving subsequence of the products. It holds a product exactly when the lower-cased name contains the lower-cased search and the category is "All" or the product's own. A matching product keeps all its occurrences and a failing one keeps none |
| Home.EmptySearchListsAll | apps/web/src/pages/home/Home.tsx:24-28 | with an empty search and category "All" every product is listed, in order |
| Home.SearchIgnoresCase | apps/web/src/pages/home/Home.tsx:25 | two searches that differ only in letter case give the same products |
| Home.TotalPages | apps/web/src/pages/home/Home.tsx:31 | `Math.ceil(n / 20)`: that many pages of 20 hold all the filtered products, and one page fewer would not |
| Home.PaginatedProducts | apps/web/src/pages/home/Home.tsx:32-35 | the current page holds at most 20 products and, for pages from 1, is the filtered list from `(currentPage-1)*20` to `currentPage*20`, both clamped to its length |
| Home.PaginationSplitsFiltered | apps/web/src/pages/home/Home.tsx:31-35 | page `p >= 1` has at most 20 products and is the slice from `(p-1)*20` clamped to the list. Pages 1..`totalPages` put together are exactly the filtered list |
| Home.PaginationShownIffMoreThanOnePage | apps/web/src/pages/home/Home.tsx:139 | the page buttons are shown exactly when more than 20 products match |
| Home.HandlePageChange | apps/web/src/pages/home/Home.tsx:37-41 | a page outside 1..`totalPages` leaves the state unchanged; a page inside it becomes the current page; search and category never change |
| Home.SetSearch | apps/web/src/pages/home/Home.tsx:69-72 | typing a search sets it and returns to page 1, keeping the category |
| Home.SetCategory | apps/web/src/pages/home/Home.tsx:78-81 | choosing a category sets it and returns to page 1, keeping the search |
| Home.TransitionsKeepPageInRange | apps/web/src/pages/home/Home.tsx:14-81 | the initial state, every search or category change and every page change leave the current page at 1 or within 1..`totalPages` |
| Home.NoMatchMessageIffNothingMatches | apps/web/src/pages/home/Home.tsx:89-92 | in every such state, "No products match your criteria" is shown exactly when no product matches |
| CollectionEditor.ItemsPerPage | apps/web/src/features/collectionEditor/CollectionEditor.tsx:27 | the page size is the caller's when given and 10 otherwise |
| CollectionEditor.FilteredData | apps/web/src/features/collectionEditor/CollectionEditor.tsx:35-45 | an empty term returns the data unchanged. Otherwise a record is kept exactly when some search key holds a truthy value whose lower-cased text contains the lower-cased term, and a kept record keeps all its occurrences. The result always preserves the data's order |
| CollectionEditor.NoSearchKeysKeepNothing | apps/web/src/features/collectionEditor/CollectionEditor.tsx:37-44 | with no search keys a non-empty term keeps no record |
| CollectionEditor.FalsyFieldNeverMatches | apps/web/src/features/collectionEditor/CollectionEditor.tsx:39-42 | an empty, zero, false, null or missing field never matches, even a term equal to its rendering such as "0" |
| CollectionEditor.TotalPages | apps/web/src/features/collectionEditor/CollectionEditor.tsx:47 | `Math.ceil(n / itemsPerPage)`: that many pages hold all the filtered rows, and one page fewer would not |
| CollectionEditor.PaginatedData | apps/web/src/features/collectionEditor/CollectionEditor.tsx:48-51 | the page slice has at most `itemsPerPage` rows and, for pages from 1, is the filtered rows from `(currentPage-1)*itemsPerPage` for `itemsPerPage` rows, clamped to their length |
| CollectionEditor.PageSliceShape | apps/web/src/features/collectionEditor/CollectionEditor.tsx:47-51 | the page slice is empty, which shows "No records found.", exactly when its start `(currentPage-1)*itemsPerPage` is at or past the end of the filtered rows |
| CollectionEditor.DefaultPageSizeIsTen | apps/web/src/features/collectionEditor/CollectionEditor.tsx:27-51 | without a page size the first page shows the first 10 rows (or all, when fewer), and there is more than one page exactly when more than 10 rows match |
| CollectionEditor.PaginationShownIffOverflow | apps/web/src/features/collectionEditor/CollectionEditor.tsx:112-114 | the pagination control appears exactly when the filtered rows do not fit on one page |
| CollectionEditor.SetSearchTerm | apps/web/src/features/collectionEditor/CollectionEditor.tsx:55 | as written, the search box sets the term and keeps the current page |
| CollectionEditor.StalePageHidesMatches | apps/web/src/features/collectionEditor/CollectionEditor.tsx:32-55 | as written, on page 2 a search that leaves between 1 and `itemsPerPage` matches shows an empty table although records match |
| CollectionEditor.StalePageExample | apps/web/src/features/collectionEditor/CollectionEditor.tsx:32-74 | eleven records, ten per page, on page 2: one row is shown. After searching "zed", one record matches but no row is shown |
| CollectionEditor.SetSearchTermResettingPage | apps/web/src/features/collectionEditor/CollectionEditor.tsx:55 | the corrected search box sets the term and returns to page 1 |
| CollectionEditor.ResettingSearchShowsMatches | apps/web/src/features/collectionEditor/CollectionEditor.tsx:48-74 | with the reset, the page stays in range and the table is empty exactly when no record matches |
| CollectionEditor.InitialEditorStateShowsFirstPage | apps/web/src/features/collectionEditor/CollectionEditor.tsx:32-51 | the table as first rendered, with page 1 and an empty term, is on page 1, which is in range, and shows the first `itemsPerPage` records. Page 1 is an existing page exactly when there is data; with no data there are no pages and nothing is shown |
| CollectionEditor.NoRecordsIffNothingMatches | apps/web/src/features/collectionEditor/CollectionEditor.tsx:69-74 | whenever the current page is 1 or an existing page, "No records found." appears exactly when no record matches |
| Paging.PageCount | apps/web/src/pages/home/Home.tsx:31 | `Math.ceil(n / size)` is the least page count whose pages hold all `n` items; it is 0 for no items |
| Paging.PageAt | apps/web/src/pages/home/Home.tsx:32-35 | a page holds at most `size` items and, for page numbers from 1, is the clamped slice starting at `(page-1)*size` |
| Paging.PageEmptyIff | apps/web/src/pages/home/Home.tsx:32-35 | page `p >= 1` is empty exactly when `p` exceeds the page count |
| Paging.PagesArePrefix | apps/web/src/pages/home/Home.tsx:32-35 | the first `k` pages put together are the first `k*size` items, clamped |
| Paging.AllPagesCoverAll | apps/web/src/pages/home/Home.tsx:31-35 | all pages put together are the whole list |
| Seqs.Slice | apps/web/src/pages/home/Home.tsx:34 | `Array.prototype.slice` for `0 <= start <= end`: `min(end, len) - min(start, len)` items, read from `start` on |
| Seqs.Distinct | apps/web/src/pages/home/Home.tsx:18 | `Array.from(new Set(xs))` has the same elements as `xs`, none twice, and is no longer than `xs` |
| Seqs.DistinctInFirstOccurrenceOrder | apps/web/src/pages/home/Home.tsx:18 | the set keeps its elements in first-insertion order |
| Seqs.Filter | apps/web/src/pages/home/Home.tsx:24 | `filter` keeps exactly the elements that pass, as an order-preserving subsequence; each passing element keeps its number of occurrences and a failing one has none |
| Seqs.FilterKeepsAll | apps/web/src/pages/home/Home.tsx:24 | a filter that every element passes returns the list itself |
| Seqs.FilterKeepsNone | apps/web/src/features/collectionEditor/CollectionEditor.tsx:37 | a filter that no element passes returns the empty list |
| Seqs.FilterCongruent | apps/web/src/pages/home/Home.tsx:24-28 | two tests that agree on every element filter alike |
| Text.ToLower | apps/web/src/pages/home/Home.tsx:25 | `toLowerCase` keeps the length, lowers each letter and leaves no upper-case letter |
| Text.ContainsIffOccursAt | apps/web/src/pages/home/Home.tsx:25 | `includes` holds exactly when the term occurs at some position |
| Text.Contains | apps/web/src/pages/home/Home.tsx:25 | `includes`: the empty term is in every text, and a text holds only terms no longer than itself |
| Text.NatString | apps/web/src/pages/checkout/Checkout.tsx:143 | `String` of a natural number is a non-empty digit run with a leading '0' only for zero |
| Text.DigitsValueOfNatString | apps/web/src/pages/checkout/Checkout.tsx:267 | reading the digits of a rendered number gives the number back |
| Text.IntString | apps/web/src/pages/checkout/Checkout.tsx:143 | `String` of an integer is non-empty: a digit run for a non-negative integer, and '-' followed by a digit run for a negative one |
| Text.Zeros | apps/web/src/pages/checkout/Checkout.tsx:132 | `k` zeros: a text of length `k` holding only '0' |
| Text.LeadingDigitPositive | apps/web/src/pages/checkout/Checkout.tsx:132 | a digit run that does not start with '0' has a positive value |
| Text.ZerosPrefixValue | apps/web/src/pages/checkout/Checkout.tsx:132 | leading zeros keep a digit run a digit run and do not change its value |
| Text.NatStringOfDigitsValue | apps/web/src/pages/checkout/Checkout.tsx:132 | a digit run without a leading zero (or "0" itself) is the rendering of its value |
| Text.IntStringAllDigits | apps/web/src/pages/checkout/Checkout.tsx:143 | `String` of an integer is non-empty, and all digits exactly when the integer is not negative |
| Text.Split | apps/web/src/pages/checkout/Checkout.tsx:261 | `split('.')` gives at least one part, at least two when a dot occurs, none containing the separator |
| Text.JoinSplit | apps/web/src/pages/checkout/Checkout.tsx:261 | joining the parts with the separator gives the original text |
| Text.SplitWithoutSeparator | apps/web/src/pages/checkout/Checkout.tsx:261 | a text without the separator splits into itself alone |
| Text.SplitAfterHead | apps/web/src/pages/checkout/Checkout.tsx:261 | a head without the separator, then the separator, splits into the head followed by the split of the rest |
| Text.SplitHeadIsPrefix | apps/web/src/pages/checkout/Checkout.tsx:260-261 | when the separator occurs, the first part followed by the separator is a prefix of the text |

## Left out

- Rendering, animation, navigation, the `window.scrollTo` call and the alert dispatched when the form is invalid. These are presentation and side effects. `Validate` returns the flag and the error record that the source passes to `setErrors`.
- The `useEffect` that pre-fills the checkout form from the signed-in user (`Checkout.tsx:242-253`). It is a data load from the store. `Checkout.InitialForm` is the form before it runs.
- Fetching the pending order and the products, and the mutation requests the cart handlers send after looking up a product price. These are network I/O. `Cart.PlanCartAction` models only the guard and the request being made.
- Order subtotal, shipping, tax and total, and their `toFixed` formatting. They are computed on the server, which is not part of this model, and `toFixed` is floating point.
- Checkout.ToZip: models `Number` exactly for empty text, digit runs and '-' followed by digits. Every other text becomes 0, and the model then reports "Zip code is required". For some texts the source differs:
  - Text with leading or trailing white space, or a leading '+', such as " 12345" or "+12345": `Number` gives 12345 and the source accepts the zip, while the model stores 0.
  - A fraction such as "1.5": `Number` gives 1.5, and the source reports "Zip code must be numeric" where the model reports "Zip code is required".
  - A whole number written with a decimal point, such as "12345.0" or "12345.": `Number` gives 12345 and the source accepts the zip, while the model stores 0.
  - "Infinity" and "-Infinity": `Number` gives an infinity, and the source reports "Zip code must be numeric" where the model reports "Zip code is required".
  - Exponent, hexadecimal, binary and octal forms such as "1e3", "0x10", "0b101" or "0o17": `Number` gives their value, while the model stores 0.
  - Digit runs beyond 2^53, which `Number` rounds, are stored exactly.
  - Every remaining text is NaN in the source. Both then report "Zip code is required", because NaN is falsy.
- Checkout.HandleChangeAndSync: the effect's dependency test is modelled by event kind. The handler builds a new mailing object for every `mailingAddress.*` name and for no other name, so that is when the object changes identity. React runs the effect after a render; the model applies it directly after the event, and the render in between is not modelled.
- Checkout.SyncKeepsBillingMirrored: typing into a billing field while "same address" is set is excluded. The handler then changes billing alone, and the effect does not run, so billing no longer mirrors mailing. The billing inputs are rendered only while the flag is clear (`Checkout.tsx:384`), so this event can come only while the billing section plays its exit animation.
- Checkout.HandleChange:
  - A checkbox value sent to a text field leaves the form unchanged.
  - An unknown or extra key (a dotted name with an unknown child, or an unknown top-level name) is dropped; in the source it adds a key of the object that nothing reads.
  - The `sameAddress` flag keeps the truthiness of a text value, not the text itself.
- Text.IntString: the exponent form JavaScript uses for magnitudes of 10^21 and more is not modelled. A zip that large is not realistic.
- Text.ToLower: lowers ASCII letters only. JavaScript's full Unicode case mapping is not modelled, so non-ASCII searches are compared without case folding.
- Cart.GroupItems: an order record whose `order_items` field is absent is not modelled. The order always holds a (possibly empty) list, and missing order data is `None`.
- CollectionEditor.FilteredData: record values are text, integers, booleans or null. Nested objects, arrays, dates and fractional numbers, with their `String` renderings, are not modelled.
- CollectionEditor.ItemsPerPage: only positive page sizes are modelled. With 0 or a negative size the source computes an infinite or negative page count.
- The `Pagination` and `SearchBar` components are not part of this model. Any page number the pagination control reports becomes the current page, as `setCurrentPage` takes it unchecked.
- The column-rendering callbacks and the edit and delete buttons of the admin table are caller-supplied code.

## Findings

| source | as written | input that shows it | evidently intended | confidence | as-written member | corrected member |
|---|---|---|---|---|---|---|
| apps/web/src/features/collectionEditor/CollectionEditor.tsx:55 | the search box calls `setSearchTerm` only, so the current page survives a new search | 11 records, 10 per page, current page 2, then a search that matches one record: the page-2 slice is empty and "No records found." is shown. `totalPages` is 1, so the pagination control is hidden and cannot get back to page 1 | a new search returns to page 1, as the home page does (`Home.tsx:69-72`) | not executed; high that the table is empty, medium that it is unintended | CollectionEditor.StalePageHidesMatches | CollectionEditor.ResettingSearchShowsMatches |

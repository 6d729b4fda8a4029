# Cart, rates, promo codes and password rules, verified in Dafny

This project models the core of a shop backend and its guest cart:

- **The cart store** (`backend/app/api/routes/cart.py`). Each user has one cart holding cart lines and saved-for-later lines. The product table, mapping a product id to its stock, is read-only. The nine handlers are get-or-create, add, update, remove, merge a guest cart, save for later, restore, remove a saved line, and clear.
  - `CartLines` states each handler as a function on one cart value, with its guards, stock ceilings, error messages and the rule that combines quantities (sum, cap or overwrite).
  - `CartRoutes` holds the handlers' row work as methods with loops, each proved to compute the `CartLines` function. `CartRoutes.CartStore` is a class holding every user's cart and the id counters. Each handler method takes the cart get-or-create hands over, runs the row work on it, and writes the store once. Each is proved to leave exactly the cart the `CartLines` function describes, so every lemma about those functions holds for the methods too.
- **ZIP, tax and shipping** (`backend/app/core/rates.py`):
  - the ZIP-prefix table and the state tax table;
  - the digit filter and the first-match range lookup;
  - the shipping tiers, and their composition into a quote.
- **Promo codes** (`backend/app/models/promo_code.py`, `backend/app/api/routes/promo_codes.py`): the validity rule, and the validate endpoint's lookup, reason selection and response.
- **The guest cart** kept in the browser (`frontend/src/utils/storage.ts`): add-or-increment, set-if-present and remove.
- **Password rules** (`backend/app/core/security.py`): the strength check, and the 72-byte UTF-8 truncation applied before bcrypt.

Money is exact, never floating point:

- subtotals and shipping are integer cents;
- tax rates are ten-thousandths (California's 0.0725 is 725, Minnesota's 0.0688 is 688);
- tax amounts are real numbers of cents.

Time is an integer clock reading passed in as a parameter. The product table, the guest cart's stored list and the clock are all values the caller supplies; no I/O is modelled.

Files:

- `wrappers.dfy`: Option and Result.
- `text.dfy`: ASCII character classes, case mapping, decimal rendering.
- `rates.dfy`: ZIP, tax and shipping.
- `promo.dfy`: promo codes.
- `guest_cart.dfy`: the guest cart.
- `security.dfy`: password rules.
- `cart_lines.dfy`: the cart handlers as functions, with their lemmas.
- `cart_store.dfy`: the store class and its handler methods.

Where the code and its own documentation disagree, the model follows the code:

- The docstring of `merge_guest_cart` (`cart.py:263-264`) says it raises OutOfStockError. The code never raises: it caps every line at stock, and it creates a line of quantity 0 for a product whose stock is 0 (`cart.py:290-302`). `CartLines.Merge` returns a cart, not a Result, and `CartLines.MergeZeroStockExample` shows the 0-quantity line. Such a line does not fit the response schema, since `CartItemResponse` inherits `quantity > 0` from `CartItemBase` (`schemas/cart.py:14,29`). Building the merge's own response, and every later cart response, would then fail validation, although the line stays committed. Response validation is not modelled.
- The lookup in `validate_promo_code` is commented as a case-insensitive match (`promo_codes.py:31`), but it performs SQL `ILIKE`. There the input's `%` and `_` are wildcards. Where the database takes `\` as LIKE's default escape character (PostgreSQL, MySQL), `\` also changes the match; SQLite has no default escape. Both lookups are modelled, the written one for either convention (`PromoCodeRoutes.Dialect`); see "Findings".

## Model

| member | source | states |
|---|---|---|
| Text.ToUpper | backend/app/core/rates.py:213 | `state.upper()`: same length, each character mapped to upper case, letters only in the ASCII range |
| Text.ToUpperIdempotent | backend/app/core/rates.py:213 | upper-casing an already upper-cased code changes nothing |
| Text.ToLower | backend/app/api/routes/promo_codes.py:33 | the lower-casing ILIKE applies to both sides: same length, each character mapped to lower case |
| Text.NatToString | backend/app/core/security.py:114 | the f-string rendering of the minimum length is a non-empty string of decimal digits |
| Text.NatToStringRoundTrip | backend/app/core/security.py:114 | reading the rendering back as a decimal number gives the number: the message shows the actual minimum length |
| Rates.Digits | backend/app/core/rates.py:187 | `clean_zip` keeps only digit characters and is never longer than the input |
| Rates.Prefix | backend/app/core/rates.py:193 | `int(clean_zip[:3])` is below 1000 |
| Rates.TableDisjoint | backend/app/core/rates.py:65-170 | no two ranges of ZIP_PREFIX_TO_STATE share a prefix |
| Rates.LowestPrefix | backend/app/core/rates.py:108 | no range starts below 010, the low end of Massachusetts |
| Rates.DigitsAppend | backend/app/core/rates.py:187 | the digit filter of a concatenation is the concatenation of the filters |
| Rates.StateFromZipFails | backend/app/core/rates.py:187-190 | `get_state_from_zip` raises exactly when fewer than five digits remain, with "ZIP code must be at least 5 digits" |
| Rates.NonDigitIgnored | backend/app/core/rates.py:187 | inserting a non-digit character anywhere never changes the result |
| Rates.TrailingIgnored | backend/app/core/rates.py:187-193 | text after five digits never changes the result ("90210-1234" is "90210") |
| Rates.FindStateNone | backend/app/core/rates.py:196-200 | when no range holds the prefix, the loop ends in "UNKNOWN" |
| Rates.FindStateFirst | backend/app/core/rates.py:196-198 | the loop returns the state of the first range holding the prefix |
| Rates.FindStateSome | backend/app/core/rates.py:196-198 | when some range holds the prefix, the state returned is that of a range holding it, at or before that one |
| Rates.FindStateDisjoint | backend/app/core/rates.py:196-198 | over disjoint ranges, the range holding the prefix decides, wherever it stands |
| Rates.FindStateReordered | backend/app/core/rates.py:196-198 | over any pairwise-disjoint list of ranges, reordering the list changes no lookup |
| Rates.LookupIgnoresOrder | backend/app/core/rates.py:65-198 | any reordering of the table gives every prefix the same state |
| Rates.StateFromZipSpec | backend/app/core/rates.py:193-200 | with five digits, the result is the state of the table entry whose inclusive range holds the 3-digit prefix, or "UNKNOWN" when none does |
| Rates.StateFromZipAt | backend/app/core/rates.py:187-198 | a ZIP with five digits whose prefix lies in a table entry gets that entry's state |
| Rates.MassachusettsExample | backend/app/core/rates.py:108 | "02134" is MA |
| Rates.BeverlyHillsExample | backend/app/core/rates.py:75 | "90210" is CA |
| Rates.CaliforniaExample | backend/app/core/rates.py:75 | "90210" and "90210-1234" are CA |
| Rates.TooShortExample | backend/app/core/rates.py:189-190 | "9021" and "902-1" raise the five-digit error |
| Rates.UnknownPrefixExample | backend/app/core/rates.py:200 | "00000" is "UNKNOWN", not an error |
| Rates.DallasExample | backend/app/core/rates.py:152 | "75001" is TX |
| Rates.ElPasoExample | backend/app/core/rates.py:153 | "88510" is TX |
| Rates.TexasExamples | backend/app/core/rates.py:152-153 | Texas has two ranges: "75001" and "88510" are both TX |
| Rates.TaxTableBounds | backend/app/core/rates.py:9-61 | every rate of STATE_TAX_RATES is at most 0.0725, which is California's |
| Rates.GetTaxRateSpec | backend/app/core/rates.py:213 | `get_tax_rate` is at most 0.0725, ignores case, and is 0 for any code the table lacks |
| Rates.TaxRateExamples | backend/app/core/rates.py:14-32 | "ca" gives 0.0725 and "Mn" gives 0.0688 |
| Rates.UntaxedExamples | backend/app/core/rates.py:46 | Oregon's listed rate is 0, and an unmapped code like "XX" falls back to 0 |
| Rates.UnknownUntaxed | backend/app/core/rates.py:213 | "UNKNOWN" has rate 0 |
| Rates.ShippingBoundaries | backend/app/core/rates.py:231-236 | $24.99 costs $9.99, $25.00 costs $5.99, $49.99 costs $5.99, $50.00 ships free: lower bounds are inclusive |
| Rates.ShippingNonIncreasing | backend/app/core/rates.py:231-236 | a larger subtotal never costs more shipping |
| Rates.CalculateFails | backend/app/core/rates.py:253-256 | `calculate_shipping_and_tax` fails exactly when the lookup raises or yields "UNKNOWN", with the matching message |
| Rates.CalculateBounds | backend/app/core/rates.py:261-263 | for a non-negative subtotal the tax lies between 0 and 7.25% of it, and the total is at least the subtotal |
| Rates.InvalidZipExample | backend/app/core/rates.py:255-256 | "00000" gives "Invalid ZIP code" |
| Rates.ShortZipExample | backend/app/core/rates.py:253-256 | "9021" gives the five-digit error |
| Rates.CaliforniaQuoteExample | backend/app/core/rates.py:253-265 | $100.00 to 90210 is CA at 7.25%, free shipping, $7.25 tax, $107.25 total |
| PromoCodeModel.InactiveNeverValid | backend/app/models/promo_code.py:29-30 | an inactive code is never valid, whatever its other fields |
| PromoCodeModel.ExpiryStrict | backend/app/models/promo_code.py:33-34 | a code is still valid at its expiry instant and invalid one tick later; a code without expiry never expires |
| PromoCodeModel.UsageLimitRule | backend/app/models/promo_code.py:37-38 | a null limit is unlimited; otherwise the code is used up once `times_used` reaches the limit |
| PromoCodeModel.ValidEarlier | backend/app/models/promo_code.py:33-34 | a code valid at some instant was valid at every earlier one |
| PromoCodeRoutes.FindFirst | backend/app/api/routes/promo_codes.py:32-34 | `.first()`: the index of the first matching code, None exactly when no code matches |
| PromoCodeRoutes.NotFoundResponse | backend/app/api/routes/promo_codes.py:36-42 | an unknown code echoes the input, with discount 0.0, not valid, "Invalid promo code" |
| PromoCodeRoutes.FindCodeAt | backend/app/api/routes/promo_codes.py:32-34 | the lookup returns the first stored code equal to the input up to case |
| PromoCodeRoutes.FoundResponse | backend/app/api/routes/promo_codes.py:44-69 | a found code is reported with its stored text and discount; `is_valid` in the response is the model's `is_valid()`; the message is either the applied message or the reason |
| PromoCodeRoutes.ValidIff | backend/app/api/routes/promo_codes.py:45-69 | a response is valid exactly when a code is found and it is valid |
| PromoCodeRoutes.ReasonPriority | backend/app/api/routes/promo_codes.py:47-52 | on one clock the reasons go inactive, then expired, then usage limit, and the first that holds is reported |
| PromoCodeRoutes.FallbackUnreachable | backend/app/api/routes/promo_codes.py:53-54 | the fallback "Invalid promo code" is never the reason for a found code, when the reason's clock reads no earlier than `is_valid`'s |
| PromoCodeRoutes.FallbackWithClockSkew | backend/app/api/routes/promo_codes.py:49-54 | were the reason's clock earlier, a just-expired code would get the fallback message |
| PromoCodeRoutes.LikeWithoutWildcards | backend/app/api/routes/promo_codes.py:33 | in either escape convention, a LIKE pattern holding no `%`, no `_` and no escape character matches exactly the equal text |
| PromoCodeRoutes.EscapedCharMatches | backend/app/api/routes/promo_codes.py:33 | with `\` as the escape, `\` followed by a character matches only that character |
| PromoCodeRoutes.PercentMatchesAll | backend/app/api/routes/promo_codes.py:33 | the pattern `%` matches every text |
| PromoCodeRoutes.AsWrittenAgreesWithoutWildcards | backend/app/api/routes/promo_codes.py:32-34 | for an input free of `%` and `_`, and of `\` where that is the escape, the ILIKE lookup gives the same response as case-insensitive equality |
| PromoCodeSeeds.WelcomeExample | backend/scripts/seed_promo_codes.py:30-37 | "welcome10" finds WELCOME10, which is applied with 10% |
| PromoCodeSeeds.ExpiredExample | backend/scripts/seed_promo_codes.py:86-93 | "Expired" finds EXPIRED, reported as expired at any time after seeding |
| PromoCodeSeeds.InactiveExample | backend/scripts/seed_promo_codes.py:94-101 | "INACTIVE" finds INACTIVE, reported as no longer active |
| PromoCodeSeeds.PercentAcceptedAsWritten | backend/app/api/routes/promo_codes.py:32-34 | as written, in either escape convention, the input "%" matches the first stored code and is accepted with its discount |
| PromoCodeSeeds.EscapedAcceptedAsWritten | backend/app/api/routes/promo_codes.py:32-34 | with `\` as the escape, the input `WELCOME\10` matches WELCOME10 and is accepted, while case-insensitive equality finds no code for it |
| PromoCodeSeeds.PercentRejected | backend/app/api/routes/promo_codes.py:31-42 | with the lookup the comment describes, "%" finds nothing and gets "Invalid promo code" |
| GuestCartStorage.IndexOf | frontend/src/utils/storage.ts:85 | `find` stops at the first entry for the product, or reports none |
| GuestCartStorage.Without | frontend/src/utils/storage.ts:122 | the filter keeps only entries for other products, each taken from the list |
| GuestCartStorage.GuestCart.constructor | frontend/src/utils/storage.ts:84 | the list starts as the one storage holds |
| GuestCartStorage.GuestCart.Find | frontend/src/utils/storage.ts:85 | the loop finds the first entry for the product, and finds one exactly when the list holds it |
| GuestCartStorage.GuestCart.Add | frontend/src/utils/storage.ts:82-97 | the stored list becomes the found entry incremented in place, or the old list with the new entry pushed |
| GuestCartStorage.GuestCart.Update | frontend/src/utils/storage.ts:102-114 | the found entry's quantity is set; without one the list is untouched |
| GuestCartStorage.GuestCart.Remove | frontend/src/utils/storage.ts:119-127 | the stored list becomes the filtered one |
| GuestCartStorage.AddPresent | frontend/src/utils/storage.ts:85-88 | adding a product already present adds to that entry only: same length, same order, other entries untouched |
| GuestCartStorage.AddAbsent | frontend/src/utils/storage.ts:90 | adding an absent product appends it at the end |
| GuestCartStorage.AddQuantities | frontend/src/utils/storage.ts:85-91 | the product's shown quantity grows by the amount added; every other product's is unchanged |
| GuestCartStorage.AddKeepsUnique | frontend/src/utils/storage.ts:85-91 | adding keeps at most one entry per product |
| GuestCartStorage.UpdatePresent | frontend/src/utils/storage.ts:105-110 | updating sets the first matching entry's quantity and touches no other entry |
| GuestCartStorage.UpdateAbsent | frontend/src/utils/storage.ts:107-110 | updating an absent product changes nothing |
| GuestCartStorage.UpdateKeepsUnique | frontend/src/utils/storage.ts:105-110 | updating keeps at most one entry per product |
| GuestCartStorage.WithoutAppend | frontend/src/utils/storage.ts:122 | the filter distributes over concatenation, so the kept entries stay in order |
| GuestCartStorage.WithoutAbsent | frontend/src/utils/storage.ts:122 | removing an absent product changes nothing |
| GuestCartStorage.RemoveIdempotent | frontend/src/utils/storage.ts:122 | removing twice is removing once |
| GuestCartStorage.RemoveKeepsOthers | frontend/src/utils/storage.ts:122 | after removal the product shows 0, and every other product keeps its quantity |
| GuestCartStorage.RemoveAfterAdd | frontend/src/utils/storage.ts:82-123 | for a product not in the list, remove after add gives the original list back |
| Security.StrengthIff | backend/app/core/security.py:113-125 | the verdict is (True, "") exactly when all four requirements hold; a rejection always carries a message |
| Security.MessagesDistinct | backend/app/core/security.py:114-123 | the four messages differ, whatever the minimum length |
| Security.FirstFailureReported | backend/app/core/security.py:113-123 | each message is reported exactly when its check is the first to fail, in the order length, uppercase, lowercase, digit |
| Security.StrengthExamples | backend/app/core/security.py:113-125 | "Secret12" passes; "Secret1", "secret12", "SECRET12" and "Secretive" each fail with their message |
| Security.Utf8Width | backend/app/core/security.py:28 | UTF-8 spends 1 to 4 bytes on a character |
| Security.EncodeChar | backend/app/core/security.py:28 | a character encodes to as many bytes as its width |
| Security.Encode | backend/app/core/security.py:28 | `encode('utf-8')` is as long as the sum of the widths |
| Security.EncodeCharShape | backend/app/core/security.py:29 | each encoding starts with a byte announcing its length, followed by continuation bytes only |
| Security.EncodeAppend | backend/app/core/security.py:28 | encoding distributes over concatenation |
| Security.DecodeChar | backend/app/core/security.py:29 | decoding with errors ignored turns a character's UTF-8 bytes back into the character, whatever follows |
| Security.DecodePartial | backend/app/core/security.py:29 | a proper prefix of a character's encoding, cut by the slice, decodes to nothing |
| Security.DecodeEncodeRoundTrip | backend/app/core/security.py:28-29 | decoding the UTF-8 encoding of any string gives the string back |
| Security.TruncateTo | backend/app/core/security.py:28-29 | the longest whole-character prefix that fits the limit is a prefix of the password whose encoding fits the limit |
| Security.TruncateDecodes | backend/app/core/security.py:28-29 | encoding, keeping the first `limit` bytes and decoding with errors ignored gives exactly `TruncateTo` |
| Security.BcryptInput | backend/app/core/security.py:47-48 | what both hashing and verifying hand to bcrypt, `encode('utf-8')[:72]` decoded with errors ignored: the longest whole-character prefix of at most 72 bytes |
| Security.TruncateMaximal | backend/app/core/security.py:28-29 | the prefix kept is the longest that fits: one more character would pass the limit |
| Security.TruncateFits | backend/app/core/security.py:28-29 | a password that already fits is passed on whole |
| Security.TruncateIdempotent | backend/app/core/security.py:47-48 | truncating an already truncated password changes nothing |
| Security.TruncateIgnoresTail | backend/app/core/security.py:47-48 | passwords that agree on their first 72 bytes reach bcrypt identically |
| Security.TruncationBytes | backend/app/core/security.py:28-29 | `encode(s)[:72]` is the kept prefix's encoding, followed when something is cut by a proper prefix of the next character's |
| Security.TruncateExample | backend/app/core/security.py:28-29 | "añ" cut to 2 bytes keeps "a"; to 3 bytes keeps both |
| CartLines.FindProduct | backend/app/api/routes/cart.py:105-107 | the first line for the product, or none |
| CartLines.FindId | backend/app/api/routes/cart.py:171-173 | the first line of this cart with the id, or none |
| CartLines.Clear | backend/app/api/routes/cart.py:517 | every cart line goes; the saved lines, the cart id and the owner stay |
| CartLines.QtySetQty | backend/app/api/routes/cart.py:116 | setting a product's line quantity changes what that product holds and nothing else |
| CartLines.QtyAppend | backend/app/api/routes/cart.py:123-128 | a new line for a product not yet held adds exactly that product |
| CartLines.QtyRemove | backend/app/api/routes/cart.py:230 | deleting a line removes its product and nothing else |
| CartLines.AddOutcome | backend/app/api/routes/cart.py:99-128 | add fails exactly when the product is unknown ("Product not found") or held + quantity passes stock (naming what is held when a line exists); otherwise the product shows held + quantity, a new line is appended when it had none, and nothing else changes |
| CartLines.AddKeepsInvariants | backend/app/api/routes/cart.py:104-128 | adding a positive quantity keeps one line per product, distinct fresh ids, known products, non-negative quantities and every line within stock |
| CartLines.UpdateOutcome | backend/app/api/routes/cart.py:170-184 | update fails for a line id this cart lacks and for a quantity over stock; otherwise that product shows exactly the new quantity, and all other lines and every saved line are unchanged; a well-formed cart never meets a missing product |
| CartLines.UpdateKeepsInvariants | backend/app/api/routes/cart.py:178-184 | updating keeps the cart well formed and within stock |
| CartLines.RemoveOutcome | backend/app/api/routes/cart.py:222-230 | remove fails exactly for a line id this cart lacks; otherwise that product is no longer held and nothing else changes |
| CartLines.RemoveKeepsInvariants | backend/app/api/routes/cart.py:222-230 | removing keeps the cart well formed and within stock |
| CartLines.MergeEntryOutcome | backend/app/api/routes/cart.py:271-302 | one merge step skips an unknown product; a known one then shows min(held + quantity, stock); nothing else changes |
| CartLines.MergePerProduct | backend/app/api/routes/cart.py:270-302 | the whole merge acts product by product: each known product ends with the fold of its own entries, unknown ones and saved lines are untouched |
| CartLines.MergedUnmentioned | backend/app/api/routes/cart.py:270-302 | a product the guest cart does not mention keeps what it held |
| CartLines.MergedCapped | backend/app/api/routes/cart.py:284-295 | a mentioned product always ends with a line, never above stock |
| CartLines.MergedAtStock | backend/app/api/routes/cart.py:283-288 | positive entries cannot raise a quantity already at stock |
| CartLines.MergeAtStock | backend/app/api/routes/cart.py:283-288 | re-merging into a cart line already at stock leaves it at stock |
| CartLines.MergedUncapped | backend/app/api/routes/cart.py:283-295 | below the cap, the merge adds the guest quantities to what was held |
| CartLines.MergeKeepsInvariants | backend/app/api/routes/cart.py:270-302 | the merge keeps the cart well formed and within stock, each entry using up one id |
| CartLines.MergeEntryKeepsInvariants | backend/app/api/routes/cart.py:276-302 | one merge step keeps the cart well formed and within stock |
| CartLines.MergeStep | backend/app/api/routes/cart.py:270 | the fold one entry further is one more merge step on the result so far: entries are processed in order |
| CartLines.MergeZeroStockExample | backend/app/api/routes/cart.py:290-302 | a guest entry for a product with no stock creates a line of quantity 0 |
| CartLines.MergeDuplicateExample | backend/app/api/routes/cart.py:270-302 | two guest entries for one product fold into one line: 2 then 3 against stock 4 gives 4 |
| CartLines.SaveOutcome | backend/app/api/routes/cart.py:341-367 | save fails exactly for a line id this cart lacks; otherwise the product leaves the cart and the saved list shows exactly the line's quantity (overwritten, not summed); nothing else changes |
| CartLines.SaveKeepsInvariants | backend/app/api/routes/cart.py:349-367 | saving keeps one saved line per product and both lists well formed and within stock |
| CartLines.RestoreOutcome | backend/app/api/routes/cart.py:406-428 | restore fails for a saved id this cart lacks, and fails with "Only {stock} units available" exactly when the saved quantity, alone or added to what the cart holds, passes stock; a well-formed cart never meets a missing product |
| CartLines.RestoreEffect | backend/app/api/routes/cart.py:419-440 | a successful restore gives the product held + saved in the cart and removes it from the saved list; nothing else changes |
| CartLines.RestoreKeepsInvariants | backend/app/api/routes/cart.py:419-440 | restoring keeps both lists well formed and within stock |
| CartLines.RemoveSavedOutcome | backend/app/api/routes/cart.py:478-486 | removing a saved line fails exactly for a saved id this cart lacks; otherwise that product leaves the saved list and the cart lines are untouched |
| CartLines.RemoveSavedKeepsInvariants | backend/app/api/routes/cart.py:478-486 | removing a saved line keeps the cart well formed and within stock |
| CartLines.SaveThenRestore | backend/app/api/routes/cart.py:339-441 | saving a line for a product not yet saved, then restoring it, succeeds and gives back the same saved list and the same quantity for every product |
| CartRoutes.FindLineByProduct | backend/app/api/routes/cart.py:105-107 | the query loop stops at the first line for the product |
| CartRoutes.FindLineById | backend/app/api/routes/cart.py:171-173 | the query loop stops at the first line with the id |
| CartRoutes.MergeLines | backend/app/api/routes/cart.py:270-302 | the merge loop, entry by entry, yields exactly `Merge` |
| CartRoutes.AddLine | backend/app/api/routes/cart.py:99-128 | add's row work yields exactly `AddItem` |
| CartRoutes.UpdateLine | backend/app/api/routes/cart.py:170-184 | update's row work yields exactly `UpdateItem` |
| CartRoutes.RemoveLine | backend/app/api/routes/cart.py:222-230 | remove's row work yields exactly `RemoveItem` |
| CartRoutes.MergeLine | backend/app/api/routes/cart.py:271-302 | one turn of the merge loop yields exactly `MergeEntry` |
| CartRoutes.SaveLine | backend/app/api/routes/cart.py:341-367 | save's row work yields exactly `SaveForLater` |
| CartRoutes.RestoreLine | backend/app/api/routes/cart.py:406-440 | restore's row work yields exactly `Restore` |
| CartRoutes.RemoveSavedLine | backend/app/api/routes/cart.py:478-486 | remove-saved's row work yields exactly `RemoveSaved` |
| CartRoutes.CartFor | backend/app/api/routes/cart.py:36-44 | get-or-create hands over the user's stored cart, or an empty one with the next cart id |
| CartRoutes.CreateKeepsStore | backend/app/api/routes/cart.py:36-44 | get-or-create keeps the store's invariant: one cart per user, distinct cart ids, every cart well formed and within stock |
| CartRoutes.AddKeepsStore | backend/app/api/routes/cart.py:97-130 | get-or-create followed by an add keeps the store's invariant, one cart-line id used up |
| CartRoutes.UpdateKeepsStore | backend/app/api/routes/cart.py:168-185 | get-or-create followed by an update keeps the store's invariant |
| CartRoutes.RemoveKeepsStore | backend/app/api/routes/cart.py:220-231 | get-or-create followed by a removal keeps the store's invariant |
| CartRoutes.MergeKeepsStore | backend/app/api/routes/cart.py:267-304 | get-or-create followed by a merge keeps the store's invariant, one cart-line id used up per entry |
| CartRoutes.SaveKeepsStore | backend/app/api/routes/cart.py:339-368 | get-or-create followed by a save for later keeps the store's invariant, one saved-line id used up |
| CartRoutes.RestoreKeepsStore | backend/app/api/routes/cart.py:404-441 | get-or-create followed by a restore keeps the store's invariant, one cart-line id used up |
| CartRoutes.RemoveSavedKeepsStore | backend/app/api/routes/cart.py:476-487 | get-or-create followed by removing a saved line keeps the store's invariant |
| CartRoutes.ClearKeepsStore | backend/app/api/routes/cart.py:514-518 | get-or-create followed by clearing keeps the store's invariant |
| CartRoutes.CartStore.GetOrCreateCart | backend/app/api/routes/cart.py:25-44 | returns the user's cart, or creates and stores an empty one with the next cart id |
| CartRoutes.CartStore.AddToCart | backend/app/api/routes/cart.py:97-130 | the result is `AddItem` of the user's cart; the store holds the new cart on success and the got-or-created cart on failure; the invariant holds |
| CartRoutes.CartStore.UpdateCartItem | backend/app/api/routes/cart.py:168-185 | the result is `UpdateItem`, stored as for add |
| CartRoutes.CartStore.RemoveCartItem | backend/app/api/routes/cart.py:220-231 | the result is `RemoveItem`, stored as for add |
| CartRoutes.CartStore.MergeGuestCart | backend/app/api/routes/cart.py:267-304 | the result is `Merge` of the user's cart and the guest entries, committed once; it never fails |
| CartRoutes.CartStore.SaveForLaterItem | backend/app/api/routes/cart.py:339-368 | the result is `SaveForLater`, stored as for add |
| CartRoutes.CartStore.RestoreSavedItem | backend/app/api/routes/cart.py:404-441 | the result is `Restore`, stored as for add |
| CartRoutes.CartStore.RemoveSavedItem | backend/app/api/routes/cart.py:476-487 | the result is `RemoveSaved`, stored as for add |
| CartRoutes.CartStore.ClearCart | backend/app/api/routes/cart.py:514-518 | the user's cart is stored with no cart lines and its saved lines kept |

No cart handler writes the product table. In `CartStore` it is a `const` field, so no handler can change a product's stock.

## Left out

- HTTP and the ORM are not modelled: FastAPI routing, dependency injection, SQLAlchemy sessions, `joinedload` re-queries and timestamps. A handler's returned cart is the post-state. `exceptions.py`, which only maps error kinds to status codes, is not part of this model.
- The request schemas are modelled only as preconditions: a positive product id and a positive quantity (`schemas/cart.py:13-14,26,73-74`). Pydantic's 422 response is not modelled.
- CartRoutes.CartStore: row ids come from counters in the store, and each call that may insert a row reserves one id. The database's actual id values are not modelled; only their freshness is used.
- CartRoutes.CartStore: the product table is constant. In the running system stock changes outside the cart handlers (checkout), so `WithinStock` is an invariant only of the cart handlers themselves.
- CartLines.UpdateItem and CartLines.Restore: a line whose product has vanished makes `product.stock` fail on None. This is modelled as `MissingProduct`, standing for an unhandled server error. The foreign-key invariant (`KnownProducts`) rules it out.
- Merge is a left fold: each guest entry sees the lines earlier entries created. This relies on the session flushing before each query (autoflush), which is assumed rather than modelled.
- The database's row order without ORDER BY is not modelled. `.first()` is taken as the first line in the model's sequence; with one line per product or per id the choice does not matter.
- Concurrent requests on one cart are not modelled; the store is strictly sequential.
- Floating point is not modelled: money is exact cents, and rates are exact ten-thousandths.
- The frontend's display rounding is not modelled.
- PromoCodeRoutes.Respond: the applied message is carried as `Applied(discount)`. Python's float formatting in "You save {d}%" is not modelled.
- PromoCodeRoutes.Respond: `is_valid` and the reason chain each read `utcnow()`. They are two clock parameters, and only their order is assumed.
- Validation is read-only: `is_valid` and the route are pure functions of the stored code. `times_used` is never written, so no lemma is needed.
- Text.ToUpper, Text.ToLower and the character classes cover ASCII only. Python's `str.upper`, `str.lower`, `isdigit`, `isupper` and `islower` are Unicode-aware; SQL `lower` depends on the database's collation.
- PromoCodeRoutes.Like: which database runs the query is not fixed by the code, so the escape convention is a parameter (`NoEscape` for SQLite, `BackslashEscape` for PostgreSQL and MySQL). A pattern ending in the escape character makes PostgreSQL raise an error; the model lets it match nothing.
- Security.DecodeIgnore: every byte that does not start a well-formed sequence is dropped on its own. Where Python drops an invalid sequence as one unit, the bytes it drops are the same; only the slices of valid encodings are proved about.
- Security.EncodeChar: Dafny's `char` cannot hold lone surrogates, so Python's failure to encode them is not modelled.
- bcrypt hashing, JWT tokens and `settings` are foreign code. `PASSWORD_MIN_LENGTH` is a parameter.
- GuestCartStorage: `localStorage` access, JSON parsing and the try/catch that swallows errors are I/O and are not modelled. JavaScript numbers are modelled as unbounded integers.
- The React pages, the frontend services and hooks, and the Go checkout service (remote address validation, a mock server, an inventory client) are I/O or UI and are not part of this model.

## Findings

| source | as written | input that shows it | evidently intended | confidence | as-written member | corrected member |
|---|---|---|---|---|---|---|
| backend/app/api/routes/promo_codes.py:33 | the code is looked up with `ilike(input)`, so `%` and `_` in the user's input act as wildcards, and so does `\` as an escape where the database has that default | the input "%" matches the first stored code (WELCOME10 in the seed) and is accepted with its discount; with `\` as the escape, `WELCOME\10` is accepted as WELCOME10 | case-insensitive equality, as the comment at line 31 says | not executed | PromoCodeSeeds.PercentAcceptedAsWritten and PromoCodeSeeds.EscapedAcceptedAsWritten (over PromoCodeRoutes.ValidatePromoCodeAsWritten) | PromoCodeSeeds.PercentRejected (over PromoCodeRoutes.ValidatePromoCode), with PromoCodeRoutes.AsWrittenAgreesWithoutWildcards |

# assetHub client logic, modelled in Dafny

assetHub is a personal-finance web application. Users sign in and record
financial products in four categories. The page shows per-category and grand
totals, and the roster is saved to a hosted document store. This project
models the sequential, pure logic of three pages and proves properties of it:

- **The asset page** (`app/assets/page.tsx`). The roster is four product
  lists: deposits/savings, trusts/ISA, insurance and pension. The model
  covers adding, updating and deleting a product, and saving or clearing a
  memo. It covers the action-menu and memo-editor targets, the totals and the
  blank-name check that blocks saving. It also covers the amount field:
  `formatNumber` inserts thousands separators, and the change handler keeps
  only the digits of the typed text. The maturity-date formatter is modelled
  too.
- **The sign-in / sign-up form** (`components/LoginForm.tsx`). The model
  covers the e-mail, password and confirmation validators and the submit gate
  that decides whether the authentication call is made. It covers the table
  from error codes to messages, the mode toggle and the per-field
  change/blur handlers.
- **The settings page** (`app/settings/page.tsx`). The model covers the
  sparse profile record that submitting builds, including its `YYYY-MM-DD`
  birth date.

Modules:

| file | module | what it holds |
|---|---|---|
| `optional.dfy` | `Optional` | `Option`: an absent JavaScript property |
| `text.dfy` | `Text` | ECMAScript whitespace, `trim()`, UTF-16 length, decimal strings, keeping digits |
| `amount_format.dfy` | `AmountFormat` | `formatNumber`, its regular expression, the amount parser and displayed value |
| `dates.dfy` | `Dates` | the `YYYY-MM-DD` formatter both date pickers use, and its inverse |
| `roster.dfy` | `Roster` | categories, products, the list operations, totals, save validation |
| `asset_page.dfy` | `AssetPage` | the page state: roster, open menu and memo editor, and its handlers |
| `login_form.dfy` | `LoginForm` | validators, messages, submit, mode toggle, field handlers |
| `profile.dfy` | `Profile` | the settings page's profile record |

Conventions:

- Strings are `seq<char>`.
- Whitespace is the ECMAScript WhiteSpace and LineTerminator set. Both `\s`
  and `trim()` use this set.
- Amounts are `nat`.
- A property that may be missing is an `Option`.
- Product ids are an input, because the page builds them from the clock and a
  random number.

The asset page has exactly four categories (`app/assets/page.tsx:43`).
Deleting a product on that page changes only the local list
(`app/assets/page.tsx:206-214`); the lists are written only when the page is
saved.

## Model

| member | source | states |
|---|---|---|
| Text.Trim | app/settings/page.tsx:95-96 | `trim()` returns a slice of its input. Everything cut off on either side is whitespace, and a non-empty result neither starts nor ends with whitespace. |
| Text.TrimEmptyIffAllWs | app/assets/page.tsx:261-263 | `name.trim() === ""` holds exactly when every character of the name is whitespace, including for the empty name. |
| Text.Utf16Length | components/LoginForm.tsx:70 | JavaScript's `.length` of one character is 2 for a code point above U+FFFF and 1 otherwise. The length equals the character count exactly when no character is above U+FFFF, lies between one and two units per character, and is 0 only for "". |
| Text.Utf16LengthAppend | components/LoginForm.tsx:70 | `.length` of a concatenation is the sum of the parts' lengths, so with the one-character case it counts each character on its own. |
| Text.DecimalRoundTrip | app/assets/page.tsx:305 | Reading the decimal digits `toString()` writes for a non-negative integer gives the same integer back. |
| Text.NatToDecimal | app/assets/page.tsx:305 | `num.toString()` of a non-negative integer is a non-empty digit string with no leading zero. It is one character long exactly when the number is below 10. |
| Text.DecimalValue | app/assets/page.tsx:563-565 | `Number(...)` of a digit string is 0 exactly when every digit is 0, the empty string included. With `Text.DecimalRoundTrip` it inverts `toString()`. |
| Text.IntToString | app/settings/page.tsx:105-108 | `${year}` starts with `-` exactly for a negative year. The rest is the unpadded decimal `toString()` of the year's magnitude, with no leading zeros, and its value is that magnitude. |
| Text.KeepDigits | app/assets/page.tsx:559-562 | `replace(/[^0-9]/g, "")` leaves only digits. It is the identity on digit strings and yields "" on text without digits. |
| AmountFormat.Group | app/assets/page.tsx:304-306 | Inserting separators into a non-empty digit string gives a well-grouped string: commas exactly every four characters from the end, and a first group of 1–3 digits. Dropping the commas gives the digits back. |
| AmountFormat.GroupIsRegexReplace | app/assets/page.tsx:305 | The right-to-left grouping equals what `/\B(?=(\d{3})+(?!\d))/g` replaced with "," produces, scanning left to right. |
| AmountFormat.FormatNumber | app/assets/page.tsx:304-306 | `formatNumber(n)` is well grouped, and its digits are exactly those of `n.toString()`. |
| AmountFormat.FormatNumberIsRegexReplace | app/assets/page.tsx:304-306 | `formatNumber(n)` is the regular-expression replacement applied to `n.toString()`. |
| AmountFormat.GroupedShape | app/assets/page.tsx:304-306 | A well-grouped string does not start or end with a comma. Its first group has 1–3 digits. Every comma is followed by exactly three digits and then a comma or the end. |
| AmountFormat.ParseAmount | app/assets/page.tsx:556-565 | The amount change handler reads text without digits as 0 and a digit string as its decimal value. The result is never negative. |
| AmountFormat.ParseAmountIgnoresNonDigit | app/assets/page.tsx:558-562 | Inserting or removing a non-digit character anywhere in the typed text does not change the amount read. |
| AmountFormat.ParseAmountLeadingZero | app/assets/page.tsx:563-565 | A leading zero in the typed text does not change the amount read. |
| AmountFormat.FormatParseRoundTrip | app/assets/page.tsx:304-306 | Parsing `formatNumber(n)` with the amount handler yields `n`. |
| AmountFormat.DisplayAmount | app/assets/page.tsx:551-555 | The amount input shows "" exactly when the amount is 0 or missing. Otherwise it shows a well-grouped string whose digits are exactly `toString()` of the amount, which is `formatNumber`'s output. Re-reading what it shows yields the stored amount, with a missing amount read as 0. |
| AmountFormat.DisplayParseStable | app/assets/page.tsx:551-565 | Showing the amount read from any input and reading it again gives the same amount. |
| AmountFormat.ParseAmountScan | app/assets/page.tsx:556-565 | A left-to-right digit-accumulating scan of the typed text computes the same amount as the handler. |
| Dates.Pad2 | app/settings/page.tsx:106-107 | `String(n).padStart(2, "0")` is a digit string with value `n`. It has exactly two characters when `n < 100`, and is plain `String(n)` when `n >= 10`. |
| Dates.FormatDate | app/assets/page.tsx:526-530 | For a date the getters can return, the string is `String(year)` followed by `-MM-DD`: six more characters, with a dash three and six characters from the end. |
| Dates.FormatDateFields | app/settings/page.tsx:105-108 | The stored string is `String(year)`, a dash, the two-digit month, a dash and the two-digit day, each field at a fixed distance from the end. |
| Dates.FormatParseRoundTrip | app/settings/page.tsx:105-108 | The model's reference parser `Dates.ParseDate` recovers the year, 0-based month and day from the `${year}-MM-DD` string, for every year including negative ones. So the formatter loses no information. |
| Dates.FormatDateInjective | app/settings/page.tsx:105-108 | Two different valid dates never produce the same stored string. |
| Roster.Put | app/assets/page.tsx:168-171 | `{ ...assets, [category]: list }` replaces that category's list and leaves the other three unchanged. |
| Roster.InAllProducts | app/assets/page.tsx:254-259 | A product is in the concatenated list that validation checks exactly when it is in one of the four categories. |
| Roster.CalculateTotal | app/assets/page.tsx:244-246 | The left-to-right `reduce` equals the sum of the products' amounts, with a missing amount counting as 0. |
| Roster.AmountOrZero | app/assets/page.tsx:245 | `product.amount || 0` is 0 exactly when the amount is missing or 0, and is the stored amount whenever one is present. |
| Roster.TotalAssets | app/assets/page.tsx:309-313 | The grand total of the four category totals is the amount sum over all products of all categories. |
| Roster.TotalAssetsPut | app/assets/page.tsx:309-313 | Replacing one category's list changes the grand total by exactly the change in that category's total. |
| Roster.AddProduct | app/assets/page.tsx:160-172 | Adding appends exactly one product to the end of the category: the given id, name "", amount 0, memo "" and no maturity date. Earlier products and the other categories are unchanged. The category total and the grand total are unchanged. |
| Roster.ApplyPatch | app/assets/page.tsx:183 | `{ ...product, ...updates }`: each field the update carries overwrites the product's field, and every other field is kept. |
| Roster.PatchWhere | app/assets/page.tsx:182-184 | The `map` keeps the length and order. It patches exactly the products whose id matches and returns every other product unchanged. |
| Roster.UpdateProduct | app/assets/page.tsx:175-186 | `updateProduct` keeps the category's length and order, patches only the products with the id, and leaves the other categories unchanged. |
| Roster.UpdateAbsentId | app/assets/page.tsx:175-186 | An update for an id the category does not hold leaves the roster unchanged. |
| Roster.UpdateWithoutAmountKeepsTotals | app/assets/page.tsx:175-186 | An update that carries no amount leaves the grand total unchanged. |
| Roster.RemoveId | app/assets/page.tsx:209-211 | The `filter` leaves no product with the id. It keeps every other product in its original relative order and removes exactly as many products as carried the id. |
| Roster.DeleteProduct | app/assets/page.tsx:206-214 | Deleting from a category leaves no product with that id there. The remaining products keep their original order, and the other categories are unchanged. |
| Roster.RemoveIdIdempotent | app/assets/page.tsx:206-214 | Deleting the same id twice gives the same list as deleting it once. |
| Roster.RemoveIdSum | app/assets/page.tsx:206-214 | After a delete, the category total falls by exactly the amounts of the products that carried the id. |
| Roster.KeepId | app/assets/page.tsx:206-214 | The products a delete drops: a subsequence of the list, each carrying the id, as many as the list holds with that id. |
| Roster.BlankName | app/assets/page.tsx:261-263 | The filter's test `!product.name || product.name.trim() === ""` holds exactly when every character of the name is whitespace; the empty name is included. |
| Roster.CountBlank | app/assets/page.tsx:261-265 | The count of blank-named products is positive exactly when some product has a blank name. |
| Roster.ValidateForSave | app/assets/page.tsx:254-268 | Once `handleSubmit` runs, saving is rejected with the name-required message, writing nothing, exactly when some product in any of the four categories has a blank name. Otherwise the write carries the roster unchanged. |
| AssetPage.ToggleMenu | app/assets/page.tsx:146-152 | Toggling closes the menu exactly when that product's menu is the open one, and otherwise opens that product's menu. The roster and the memo editor are unchanged. |
| AssetPage.ToggleMenuTwice | app/assets/page.tsx:146-152 | Toggling the same product twice restores the state exactly when no menu was open or that product's menu was already open. |
| AssetPage.CloseMenu | app/assets/page.tsx:155-157 | Closing leaves no menu open and changes nothing else. |
| AssetPage.OnAddProduct | app/assets/page.tsx:456 | The add button changes only the roster, and it changes it as `addProduct` does. |
| AssetPage.HandleDelete | app/assets/page.tsx:206-214 | The delete action leaves no product with that id in the category and closes the menu. The memo editor is unchanged. |
| AssetPage.StartMemoEdit | app/assets/page.tsx:217-220 | Starting a memo edit targets that product and closes the menu. The roster is unchanged. |
| AssetPage.CancelMemoEdit | app/assets/page.tsx:223-225 | Cancelling closes the editor and leaves the roster and the menu unchanged; in particular it does not restore an earlier memo. |
| AssetPage.OnMemoInput | app/assets/page.tsx:637-645 | Typing in the memo box stores the typed text as the memo of the products with that id, at once. Other products, other categories, the open menu and the editor are unchanged. |
| AssetPage.CancelKeepsTypedMemo | app/assets/page.tsx:223-225 | Typing a memo and then cancelling leaves the roster exactly as saving that memo would, with the typed text stored on the products with that id. |
| AssetPage.SaveMemo | app/assets/page.tsx:228-235 | Saving sets the memo of exactly the products with that id, changes no other product or category, and closes the editor. |
| AssetPage.DeleteMemo | app/assets/page.tsx:238-241 | Deleting sets the memo of those products to "", changes nothing else in the roster, and closes the editor. |
| AssetPage.MemoEditsKeepTotals | app/assets/page.tsx:228-241 | Saving or deleting a memo never changes the grand total. |
| AssetPage.OnNameInput | app/assets/page.tsx:505-509 | Typing a name changes only the name of the products with that id. |
| AssetPage.OnAmountInput | app/assets/page.tsx:556-573 | Typing into the amount field changes only the amount of the products with that id. The new amount is the one the parser reads from the typed text. |
| AssetPage.AmountInputOfDisplayIsStable | app/assets/page.tsx:551-573 | Re-entering the text the amount field shows stores the amount the product already had, with a missing amount becoming 0. |
| AssetPage.OnMaturityDatePicked | app/assets/page.tsx:523-532 | Picking a date stores its `YYYY-MM-DD` string. Clearing the picker stores an explicit `undefined`, modelled as no date. Only the products with that id change. |
| LoginForm.WellFormedEmailIffPattern | components/LoginForm.tsx:56-57 | `^[^\s@]+@[^\s@]+\.[^\s@]+$` accepts exactly the strings that meet all of these conditions: no whitespace, exactly one `@`, a non-empty part before the `@`, and a domain with a `.` that is neither its first nor its last character. |
| LoginForm.ValidateEmail | components/LoginForm.tsx:52-61 | The validator returns the required message exactly for "". It returns "" exactly for a non-empty string that matches the pattern, and the format message for every other non-empty string. |
| LoginForm.ValidatePassword | components/LoginForm.tsx:66-74 | The validator returns the required message exactly for "" and the length message exactly for 1–5 UTF-16 code units. It returns "" exactly from 6 code units on. |
| LoginForm.PasswordLengthBounds | components/LoginForm.tsx:70 | Six or more characters always pass, and one or two characters never pass. |
| LoginForm.ThreeAstralCharactersPass | components/LoginForm.tsx:70 | Three emoji pass the length check, because JavaScript counts six code units. |
| LoginForm.ValidatePasswordConfirm | components/LoginForm.tsx:79-87 | The confirmation returns the required message exactly for "", the mismatch message exactly for a non-empty value that differs from the password, and "" exactly when it equals the password. |
| LoginForm.GetErrorMessage | components/LoginForm.tsx:92-105 | Each of the eight listed codes maps to its message. Every other code, "" included, maps to the generic message; the table is a map, without the keys an object literal inherits. The result is never "". |
| LoginForm.GoogleSignInError | components/LoginForm.tsx:176-178 | The Google sign-in error is always the table's message. The `||` fallback to the Google-specific text is never chosen. |
| LoginForm.Submit | components/LoginForm.tsx:115-151 | Once `handleSubmit` runs, it marks email and password as touched, and the confirmation only in sign-up mode. The confirmation error is "" in sign-in mode. The auth call is made exactly when all three errors are empty. That happens exactly when the address matches the pattern, the password has at least 6 code units, and, in sign-up mode, the confirmation equals the password. The call is sign-up or sign-in by mode, with the entered address and password. |
| LoginForm.AuthFailed | components/LoginForm.tsx:152-156 | A failed call shows the message for its code, which is never "". Nothing else changes. |
| LoginForm.ErrorCode | components/LoginForm.tsx:154 | `err.code || ""` is "" exactly when the error has no code or an empty one, and is the code otherwise. |
| LoginForm.ToggleMode | components/LoginForm.tsx:560-573 | The toggle flips the mode. It clears all four errors and the confirmation, hides both passwords and untouches all three fields. It keeps the address and the password. |
| LoginForm.ToggleModeTwice | components/LoginForm.tsx:560-573 | Toggling twice returns to the original mode with a fresh form that keeps only the address and the password. A second round trip changes nothing further. |
| LoginForm.OnEmailChange | components/LoginForm.tsx:213-218 | Typing an address stores it. Once the field is touched the address is revalidated; before that the error is kept. Nothing else changes. |
| LoginForm.OnEmailBlur | components/LoginForm.tsx:219-222 | Leaving the address field touches it and validates it. |
| LoginForm.OnPasswordChangeAsWritten | components/LoginForm.tsx:255-266 | As written, typing a password stores it and revalidates it once touched, otherwise keeping its error. While the confirmation is touched and non-empty it is revalidated against the previous password; otherwise its error is kept. Nothing else changes. |
| LoginForm.StaleConfirmationCounterexample | components/LoginForm.tsx:255-266 | A concrete input after which the password equals the confirmation while "passwords do not match" is shown. |
| LoginForm.OnPasswordChange | components/LoginForm.tsx:255-266 | With the correction, typing a password stores it and revalidates it once touched, otherwise keeping its error. While the confirmation is touched and non-empty it is revalidated against the new password, so it is "" exactly when the two fields match; otherwise its error is kept. A current confirmation error stays current. Nothing else changes. |
| LoginForm.OnPasswordBlur | components/LoginForm.tsx:267-270 | Leaving the password field touches it and validates it. |
| LoginForm.OnConfirmChange | components/LoginForm.tsx:363-370 | Typing the confirmation stores it. Once it is touched it is revalidated against the current password; before that its error is kept. Nothing else changes. |
| LoginForm.OnConfirmBlur | components/LoginForm.tsx:371-376 | Leaving the confirmation touches it, and the error shown is then current. |
| Profile.NameEntry | app/settings/page.tsx:95-97 | The name entry is present exactly when the name is not all whitespace. Its value is the trimmed name, which is non-empty and neither starts nor ends with whitespace. |
| Profile.BuildProfile | app/settings/page.tsx:93-109 | The record has `name` exactly when the trimmed name is non-empty, holding the trimmed name. It has `gender` exactly when gender is non-empty, holding it unchanged. It has `birthDate` exactly when a date is picked, holding that date's `YYYY-MM-DD` string. No other keys exist. |
| Profile.BirthDateRoundTrip | app/settings/page.tsx:104-108 | The model's reference parser `Dates.ParseDate` recovers the picked date from the stored birth date. |
| Profile.BirthDateShape | app/settings/page.tsx:105-108 | For any date the getters can return, the stored string ends with two-digit month and day fields holding the picked month (1-based) and day. |
| Profile.NameStable | app/settings/page.tsx:95-97 | Submitting the stored name again stores the same name. |

## Findings

| source | as written | input that shows it | evidently intended | confidence | as-written member | corrected member |
|---|---|---|---|---|---|---|
| components/LoginForm.tsx:261-264 | The password field's change handler revalidates a touched, non-empty confirmation with `validatePasswordConfirm(passwordConfirm)`. That function compares against `password` from the render's closure, which is the value before this keystroke. | Sign-up mode, all fields touched, password `abcdef`, confirmation `abcdefg`. Typing `g` into the password makes the two fields equal, yet "passwords do not match" is shown. The reverse also happens: a password edited away from a matching confirmation keeps showing no error. | Compare the confirmation with the new password value. Submit revalidates from current state, so only the inline message is affected. | medium, not executed (depends on React's closure semantics) | LoginForm.OnPasswordChangeAsWritten, LoginForm.StaleConfirmationCounterexample | LoginForm.OnPasswordChange |

## Left out

- Persistence is left out: the document-store reads on load (`app/assets/page.tsx:98-136`, `app/settings/page.tsx:36-76`), the fetch-and-merge write on save (`app/assets/page.tsx:270-301`) and its `updatedAt` timestamp. These are foreign SDK calls. `Roster.ValidateForSave` stops at the decision to write the four lists; `WriteAssets` does not mean the write succeeds. In particular a cleared maturity date is stored as an explicit `undefined` (`app/assets/page.tsx:531`), which the model cannot tell apart from a missing key, and the default document-store client (`lib/firebase.ts:99`) may reject a document holding `undefined`.
- The authentication calls, the auth context (`lib/auth-context.tsx`) and the service set-up (`lib/firebase.ts`) are foreign SDK calls. `LoginForm.Submit` returns the request it would make, and `LoginForm.AuthFailed` takes the failed call's code as input.
- React plumbing is left out: the effects, the redirects for signed-out users, the loading and saving flags, the success banners, the click-outside listener that closes the menu, the show/hide-password buttons, and copy/paste blocking. This is event timing and markup, not logic a contract can state.
- Product ids come from `Date.now()` and `Math.random()` (`app/assets/page.tsx:162`). `Roster.AddProduct` takes the id as a parameter.
- AmountFormat.ParseAmount: amounts are unbounded `nat`. `Number(...)` loses precision above 2^53, and `toString()` switches to exponent notation at 10^21. Neither is modelled, so the round trip is stated for exact integers.
- LoginForm.GetErrorMessage: the message table is modelled as a map. In the source it is an object literal, so a code that names an `Object.prototype` property (`"constructor"`, `"toString"`, `"__proto__"`) finds an inherited function or object and skips the fallback. Sign-in failures never carry such codes, so the model returns the generic message for them.
- LoginForm.Submit and Roster.ValidateForSave model `handleSubmit` once the browser lets the submit through. Neither form sets `noValidate` (`components/LoginForm.tsx:199`, `app/assets/page.tsx:432`), so the browser first checks `required` on product names (`app/assets/page.tsx:511`), `required` on email and password (`components/LoginForm.tsx:223`, `components/LoginForm.tsx:280`), `required={isSignUp}` on the confirmation (`components/LoginForm.tsx:386`) and the HTML e-mail grammar of `type="email"` (`components/LoginForm.tsx:210`). An empty product name, for example, gets the browser's own message and `handleSubmit` never runs; an address such as `a@.b.c` passes the model's pattern but the browser refuses it. Browser constraint validation is not modelled.
- Roster.Product: a stored product without a `name` property (`!product.name` at `app/assets/page.tsx:262`) is not representable, because names are strings. The empty string covers the same check.
- Dates.DateParts: the model takes the year, month and day that JavaScript's `Date` getters return. It does not model the `Date` object or time zones. Reading stored date strings with `new Date(...)` (`app/settings/page.tsx:55`, `app/assets/page.tsx:486`) is library date parsing and is left out. It is not an inverse of `Dates.FormatDate`: it reads a date-only string as UTC midnight while the string was built from local-time getters, and for years outside 1000-9999 the strings `${year}` gives are not ISO date strings, so how `new Date(...)` reads them is implementation-defined. The round trips are stated for the model's own `Dates.ParseDate`.
- `app/page.tsx`, `app/layout.tsx`, `app/not-found.tsx`, `app/sitemap.ts` and `app/robots.ts` are static markup, metadata and route tables with no behaviour.
- Monthly trend ledgers, row reordering, monthly plans and annual snapshots are not part of this model. None of this logic appears in the files modelled here.

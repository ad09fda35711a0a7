# Car-wash checkout: a Dafny model

This project models the client-side core of a car-wash checkout web app.

- **Token session manager** (`src/auth.js`): an in-memory token cache backed by two storage keys, and a JWT expiry check with a 30-second margin. It also holds the single-flight refresh of the token pair and `fetchWithAuth`, which adds the bearer, refreshes an expired token before the call and retries once on 401/403.
- **Checkout provider** (`src/context/CheckoutContext.jsx`): the invoice payload for `/api/invoice/gettotalamount`, and `deepStripUndefined`, which prunes undefined members and empty containers. It also covers `applyDiscount`, `sumAmounts` and the derived totals that prefer server values.
- **Purchase summary** (`src/components/sections/PurchaseSummary.jsx`): the payment-gateway parameters and the extended-hash signature, which signs the non-empty, key-sorted values joined with `|`. It also has the terms guard on checkout and the coupon check.
- **Older checkout screen** (`src/App.jsx`): its form handlers, its own invoice builder and discount request, and `doRefresh`, a timer-driven rotation that works on storage alone.
- **Membership page** (`src/pages/membersip.jsx`): the membership catalogue, with its filter, default selection and totals fallback. It also checks coupons on the client: the upper-cased code lookup, expiry and used tests, fixed or percent discounts, and a clamped total.
- **Wash-book page** (`src/pages/membership.jsx`): the category chosen by the URL fragment, the three name filters (one of them is `/wash\s*book/i`), the list shown, the manual auto-selection and the subtotal.

JavaScript values are modelled by `JsValue.Value`. It covers undefined, null, booleans, integer numbers, NaN, strings, arrays and insertion-ordered objects. The module also defines truthiness, `??`, `?.`, `Number(...)`, `String(...)` and `+`. Plain objects are sequences of key/value pairs (`Records`), so for the non-numeric keys this code uses, key order, spread and `Object.keys` behave as in JavaScript. JavaScript lists integer-like keys first, in numeric order; `Records` does not, and the keys in this code are names such as `membershipId`, never integer-like.

Effects become parameters or results:

- Storage is a map inside `Auth.Session`.
- Every network call's outcome is an argument, and every request sent is part of the result.
- The clock, the JWT payload decoder, HMAC-SHA256, Base64 and date parsing are arguments.

The modules, one per file, are:

- Shared: `Wrappers`, `Seqs`, `JsText`, `Records`, `JsValue` and `KeySort`.
- Per source concern: `Auth`, `AuthFetch`, `PurchaseSummary`, `PayloadStrip`, `Invoice`, `CheckoutContext`, `App`, `MembershipPage` and `WashbookPage`.

Two behaviours of the code are easy to misread:

- The session manager's refresh reads the new tokens only from `data.data`. Only `doRefresh` in `src/App.jsx` falls back to top-level fields (`Auth.TopLevelTokensIgnored`, `App.TopLevelTokensAccepted`).
- The expiry check needs only a non-empty second `.`-segment; a third segment is not required (`Auth.TwoSegmentsSuffice`).

The two copies of `deepStripUndefined` differ only in how they exclude null from the empty-object test. `PayloadStrip.DroppedMeansEmpty` shows that both tests select the same values, so one `Strip` serves both builders.

## Model

| member | source | states |
|---|---|---|
| Auth.GetTokens | src/auth.js:12-25 | The cached pair if there is one. Otherwise the stored pair, when both stored values are non-empty, which is then cached. Otherwise null, with the session unchanged. |
| Auth.SetTokens | src/auth.js:31-35 | Caches the pair and writes both storage keys. Every other key and the refresh lock are unchanged. |
| Auth.ClearTokens | src/auth.js:40-44 | Empties the cache and removes both keys. Every other key and the lock are unchanged. |
| Auth.SetThenGet | src/auth.js:12-35 | After `setTokens(p)`, `getTokens()` returns exactly `p`. |
| Auth.ClearThenGet | src/auth.js:12-44 | After `clearTokens()`, `getTokens()` returns null. |
| Auth.GetTokensStable | src/auth.js:12-25 | A second `getTokens()` returns what the first did and changes nothing. |
| Auth.CoherentPreserved | src/auth.js:12-44 | When a cached pair equals the stored pair, get, set and clear all keep it that way. |
| Auth.CoherentReadMatchesStorage | src/auth.js:12-25 | In a coherent session, the pair handed out is the stored pair. |
| Auth.IsJwtExpired | src/auth.js:51-65 | A token with no second segment, an empty one, or an undecodable payload counts as not expired. It is expired only when its payload decodes. |
| Auth.ExpiryBoundary | src/auth.js:58-61 | With a numeric `exp`, the token is expired iff `now >= exp - 30`. It is still valid at `exp - 31` and expired at `exp - 29`. |
| Auth.MissingExpIsExpired | src/auth.js:58 | A payload without a numeric `exp` reads as `exp = 0`, so it is expired for any `now >= -30`. |
| Auth.ExpiryMonotone | src/auth.js:51-65 | A token that is expired at some time stays expired at every later time. |
| Auth.NoDotFailsOpen | src/auth.js:54-55 | A token without a `.` is never treated as expired, so the 401 path handles it. |
| Auth.TwoSegmentsSuffice | src/auth.js:54 | `header.payload` with no third segment already yields its payload segment. |
| Auth.StartRefresh | src/auth.js:72-83 | Joins a pending refresh. With no tokens, returns null without locking. Otherwise locks and issues one request carrying the key, the refresh token and the access token. |
| Auth.SettleRefresh | src/auth.js:84-126 | Stores and returns a non-empty nested pair on an ok, parsed answer. A non-ok status, missing `data.data` tokens or a throw clears the tokens. The lock is released on every path. |
| Auth.SettleFailureForgets | src/auth.js:96-121 | After a failed refresh, `getTokens()` returns null and the access key is gone from storage. |
| Auth.SettleSuccessVisible | src/auth.js:114-117 | After a successful refresh, `getTokens()` returns the new pair. |
| Auth.TopLevelTokensIgnored | src/auth.js:105-111 | An ok answer with tokens only at the top level is a failure: the session manager reads `data.data` only. |
| Auth.SettleCoherent | src/auth.js:72-129 | Starting and settling a refresh keep the cache coherent with storage. |
| Auth.PendingAllJoin | src/auth.js:74 | While a refresh is pending, any number of further callers join it and change nothing. |
| Auth.NoTokensNeverLock | src/auth.js:76-77 | Without tokens, repeated refresh attempts never take the lock and keep returning null. |
| Auth.SingleFlight | src/auth.js:72-83 | Any burst of concurrent refresh calls issues at most one request, and none if one was already pending. |
| Auth.StormSharesResult | src/auth.js:74-128 | All callers of one burst receive the same result. |
| Auth.Refresh | src/auth.js:72-129 | One refresh as a caller sees it: at most one request, the lock released, and a returned pair that is what `getTokens()` now gives. |
| AuthFetch.BaseHeadersLookup | src/auth.js:139-145 | The merged headers carry the caller's `Content-Type` if one is given, else JSON. Every other caller header is kept. |
| AuthFetch.WithBearer | src/auth.js:154-157 | Sets `Authorization: Bearer <access>` only when a non-empty access token is present. Every other header is unchanged. |
| AuthFetch.Prepare | src/auth.js:147-152 | The pre-flight step issues at most one refresh request. |
| AuthFetch.FetchWithAuth | src/auth.js:138-171 | Sends one or two requests. The first carries the merged headers with `Authorization: Bearer <access>` written last, using the pair after the proactive refresh of an expired token (no `Authorization` without one). It retries only after 401/403, carrying the renewed bearer, and reports the last status. No header other than `Authorization` differs from the merged headers. |
| AuthFetch.RetryIff | src/auth.js:161-168 | There is a second request iff the first status is 401/403 and the refresh yields a pair. |
| AuthFetch.NoRetryOtherwise | src/auth.js:161-170 | Any other first status is returned as it is, after exactly one request. |
| AuthFetch.ProactiveRefresh | src/auth.js:147-152 | An expired, non-empty access token is refreshed before the call. Otherwise the cached pair is used and no refresh is requested. |
| AuthFetch.SentContentType | src/auth.js:139-145 | Every request sent carries the caller's `Content-Type` or the JSON default. |
| AuthFetch.ExpiredTokenScenario | src/auth.js:138-171 | With an expired stored token, one call refreshes first and sends the new bearer once. The new pair is then cached. |
| AuthFetch.RepeatedUnauthorizedScenario | src/auth.js:161-170 | A second 401 after a successful refresh is returned without a third request. |
| PurchaseSummary.CreateSignature | src/components/sections/PurchaseSummary.jsx:51-63 | The HMAC of the signed values, key-sorted and joined with `\|`, then Base64-encoded. |
| PurchaseSummary.SignedKeysExact | src/components/sections/PurchaseSummary.jsx:52-55 | The signed keys are strictly sorted. They are exactly the keys that are not `hashExtended` and do not hold `""`. |
| PurchaseSummary.CanonicalDependsOnlyOnSignedContent | src/components/sections/PurchaseSummary.jsx:52-60 | Two parameter sets that agree on their signed entries produce the same signed string. |
| PurchaseSummary.SignatureIgnoresInsertionOrder | src/components/sections/PurchaseSummary.jsx:53-55 | Reordering the parameters does not change the signature. |
| PurchaseSummary.SignatureIgnoresHashField | src/components/sections/PurchaseSummary.jsx:52-54 | The value of `hashExtended` never affects the signature. |
| PurchaseSummary.SignatureIgnoresEmptyValues | src/components/sections/PurchaseSummary.jsx:54 | Setting an unsigned field to `""`, or adding it as `""`, does not change the signature. |
| PurchaseSummary.CanonicalStringSplits | src/components/sections/PurchaseSummary.jsx:57-60 | If no value contains `\|`, splitting the signed string on `\|` gives back the signed values in key order. |
| PurchaseSummary.KeyNamesNotSigned | src/components/sections/PurchaseSummary.jsx:57-60 | Two concrete cases. A lone signed key contributes only its value, so its name never appears in the string. A numeric 0 is signed while an empty string is not. Key names still decide the order of the values, so renaming a key in a larger set can reorder them. |
| PurchaseSummary.BuildPaymentParams | src/components/sections/PurchaseSummary.jsx:64-97 | The keys are the 15 base fields in literal order, followed by the three recurring fields exactly for a package with a truthy `membershipId`. |
| PurchaseSummary.PaymentParamsDistinct | src/components/sections/PurchaseSummary.jsx:66-97 | The payment parameters never repeat a key. |
| PurchaseSummary.BaseFieldsPresent | src/components/sections/PurchaseSummary.jsx:67-83 | Every base field is always present. |
| PurchaseSummary.FixedFieldValues | src/components/sections/PurchaseSummary.jsx:67-83 | `hash_algorithm` is `HMACSHA256`, `hashExtended` starts as `""`, and `chargetotal` is the formatted total. |
| PurchaseSummary.RecurringFieldsIff | src/components/sections/PurchaseSummary.jsx:64-94 | Each recurring field is present iff the selection is a membership. |
| PurchaseSummary.RecurringFieldValues | src/components/sections/PurchaseSummary.jsx:85-94 | For a membership, the plan is 12 installments of 1 per month. |
| PurchaseSummary.SubmittedFields | src/components/sections/PurchaseSummary.jsx:100-105 | The posted fields are the parameters with `hashExtended` set to their signature. Every other field is kept. |
| PurchaseSummary.SubmittedFieldsVerify | src/components/sections/PurchaseSummary.jsx:100-105 | The posted `hashExtended` equals the signature of the posted fields themselves, and the field order is unchanged. |
| PurchaseSummary.SubmissionVerifies | src/components/sections/PurchaseSummary.jsx:99-116 | The same holds for every parameter set the component builds. |
| PurchaseSummary.DefaultEmptyFieldsUnsigned | src/components/sections/PurchaseSummary.jsx:23-54 | With the default props, `paymentMethod`, `oid` and `transactionNotificationURL` are posted but not signed. |
| PurchaseSummary.EmptyFieldUnsigned | src/components/sections/PurchaseSummary.jsx:54 | Any field holding `""` is left out of the signature. |
| PurchaseSummary.HandleCheckout | src/components/sections/PurchaseSummary.jsx:118-132 | Submits iff the terms are accepted and the callback neither throws nor returns exactly `false`. |
| PurchaseSummary.OnlyFalseVetoes | src/components/sections/PurchaseSummary.jsx:125 | Other falsy callback results (null, 0, `""`, undefined) do not stop the submission. |
| PurchaseSummary.ValidateCoupon | src/components/sections/PurchaseSummary.jsx:135-158 | Valid iff the coupon is unexpired (no date, or a date not before now) and unused. The error is empty iff valid, the expiry message comes before the used message. |
| KeySort.SortSorted | src/components/sections/PurchaseSummary.jsx:55 | `sort()` yields keys in ascending code order. |
| KeySort.SortStrict | src/components/sections/PurchaseSummary.jsx:53-55 | Sorting distinct keys gives a strictly increasing sequence. |
| PayloadStrip.DroppedMeansEmpty | src/context/CheckoutContext.jsx:216-221 | The provider's drop test and the older screen's (src/App.jsx:269-274) both hold exactly for undefined and for key-less objects and arrays. |
| PayloadStrip.Strip | src/context/CheckoutContext.jsx:212-226 | Stripping keeps a value's kind, including undefined, and leaves scalars alone. |
| PayloadStrip.StripIsClean | src/context/CheckoutContext.jsx:212-226 | A stripped value has no undefined member and no empty container anywhere inside it. |
| PayloadStrip.StripFixedIffClean | src/context/CheckoutContext.jsx:212-226 | Stripping changes a value iff it is not already clean. |
| PayloadStrip.StripIdempotent | src/context/CheckoutContext.jsx:212-226 | Stripping twice is stripping once. |
| PayloadStrip.StripFieldsKeysFrom | src/context/CheckoutContext.jsx:218-223 | A stripped object has no key its source lacked. |
| PayloadStrip.StripFieldsLookup | src/context/CheckoutContext.jsx:219-222 | A member survives with its stripped value iff that value is neither undefined nor empty. |
| PayloadStrip.ScalarMemberKept | src/context/CheckoutContext.jsx:219-222 | A scalar member, null included, is kept as it is. |
| PayloadStrip.SurvivingMemberKeepsObject | src/context/CheckoutContext.jsx:219-223 | An object with one surviving member is not dropped itself. |
| PayloadStrip.EmptyCascade | src/context/CheckoutContext.jsx:213-223 | An object whose only content is an array of undefined collapses to `{}`. |
| Invoice.RawInvoice | src/context/CheckoutContext.jsx:32-88 | The 24 payload keys in literal order, each holding the value the literal computes. |
| Invoice.ServiceSaleList | src/context/CheckoutContext.jsx:53-62 | One entry per selected service, in order, and `[]` for a non-array. |
| Invoice.PayloadKeysFromLiteral | src/context/CheckoutContext.jsx:32-91 | Every key of the stripped payload is a key of the literal. |
| Invoice.AlwaysEmptyListsAbsent | src/context/CheckoutContext.jsx:70-91 | The five always-empty lists never reach the server. |
| Invoice.TotalAmountSent | src/context/CheckoutContext.jsx:39 | `totalAmount: 0` is always sent, because 0 is not stripped. |
| Invoice.StatusSent | src/context/CheckoutContext.jsx:44 | `status: "draft"` is always sent. |
| Invoice.NotesSent | src/context/CheckoutContext.jsx:48 | `notes: ""` is always sent, because the strip keeps empty strings. |
| Invoice.ScalarSent | src/context/CheckoutContext.jsx:32-50 | Any scalar member of the literal is sent unchanged. |
| Invoice.DiscountEntryIff | src/context/CheckoutContext.jsx:77-87 | The code entry is sent iff the promo is non-empty, and it carries the promo as `instanceId`. |
| Invoice.CustomerDataIff | src/context/CheckoutContext.jsx:35 | For a scalar customer id (not an array or object), `customerData: {customerId}` is sent iff the id is truthy. |
| Invoice.VehicleDataIff | src/context/CheckoutContext.jsx:36 | For a scalar vehicle id (not an array or object), `vehicleData: {vehicleId}` is sent iff the id is truthy. |
| Invoice.ServiceEntryAmount | src/context/CheckoutContext.jsx:56 | Each entry's amount is `Number(s.amount ?? 0)`. |
| Invoice.ServiceEntriesKept | src/context/CheckoutContext.jsx:53-91 | No service entry is stripped away, because each has scalar members. |
| Invoice.ServiceSaleListSent | src/context/CheckoutContext.jsx:53-62 | A non-empty service array is sent as its stripped entries. |
| Invoice.ServiceSaleListAbsent | src/context/CheckoutContext.jsx:53-91 | No list is sent for a non-array or an empty selection. |
| Invoice.MembershipListSent | src/context/CheckoutContext.jsx:65-67 | The membership list is sent iff the builder produced an entry, and it holds that entry. |
| CheckoutContext.BuildInvoicePayload | src/context/CheckoutContext.jsx:28-92 | A payload exists iff every selected service can be read. Mapping a null service throws. |
| CheckoutContext.PayloadDiscountIff | src/context/CheckoutContext.jsx:29-87 | A discount entry is sent iff the coupon is not all whitespace, and it carries the trimmed code. |
| CheckoutContext.PromoHasNoOuterSpace | src/context/CheckoutContext.jsx:29 | The promo sent never starts or ends with whitespace. |
| CheckoutContext.PayloadMembershipIff | src/context/CheckoutContext.jsx:65-67 | `membershipSaleList` is sent iff the membership id is truthy. |
| CheckoutContext.SiteIdSent | src/context/CheckoutContext.jsx:34 | The site id is sent as `Number(siteId) \|\| siteId`. |
| CheckoutContext.NumericSiteIdSent | src/context/CheckoutContext.jsx:34 | A non-zero numeric string is sent as that number. |
| CheckoutContext.ZeroSiteIdSentAsString | src/context/CheckoutContext.jsx:34 | `"0"` converts to the falsy 0, so it is sent as the string `"0"`. |
| CheckoutContext.SumAmounts | src/context/CheckoutContext.jsx:203-205 | A falsy list sums to 0. Otherwise the reduce returns a number (NaN included) iff the list is an array with no null or undefined element, and throws otherwise. |
| CheckoutContext.SumFromMatchesTotal | src/context/CheckoutContext.jsx:204 | The fold is a number iff every amount is. It then equals the start value plus the arithmetic total. |
| CheckoutContext.SumAmountsIsTotal | src/context/CheckoutContext.jsx:203-205 | `sumAmounts` of integer amounts is their arithmetic total, and NaN as soon as one amount is not numeric. |
| CheckoutContext.StringAmountCounts | src/context/CheckoutContext.jsx:204 | A numeric-string amount counts as its number. |
| CheckoutContext.DerivedTotals | src/context/CheckoutContext.jsx:157-165 | Field by field: each of subtotal, discounts, tax and total is the server value when that value is not nullish, 0 included. A nullish subtotal or total falls back to the local sum, and a nullish discount or tax to 0. The totals are missing only when a fallback is needed and the local sum throws. |
| CheckoutContext.ZeroSubtotalKeptTotalFallsBack | src/context/CheckoutContext.jsx:158-163 | A server subtotal of 0 without a server total: the 0 is shown and the total is the local sum. |
| CheckoutContext.ServerValueWins | src/context/CheckoutContext.jsx:158-163 | Non-nullish server subtotal and total are shown as they are, even 0. |
| CheckoutContext.NoServerTotalsFallBack | src/context/CheckoutContext.jsx:158-163 | Without server totals, subtotal and total are the local sum, and discounts and tax are 0. |
| CheckoutContext.LocalTotalIsSum | src/context/CheckoutContext.jsx:160-204 | The local total is the service sum plus the membership price, for integer amounts. |
| CheckoutContext.StringPriceConcatenates | src/context/CheckoutContext.jsx:160-163 | A string membership price is concatenated, not added: `0 + "25"` is `"025"`. |
| CheckoutContext.ApplyDiscount | src/context/CheckoutContext.jsx:98-149 | An empty trimmed promo changes nothing and sends nothing. Otherwise the request ends with `applying` false. |
| CheckoutContext.ApplySendsIff | src/context/CheckoutContext.jsx:99-120 | A request goes out iff the promo, the token, the key and the site are all present and the services can be read. |
| CheckoutContext.ApplyRequestContent | src/context/CheckoutContext.jsx:120-130 | The request is posted to `/api/invoice/gettotalamount` with `Bearer <token>` and the built payload. |
| CheckoutContext.ApplyKeepsSelection | src/context/CheckoutContext.jsx:98-149 | Applying a discount never changes the key, site, customer, vehicle, selections or coupon. |
| CheckoutContext.ApplyStoresAcceptedBody | src/context/CheckoutContext.jsx:132-143 | The totals become the response body iff a request was sent and answered ok with JSON. Otherwise they are kept. |
| CheckoutContext.AppliedTotalsShown | src/context/CheckoutContext.jsx:143-163 | An accepted `{data: ...}` answer's subtotal and total are what the derived totals then show. |
| CheckoutContext.ClearTotals | src/context/CheckoutContext.jsx:154 | Only the stored totals change, and they become null. |
| CheckoutContext.ClearedTotalsFallBack | src/context/CheckoutContext.jsx:154-165 | After clearing, the derived totals are the local fallback. |
| App.InputChange | src/App.jsx:48-51 | The named field takes the new value. Every other field is unchanged. |
| App.Toggle | src/App.jsx:52-54 | The named field becomes the boolean negation of its truthiness. Every other field is unchanged. |
| App.ChangeKeepsLayout | src/App.jsx:48-54 | Changing or toggling an existing field keeps the form's keys in order. |
| App.ToggleTwice | src/App.jsx:52-54 | Toggling twice restores a boolean field. Any other value comes back as its truthiness. |
| App.ToggleMissingField | src/App.jsx:52-54 | Toggling a field the form lacks appends it as `true`. |
| App.BuildInvoicePayload | src/App.jsx:194-262 | A payload exists iff every service can be read. |
| App.AppMembershipIff | src/App.jsx:235-237 | `membershipSaleList` is sent iff the membership is truthy, whatever its id. |
| App.AppDiscountIff | src/App.jsx:246-258 | The code entry is sent iff the promo is non-empty, and it carries the promo. |
| App.MembershipTestsDiverge | src/App.jsx:235-237 | For `{membershipId: 0}` this builder sends a membership entry. The provider's builder (src/context/CheckoutContext.jsx:65-67) sends none. |
| App.ApplyDiscount | src/App.jsx:106-158 | The only state change is `loading` ending false, because the response is only logged. |
| App.AppSendsIff | src/App.jsx:112-124 | A request goes out iff the promo is non-empty, a site is chosen and the services can be read. No token is required. |
| App.AppRequestBody | src/App.jsx:124-141 | The body is this screen's payload for the trimmed promo, the fallback key and the converted site. |
| App.MissingTokenSentAsNull | src/App.jsx:110-139 | Without a stored token, the request still goes out with `Authorization: Bearer null`. |
| App.BlankSiteSentAsString | src/App.jsx:118-126 | A blank site id passes the guard, converts to 0, and so is sent as the blank string itself. |
| App.DoRefresh | src/App.jsx:284-319 | No request unless both stored tokens are non-empty. A failure changes nothing. A success writes both keys to storage only, never to the session manager's cache. |
| App.DoRefreshSucceedsIff | src/App.jsx:298-314 | A rotation succeeds iff the answer is ok and the nested-else-top-level access and refresh tokens are both non-empty. |
| App.TopLevelTokensAccepted | src/App.jsx:304-310 | Top-level tokens rotate here, while the session manager (src/auth.js:105-111) rejects the same answer. |
| App.NestedEmptyDoesNotFallBack | src/App.jsx:304-306 | A nested `""` is not nullish, so it is kept and the rotation fails, even with good top-level tokens. |
| App.FailureKeepsStorage | src/App.jsx:299-318 | A failed rotation keeps the stored pair, where the session manager's failure (src/auth.js:96-121) removes it. |
| App.StaleCacheAfterRotation | src/App.jsx:307-310 | After a rotation, a session manager that had cached the old pair still returns it from `getTokens()` (src/auth.js:14). |
| MembershipPage.AmountOf | src/pages/membersip.jsx:68-117 | `Number(v \|\| 0)`: a falsy value gives 0, and a number is itself. |
| MembershipPage.FilteredPackages | src/pages/membersip.jsx:51-52 | Exactly the packages whose name matches `/membership/i`, from the list. A null element throws. |
| MembershipPage.FilteredInOrder | src/pages/membersip.jsx:52 | The filter keeps the server's order. |
| MembershipPage.ListedIffNameMentionsMembership | src/pages/membersip.jsx:52 | A package is listed iff its name contains "membership" in any letter case. |
| MembershipPage.SelectedItem | src/pages/membersip.jsx:62-65 | The first package whose id string equals the selection's string, or null iff there is none. |
| MembershipPage.DefaultSelection | src/pages/membersip.jsx:57-60 | Something is selected iff the list is non-empty. |
| MembershipPage.DefaultSelectsFirst | src/pages/membersip.jsx:57-65 | The default selection resolves to the first listed package, or to none. |
| MembershipPage.ShownTotals | src/pages/membersip.jsx:67-72 | Server totals are shown when present. Otherwise the subtotal is the selected price, and discounts and tax are 0. |
| MembershipPage.FallbackTotal | src/pages/membersip.jsx:68-72 | The fallback total is the price clamped at 0, and all zeros without a selection. |
| MembershipPage.Choose | src/pages/membersip.jsx:172-175 | Choosing a package selects its id and clears the server totals. |
| MembershipPage.ChooseShowsPrice | src/pages/membersip.jsx:62-175 | After a choice, the first package with the chosen id string is selected and its price is the subtotal shown. When the id strings in the list are distinct, that package is the chosen one. |
| MembershipPage.DistinctIdsSelectChosen | src/pages/membersip.jsx:62-65 | When no two packages share an id string, selecting a package's id selects exactly that package. |
| MembershipPage.PromoIgnoresCase | src/pages/membersip.jsx:75 | The typed code's letter case does not matter. |
| MembershipPage.FindCoupon | src/pages/membersip.jsx:98-100 | Finds the first coupon whose upper-cased code equals the promo. A null entry met first throws. Not found iff no entry matches. |
| MembershipPage.Discount | src/pages/membersip.jsx:115-126 | Percent coupons give `sub * val / 100`. Fixed and unknown types give `min(val, sub)`. NaN iff an input is NaN. |
| MembershipPage.PercentWithinPrice | src/pages/membersip.jsx:120-121 | A percent coupon of at most 100 never discounts more than the price. |
| MembershipPage.CouponTotals | src/pages/membersip.jsx:128-135 | The totals record the subtotal, the discount and tax 0. The total is never negative. |
| MembershipPage.TotalIsRemainder | src/pages/membersip.jsx:128 | When the discount fits in the price, the total is the remainder. |
| MembershipPage.LargeFixedCouponZeroes | src/pages/membersip.jsx:122-128 | A fixed coupon worth at least the price discounts all of it and totals 0. |
| MembershipPage.ApplyCoupon | src/pages/membersip.jsx:74-141 | Stops, in order, on an empty code, a missing site, no selection, or a failed fetch. |
| MembershipPage.AcceptedIff | src/pages/membersip.jsx:74-113 | A coupon is accepted iff the guards pass, a matching coupon is found, and it is unexpired and unused. |
| MembershipPage.AcceptedTotals | src/pages/membersip.jsx:115-135 | Accepted totals are the selected price, the typed discount, tax 0, and a non-negative total. |
| MembershipPage.ExpiryBoundaryStricter | src/pages/membersip.jsx:108 | A coupon expiring exactly now is rejected here. `PurchaseSummary.ValidateCoupon` (src/components/sections/PurchaseSummary.jsx:145) accepts it. |
| MembershipPage.AcceptedTotalsShown | src/pages/membersip.jsx:69-135 | The totals of an accepted coupon are what the page shows. |
| WashbookPage.CategoryOf | src/pages/membership.jsx:13-17 | Express iff the fragment contains the express anchor in any case. Manual iff it contains the manual anchor but not the express one. Otherwise memberships. |
| WashbookPage.WashBookAtIff | src/pages/membership.jsx:59 | Greedy whitespace skipping finds "book" iff some whitespace run after "wash" leads to it. |
| WashbookPage.SearchWashBookSound | src/pages/membership.jsx:59 | The left-to-right search from an offset finds the pattern iff it occurs at or after that offset. |
| WashbookPage.ContainsWashBookIff | src/pages/membership.jsx:59 | `/wash\s*book/i` matches iff "wash", a whitespace run and "book" occur in any case. |
| WashbookPage.ListForView | src/pages/membership.jsx:50-64 | The category's list is exactly the items passing its filter. A null item throws whatever the category. |
| WashbookPage.ListInOrder | src/pages/membership.jsx:50-61 | Every list keeps the server's order. |
| WashbookPage.MembershipsListIff | src/pages/membership.jsx:58-61 | The memberships view lists exactly the items whose name has "wash", whitespace, "book". |
| WashbookPage.SelectedItem | src/pages/membership.jsx:73-76 | Nothing is selected outside the manual view. In it, the first entry whose id string matches, or none iff there is no match. |
| WashbookPage.AutoSelect | src/pages/membership.jsx:67-71 | The selection changes only in the manual view, with a non-empty list and a falsy selection. |
| WashbookPage.AutoSelectPicksFirst | src/pages/membership.jsx:67-76 | The effect selects the first manual wash, and running it again changes nothing. |
| WashbookPage.Subtotal | src/pages/membership.jsx:78-82 | Always a number. It is 0 outside the manual view or without a selection. |
| WashbookPage.OnlyManualHasSubtotal | src/pages/membership.jsx:73-82 | Outside the manual view the subtotal is 0, whatever the selection. |
| WashbookPage.ManualSubtotalIsPrice | src/pages/membership.jsx:79 | A manual selection with a numeric price shows that price. |

## Left out

- JsText.StringToNumber: reads only optionally signed decimal integers (surrounding whitespace trimmed, blank as 0). `Number("12.50")`, exponents, hex and `"Infinity"` give NaN in the model, where JavaScript gives a number.
- JsValue.Value: numbers are the constructor `Num(n: int)`, so there are no fractions, no Infinity and no `-0`, and sums never round.
- CheckoutContext.SumAmounts: weaker than the source for decimal amounts. A service amount such as `"12.50"` or 12.5 is NaN or cannot be written, so the sum promised is the sum of integer amounts only.
- CheckoutContext.AmountOf: affected the same way.
- Invoice.ServiceEntry: the `amount` sent is affected the same way.
- MembershipPage.Discount: amounts on the membership page are reals. `toFixed(2)` rounding of the discount and floating-point error are not modelled.
- MembershipPage.AmountOf: non-numeric strings are NaN, and numeric strings follow `JsText.StringToNumber`.
- Auth.IsJwtExpired: `exp` is an integer number of seconds, and the clock is an integer argument. Fractional `exp` values and `Date.now()` are not modelled.
- Auth.TokenFields: holds strings only. A truthy non-string token, which JavaScript would store via `String(...)`, cannot be represented.
- KeySort.StrLt: compares Unicode code points, while `Array.prototype.sort` compares UTF-16 code units. The two orders differ only for characters outside the Basic Multilingual Plane.
- JsText.ToUpper: ASCII letters only. Unicode case mapping of coupon codes by `toUpperCase` (for example `"ß"` becoming `"SS"`) is not modelled. The case-insensitive regular expressions need nothing more: their patterns are ASCII, and a non-unicode `/i` never folds a non-ASCII character onto an ASCII one.
- PurchaseSummary.DefaultConfig: `chargetotal` (`Number(total).toFixed(2)`) and `txndatetime` (moment-timezone formatting) are taken as preformatted strings.
- PurchaseSummary.CreateSignature: HMAC-SHA256 and Base64 are function arguments, not implementations.
- Auth.IsJwtExpired: the JWT payload decoder (`atob` plus `JSON.parse`) is a function argument.
- MembershipPage.ExpiryOk: `new Date(...).getTime()` is a date-parsing argument.
- Auth.Refresh: the asynchronous refresh is split into a start event (taking the lock) and a settle event (the answer). Interleavings are the bursts of starts that `Auth.StartMany` describes, not arbitrary schedules.
- Logging (`console.*`) is dropped everywhere.
- JSON serialisation of request bodies is dropped, as are the `fetch` options other than URL, headers and body.
- `scheduleTokenRefresh` (the 14-minute timer in src/App.jsx) is left out; `App.DoRefresh` models one timer tick.
- The screen's mount effect (`AuthenticateUser`, the sites fetch, `selectedSite`) is I/O and display only.
- The catalogue fetches of both pages are I/O. The pages start from the fetched item list.
- `useCheckout` and the React context plumbing are left out, as are rendering, DOM form submission and the UI-only handlers (`handleCheckout` logging, the wash-book page's `handleApplyCoupon`, which only logs).
- The Netlify functions, routing and layout components are not part of this model.
- AuthFetch.FetchWithAuth: a rejected `fetch` (a network error) is not modelled. Each send's outcome is a status, so the rejection that reaches the caller, after a refresh may already have rotated or cleared the tokens, cannot be expressed.
- App.PromoOf: a truthy non-string coupon value is modelled as a throw that sends nothing. That matches `trim` being undefined on it.

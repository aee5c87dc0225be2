# SSPL tournament registration: a verified model of its core

The SSPL registration app takes a player's registration form with a photo and a payment
screenshot. It compresses both images under 1 MiB and reads the screenshot's text by OCR. It
accepts the registration when the digits of that text, read together, contain "900". So
"₹1,900" and "ref 4590012" also pass. Administrators sign in with configured credentials,
review and approve submissions, and export them to a spreadsheet.

This project models the decision logic of that app in Dafny and proves what it promises:

- `payment_validation.dfy` is the strict payment validator. It lower-cases the OCR text and
  substitutes glyphs. It extracts candidate amounts in two ordered `exec` passes, modelled as
  loops proved against a leftmost-greedy scan. It tries the allowed amounts 900 and 7900 in
  order against four rules, tests for the payee's name, and builds a summary.
- `register.dfy` is the registration endpoint:
  - file-name sanitising and storage keys;
  - the image test;
  - the two-loop JPEG compression ladder against 1 MiB, with the encoder as a parameter;
  - the route's own amount check;
  - the reading of the OCR reply;
  - the early-return chain of `POST`, which answers 400, 413, 422, 201 or 500.
- `dashboard.dfy` is the admin dashboard.
  - The class `DashboardState` holds the four state fields the handlers update.
  - The two derived lists are the review list and the merged, newest-first successful list.
  - The tab counts are the lengths of those lists.
- `submissions_table.dfy` covers the table's value formatting, the export rows, the guard on
  an empty download and the record-count caption.
- `registration_status.dfy` is the capacity answer of the status endpoint.
- `signed_url.dfy` is the key-safety test and the status order of the signed-URL endpoint.
- `auth.dfy` covers the credentials with their fallbacks and the login check. It also builds
  the session token: Base64 (section 4 of RFC 4648) of the UTF-8 bytes (section 3 of RFC 3629)
  of "username:password". Strict decoders invert both codecs, so a token identifies exactly
  one "username:password" text.
- `middleware.dfy` is the guard in front of the `/admin` pages.
- `text.dfy`, `regex.dfy` and `wrappers.dfy` are shared helpers.
  - `text.dfy` holds character classes, ASCII lower-casing, trimming, searching and number
    formatting. Its whitespace class is JavaScript's full `\s` set, which `trim` also strips.
    Its letters and digits are ASCII.
  - `regex.dfy` is a small pattern language that stands in for the regular expressions used
    with `test()`. Each pattern's meaning is the set of spans it matches.
  - `wrappers.dfy` holds `Option` and `Result`.

The source is JavaScript: `undefined` and `null` become `None` (or `Null` for JSON values), and
a thrown error becomes a `Failure` or an `Option` holding its message.

## Model

Source paths are relative to the repository root.

| member | source | states |
|---|---|---|
| PaymentValidation.NormalizeText | lib/paymentValidation.js:5-8 | A missing text becomes ""; any other text becomes its lower-cased form. |
| PaymentValidation.ReplaceAmbiguousCharacters | lib/paymentValidation.js:10-12 | Length is preserved. Every `o` becomes `0` and every `$` becomes `s`, and nothing else changes. So no `o` and no `$` is left. |
| PaymentValidation.AmountAndTotalKeywordsAreDead | lib/paymentValidation.js:10-12 | After the substitution, neither "amount" nor "total" can occur. These keyword alternatives of the extraction regex can therefore never match. |
| PaymentValidation.PushAllMatches | lib/paymentValidation.js:16-26 | One `exec` loop from `lastIndex` 0 appends the numbers of all leftmost matches, in the order the scan visits them. |
| PaymentValidation.ExtractCandidateAmounts | lib/paymentValidation.js:14-38 | The keyworded amounts come first, in text order, then every bare number; duplicates are kept. |
| PaymentValidation.Exec | lib/paymentValidation.js:16-35 | The match returned is the leftmost one at or after `lastIndex`: it is the match at its own start, and no earlier position starts one. `None` means no position from `lastIndex` on starts a match. |
| PaymentValidation.ScanVisitsMatches | lib/paymentValidation.js:16-35 | Every match a loop visits is the leftmost-greedy match at its own start. |
| PaymentValidation.ScanInTextOrder | lib/paymentValidation.js:16-35 | The visited matches do not overlap and come in text order. |
| PaymentValidation.ScanEmptyIff | lib/paymentValidation.js:16-35 | A loop finds nothing exactly when no position of the text starts a match. |
| PaymentValidation.BareValuesAreSmallWholeNumbers | lib/paymentValidation.js:28-35 | Every bare candidate is a whole number below one million, because it has two to six digits. |
| PaymentValidation.SpelledOutOnlyFor900 | lib/paymentValidation.js:44-48 | The spelled-out rule fires only for the amount 900. |
| PaymentValidation.HitTable | lib/paymentValidation.js:76-100 | Entry k records which rules fire for the k-th amount tried. |
| PaymentValidation.FirstHitFrom | lib/paymentValidation.js:76-113 | Returns the index of the first amount for which some rule fires: every earlier amount hits no rule. It returns the length when no amount hits. |
| PaymentValidation.FirstHitAt | lib/paymentValidation.js:102-112 | An amount that hits, with no earlier amount hitting, is the one the loop stops at (`break`). |
| PaymentValidation.ReasonsOfRanked | lib/paymentValidation.js:82-100 | One amount's tags are amount-rule tags. Each appears at most once, in the fixed order currency_context, numeric_pattern, numeric_amount, spelled_out. |
| PaymentValidation.ReasonsOfMembers | lib/paymentValidation.js:82-100 | A tag is collected exactly when its rule fires. |
| PaymentValidation.ReasonsOfEmptyIff | lib/paymentValidation.js:102 | An amount collects no tag exactly when none of its four rules fires. |
| PaymentValidation.DecideMatched | lib/paymentValidation.js:102-107 | `matched` holds exactly when an amount won and the payee was detected. A match ends its reasons with payee_name. |
| PaymentValidation.DecideWinner | lib/paymentValidation.js:76-113 | No amount wins exactly when none hits. Otherwise the first amount that hits wins, with its own tags followed by the payee tag. |
| PaymentValidation.DecideReasonsShape | lib/paymentValidation.js:102-119 | Reasons are in rank order with no repeats, and only the last one is a payee tag. missing_payee_name occurs exactly once without the payee and never with it. |
| PaymentValidation.DecideTwo | lib/paymentValidation.js:76-113 | With two amounts: the first wins whenever it hits, and the second only when the first does not. Later amounts are not examined. |
| PaymentValidation.AllowedHitTable | lib/paymentValidation.js:1 | The amounts are tried in the order 900, then 7900. |
| PaymentValidation.SummarizeEmpty | lib/paymentValidation.js:55-65 | A missing or empty text gives a summary that is not matched and has no reasons, no amounts, no matched amount and no payee. |
| PaymentValidation.SummarizeEvidence | lib/paymentValidation.js:67-74 | The payee test reads the lower-cased text without substitution. The amounts come from the substituted text. |
| PaymentValidation.SummaryOfDecision | lib/paymentValidation.js:40-42 | 900 wins iff a rule fires for it; 7900 wins iff none fires for 900 and one fires for 7900. numeric_amount is present iff some candidate lies within 0.01 of the winner. spelled_out appears only when 900 won. |
| PaymentValidation.SummarizeDecision | lib/paymentValidation.js:76-119 | The same decision facts hold for the summary of any non-empty text. |
| PaymentValidation.SummarizeReasonsShape | lib/paymentValidation.js:108-119 | For a non-empty text, missing_payee_name appears exactly once iff the payee was not detected, including when no amount hit. |
| PaymentValidation.SummaryOfReasonsShape | lib/paymentValidation.js:102-119 | The reasons-shape facts hold for the summary of any evidence. |
| PaymentValidation.CollectAmountReasons | lib/paymentValidation.js:82-100 | The four `if … push` steps collect exactly the tags of the rules that fire, in rule order. |
| PaymentValidation.DecideOverAllowedAmounts | lib/paymentValidation.js:76-119 | The `for … break` loop and the final payee check produce the declarative decision over the allowed amounts. |
| PaymentValidation.BuildPaymentValidationSummary | lib/paymentValidation.js:54-122 | The method produces exactly the declarative summary. |
| PaymentValidation.PaymentLooksValid | lib/paymentValidation.js:50-52 | The result is the summary's `matched` flag. |
| Register.ReplaceUnsafe | app/api/register/route.js:16-18 | Length is preserved. Each character outside `[a-z0-9.\-_]` (case-insensitive) becomes `_`, and every other character is kept. |
| Register.SanitizeFilename | app/api/register/route.js:16-18 | A missing or empty name gives "upload". Otherwise the result has the input's length and uses only lower-case `[a-z0-9._-]`: each unsafe character becomes `_` and the rest are lower-cased. |
| Register.SanitizeFilenameIdempotent | app/api/register/route.js:16-18 | Sanitising a sanitised name changes nothing. |
| Register.StripExtension | app/api/register/route.js:21 | Only a final `.` with at least one non-dot character after it is removed. The name is kept exactly when it has no such extension. |
| Register.EnsureJpegFilename | app/api/register/route.js:20-23 | The result ends in ".jpg". What precedes it is the stem of the sanitised name, or the fallback base when the stem is empty. |
| Register.StorageKeyInFolder | app/api/register/route.js:25-29 | A key starts with the folder and "/" and ends with "-" plus the sanitised name. When the uuid has no "/", the object sits directly in the folder. |
| Register.IsImageFileIff | app/api/register/route.js:31-39 | A file is an image iff its lower-cased MIME type starts with "image/" or its lower-cased name ends in ".jpg", ".jpeg", ".png", ".webp", ".heic", ".heif" or ".gif". |
| Register.ImageNamePatternIff | app/api/register/route.js:38 | The extension pattern matches exactly the names that end in "." plus one of the seven extensions. |
| Register.NextWidth | app/api/register/route.js:60 | The next width is never below 640, and it is strictly smaller while the width is above 640. |
| Register.Ladder | app/api/register/route.js:50-66 | The settings tried from (w, q) begin with (w, q). |
| Register.FirstFit | app/api/register/route.js:50-70 | Returns the first setting whose output is within 1 MiB, every earlier one being over. It returns `None` iff no setting fits. |
| Register.CompressOutcome | app/api/register/route.js:41-73 | Success yields at most 1 MiB of `image/jpeg`. Failure carries exactly "Unable to compress image under 1 MB.". |
| Register.CompressFailsIff | app/api/register/route.js:68-70 | Compression fails exactly when no setting of the ladder fits. |
| Register.LadderFromStart | app/api/register/route.js:50-66 | From (1600, 80), quality goes 80→40 in steps of 10 at width 1600, then the width goes 1280, 1024, 819, 655, 640 at quality 40. |
| Register.LadderBounds | app/api/register/route.js:50-66 | Quality never goes below 40 and width never below 640. A narrower width is tried only at quality 40, and the last setting is (640, 40). |
| Register.LadderSteps | app/api/register/route.js:50-66 | Each step either lowers quality by 10 at the same width, or narrows the width at quality 40. |
| Register.CompressImage | app/api/register/route.js:41-73 | Both loops terminate, and the method's outcome is the ladder's first fit, or the failure. |
| Register.SomeTest | app/api/register/route.js:139 | `patterns.some(test)` holds iff some pattern matches. |
| Register.RoutePatternsNeed900 | app/api/register/route.js:132-139 | Every one of the six patterns can only match a text containing "900". |
| Register.RoutePaymentAcceptedHas900 | app/api/register/route.js:118-141 | Any text the route's check accepts is non-empty, and the digits of its lower-cased, o→0 form contain "900". |
| Register.RoutePaymentLooksValidIff | app/api/register/route.js:118-141 | The route accepts a text iff it is non-empty and the digits of its lower-cased, o→0 form contain "900". The later literal and pattern checks never change the result. |
| Register.OcrText | app/api/register/route.js:76-115 | A missing key fails with its fixed message. A thrown request error fails with its own message. A non-OK reply fails with "OCR request failed with status", the status and the status text. A body that does not parse fails with the parse error. The call succeeds exactly when there is a key, an OK reply, a parsed body and no processing error. The text is then the parsed texts joined by "\n", or "" without results. |
| Register.ProcessingErrorMessages | app/api/register/route.js:107-112 | A processing error reports the array's entries joined by "; ", or a non-empty single message, or "OCR processing failed.". |
| Register.ValidationFailure | app/api/register/route.js:160-211 | The checks before `try` refuse a form with 400 or, for an upload over 1 MiB, 413. They pass it iff all required fields are filled, both uploads are images within 1 MiB, and every "other" selection has its free text. |
| Register.Caught | app/api/register/route.js:286-296 | A thrown message is a 413, and shown, exactly when it is the compression message; anything else is a 500 with the generic message. |
| Register.OtherText | app/api/register/route.js:265-272 | A stored free text is non-empty only when "other" was selected. |
| Register.SubmissionOf | app/api/register/route.js:259-278 | A stored submission has an `*Other` field that is non-empty only for the selection "other". |
| Register.StoreSubmission | app/api/register/route.js:236-285 | The answer is 201 with the new id exactly when neither upload nor the insert throws. Otherwise it is the caught answer for the first thrown message, in the order photo upload, payment upload, insert. |
| Register.AfterCompression | app/api/register/route.js:220-285 | An OCR failure gives its caught answer. 422 is answered exactly for an OCR text the route rejects. An accepted text goes on to the uploads and the insert of the submission built from it. 201 needs a text it accepts. |
| Register.AfterValidation | app/api/register/route.js:213-296 | The answers are 413, 422, 201 or 500. Either compression failing gives 413 with the compression message. When both compress, the answer is the post-compression one. 201 needs both images to compress and the OCR text to be accepted. |
| Register.PostOutcome | app/api/register/route.js:143-297 | The answer is one of 400, 413, 422, 201 and 500. A validation failure is returned as it is; otherwise the `try` block decides. A registration is created only for a form that passes every check, whose images compress and whose OCR text is accepted. Conversely, such a form with uploads and an insert that never throw gets 201 with the new id. 413 carries TooLargeError or the compression message. 422 only follows validation. |
| Register.Post | app/api/register/route.js:143-297 | The early-return method gives exactly the decision `PostOutcome` states, with its early returns and its 201. |
| Dashboard.AddOnce | components/AdminDashboardView.js:80-84 | The id ends up in the list exactly once. The list is unchanged when the id was already there, and otherwise has the id appended. Distinctness is kept. |
| Dashboard.DropIds | components/AdminDashboardView.js:38 | Exactly the entries whose id is not in the set are kept, and none of the dropped ids remains. |
| Dashboard.DropIdsNone | components/AdminDashboardView.js:34-35 | Filtering out ids no entry carries leaves the list as it is. |
| Dashboard.DropIdsDistinct | components/AdminDashboardView.js:38 | Filtering keeps the ids distinct. |
| Dashboard.SortByTimeDesc | components/AdminDashboardView.js:63-67 | The result is a permutation of its input with `createdAt` non-increasing, a missing time counting as 0. |
| Dashboard.SortSortedIsIdentity | components/AdminDashboardView.js:63-67 | A list already newest first keeps its order, because the sort is stable. |
| Dashboard.SortDistinctIds | components/AdminDashboardView.js:63-67 | Sorting keeps the ids distinct. |
| Dashboard.ValidationFields | components/AdminDashboardView.js:127-133 | An override holds exactly the four validation fields, with defaults false, null, [] and null. |
| Dashboard.ApplyOverrides | components/AdminDashboardView.js:71-74 | An override is field-merged onto an entry only when its id has one; the other entries are unchanged. |
| Dashboard.ApplyOverridesKeepsKeys | components/AdminDashboardView.js:71-74 | Overrides of validation fields keep every entry's id and time. |
| Dashboard.MergeMatching | components/AdminDashboardView.js:117-123 | The update is merged only into entries with its id, and every id is kept. |
| Dashboard.ReviewView | components/AdminDashboardView.js:32-39 | The review list is the failed list without the removed ids, in order. It is the failed list itself when nothing has been removed. |
| Dashboard.Merged | components/AdminDashboardView.js:56-67 | The merged list is a permutation of the approved entries plus the base entries whose id is not approved, sorted newest first. |
| Dashboard.SuccessfulViewCases | components/AdminDashboardView.js:41-75 | If no approved entry survives the delete filter, the filtered base list is returned unsorted and without overrides. Otherwise the result is the merged, sorted list with the overrides applied. |
| Dashboard.SuccessfulNeverShowsDeleted | components/AdminDashboardView.js:43-51 | No deleted id is shown, whether it comes from the base list or the approved list. |
| Dashboard.SuccessfulDistinctIds | components/AdminDashboardView.js:56-74 | With distinct ids in the inputs, the successful list has distinct ids: an approved entry replaces the base entry with its id. |
| Dashboard.DashboardState.constructor | components/AdminDashboardView.js:26-30 | The four state fields start empty, which is a valid state. |
| Dashboard.DashboardState.TabCounts | components/AdminDashboardView.js:145-151 | The counts are the lengths of the two derived lists. |
| Dashboard.DashboardState.ActiveData | components/AdminDashboardView.js:142-143 | The table shows the review list exactly on the "failed" tab. |
| Dashboard.DashboardState.HandleSubmissionApproved | components/AdminDashboardView.js:77-92 | Without an id nothing changes. Otherwise the id is added to the removed ids at most once. Exactly one approved entry with that id remains, placed last. The other fields are unchanged, and distinct ids are kept. |
| Dashboard.DashboardState.HandleSubmissionDeleted | components/AdminDashboardView.js:94-112 | Without an id nothing changes. Otherwise the id is recorded as deleted at most once and leaves the approved list. Only its override is dropped, and the removed ids are unchanged. |
| Dashboard.DashboardState.HandleSubmissionPaymentValidated | components/AdminDashboardView.js:114-135 | Without an id nothing changes. Otherwise the update is merged into matching approved entries. Its override gets the four defaulted fields on top of its earlier keys. The other fields are unchanged. |
| Dashboard.ApprovedKeepsDistinct | components/AdminDashboardView.js:86-91 | Filtering an id and then appending the entry keeps the ids distinct; the entry's id occurs once. |
| Dashboard.ApprovedLeavesReview | components/AdminDashboardView.js:32-39 | After an approval, the entry's id is no longer in the review list. |
| Dashboard.DeletedLeavesSuccessful | components/AdminDashboardView.js:94-112 | After a deletion, the id is no longer in the successful list. |
| SubmissionsTable.FormatValue | components/SubmissionsTable.js:26-32 | A non-empty free text wins. Otherwise a known selection shows its label, and an unknown or empty one is shown as it is. |
| SubmissionsTable.FormatValueOtherWins | components/SubmissionsTable.js:26-32 | A non-empty free text wins whatever the selection is. |
| SubmissionsTable.ExportRowOf | components/SubmissionsTable.js:35-63 | Column by column: the formatted date, name and address, the player type through its labels, the shirt and jersey fields as stored, food and fee through their labels, and each URL resolved when there is an attachment or "" when there is none. |
| SubmissionsTable.BuildExportRows | components/SubmissionsTable.js:34-65 | There is one row per submission, in order. Row i is the row of submission i, so it has all twelve columns of that mapping. "Submission ID" is the submission's id, and URL cells are empty without an attachment. |
| SubmissionsTable.BuildExportRowsAppend | components/SubmissionsTable.js:34-65 | Rows are built submission by submission: the rows of a + b are the rows of a followed by those of b. |
| SubmissionsTable.DownloadRows | components/SubmissionsTable.js:70-71 | Nothing is exported exactly when the list is missing or empty. |
| SubmissionsTable.RecordCountText | components/SubmissionsTable.js:131-132 | The caption starts with "Showing n record". |
| SubmissionsTable.RecordCountTextPlural | components/SubmissionsTable.js:131-132 | The caption says "records." exactly when the count is not one. |
| RegistrationStatus.Available | app/api/register/status/route.js:8 | The value is never negative. It is 0 iff the total reaches the limit; otherwise it is limit − total. It never exceeds a non-negative limit. |
| RegistrationStatus.Get | app/api/register/status/route.js:5-22 | A failing count gives 500 with the fixed message and no capacity fields. Otherwise the answer is the total, the limit, the seats left, and `open` iff total < limit. |
| RegistrationStatus.OpenIffSeatsLeft | app/api/register/status/route.js:8-13 | Registration is open exactly when seats are left, and closed means 0 seats left. |
| SignedUrl.KeyLooksSafe | app/api/admin/signed-url/route.js:8-14 | A key is safe iff it is present and non-empty, has no "..", and starts with neither "/" nor "\\". |
| SignedUrl.Get | app/api/admin/signed-url/route.js:16-45 | 401 is answered exactly when the session cookie is missing, empty or wrong. For an authorized request, an unsafe key gives 400 "Invalid key". Otherwise a signer that throws gives 500, no URL or an empty one gives 404, and a URL gives 200 with that URL. |
| SignedUrl.UnauthorizedIgnoresKey | app/api/admin/signed-url/route.js:20-22 | An unauthorized request gets the same answer whatever its key and whatever the signer would do. |
| SignedUrl.StoredKeyWithDotsRefused | app/api/admin/signed-url/route.js:8-14 | A storage key the registration route builds for a sanitised name containing ".." is refused as unsafe. |
| Auth.OrFallback | lib/auth.js:4-9 | A set, non-empty value is used. An unset or empty one falls back. |
| Auth.GetCredentials | lib/auth.js:1-9 | The environment values are used when set and non-empty. Otherwise the credentials fall back to "admin" / "sspl@secure". Both credentials are non-empty. |
| Auth.CredentialsAreValid | lib/auth.js:11-18 | Login fails for a missing or empty input. It succeeds exactly when the trimmed usernames are equal and the passwords are equal as typed. |
| Auth.PaddedUsernameAccepted | lib/auth.js:14-15 | Spaces around the typed username do not change the answer. |
| Auth.PasswordNotTrimmed | lib/auth.js:16-17 | The password is not trimmed: an accepted password with a space appended is refused. |
| Auth.ConfiguredCredentialsLogIn | lib/auth.js:1-18 | The configured credentials always log in. With neither variable set, they are "admin" / "sspl@secure". |
| Auth.Utf8RoundTrip | lib/auth.js:22 | Strict UTF-8 decoding of a text's bytes gives the text back. |
| Auth.Utf8OfDecoded | lib/auth.js:22 | Bytes that decode are exactly the UTF-8 bytes of what they decode to. |
| Auth.Utf8Injective | lib/auth.js:22 | Different texts have different UTF-8 bytes. |
| Auth.Base64Length | lib/auth.js:22 | There are four characters per started group of three bytes. |
| Auth.Base64RoundTrip | lib/auth.js:22 | Strict Base64 decoding of the encoding gives the bytes back. |
| Auth.Base64OfDecoded | lib/auth.js:22 | A text that decodes is the Base64 encoding of its decoding. |
| Auth.Base64Injective | lib/auth.js:22 | Different byte sequences have different Base64 texts. |
| Auth.TokenOf | lib/auth.js:30-33 | The token is non-empty and a multiple of four characters long. |
| Auth.TokenIffDecodesToCredentials | lib/auth.js:20-33 | A text is the session token iff it decodes, as Base64 and then UTF-8, to "username:password". |
| Auth.SameTokenIffSameJoined | lib/auth.js:30-33 | Two configurations share a token exactly when their "username:password" texts agree, so the token is a deterministic and injective function of that text. |
| Auth.ColonInCredentialsCollides | lib/auth.js:32 | The ":" is not escaped: ("a:b", "c") and ("a", "b:c") get the same token. |
| Auth.ShortToken | lib/auth.js:20-33 | For user "a" and password "b" the token is "YTpi". |
| Middleware.Guard | middleware.js:6-26 | A redirect goes to /admin/login with `redirect` set to the original path, and only for a protected path. A protected path that passes had a cookie. |
| Middleware.ProtectedNeedsToken | middleware.js:14-17 | A protected path passes iff the cookie equals the session token. |
| Middleware.ProtectedAdmitsIffCookieDecodesToCredentials | middleware.js:14-17 | A protected path passes iff the cookie decodes, as Base64 and then UTF-8, to the configured "username:password". |
| Middleware.UnprotectedPasses | middleware.js:9-12 | Paths outside /admin, and /admin/login itself, always pass. |
| Middleware.MissingCookieRedirects | middleware.js:17-21 | Without a cookie, every protected path is redirected to the login page, remembering the path. |
| Middleware.RedirectTargetPasses | middleware.js:10-12 | The redirect target is never redirected, so there is no redirect loop. |

## Left out

- The image library (`sharp`) is the parameter `encode`. Its output is trusted for its length only. Rotation, resizing, `withoutEnlargement` and JPEG quality are not modelled, and neither is a thrown encoder error.
- The network and storage are parameters.
  - The OCR request (`fetch` with its `FormData`) is the function `ocr`, which returns the reply or the thrown message. The route sets no timeout on it.
  - The object store is `put`, which returns `Some(message)` when it throws. `uploadObject` returns its key unchanged (lib/objectStorage.js:50), so the model stores the key it built.
  - The database insert is `insert`, and the capacity count is a `Result`.
  - The signer is the function `sign`.
- `Date.now()`, `crypto.randomUUID()` and `new Date().toISOString()` are parameters. Dashboard dates are held as `Time(ms)`. A missing date, or any `createdAt` that is not a `Time`, counts as 0, as a missing one does in the source. In JavaScript an unparsable date makes the comparator return `NaN`, which the sort treats as "equal"; the model's 0 is a choice and may order such entries differently.
- lib/constants.js is not part of this model: the registration limit is a parameter of `RegistrationStatus.Get`.
- Lower-casing is ASCII only; JavaScript also lower-cases non-ASCII letters. `trim` and `\s` use JavaScript's full whitespace and line-terminator set.
- Strings are sequences of Unicode scalar values. JavaScript's `.length`, and its regexes without the `u` flag, count UTF-16 code units, so texts with characters above U+FFFF differ.
- Register.SanitizeFilename: a character above U+FFFF is one `_` in the model but two in JavaScript ("😀.png" gives "__.png"), and the stated length equality holds in scalar values, not code units.
- The JavaScript regex engine is replaced.
  - The patterns used with `test()` are terms of `Regex.Pat`, with a set-of-spans meaning. That meaning is exact for whether a match exists.
  - The two `exec` loops use hand-written leftmost-greedy matchers, because their captures matter.
  - `\b` uses ASCII word characters, as JavaScript does without the `u` flag.
- Numbers are exact. `parseFloat` becomes an exact `real` value, and `Math.round(0.8·w)` becomes `(8w + 5) / 10`. IEEE floating point is not modelled.
- Dashboard.SortByTimeDesc: it is a stable insertion sort, which is the order a stable `Array.prototype.sort` with this comparator produces. No particular engine's algorithm is modelled.
- JSON records are maps from field names to values; prototype properties and key order are not modelled.
- `toLocaleString`, `new URL(path, origin).href`, XLSX generation, `Blob` and object URLs are not modelled. The first two are the parameters `formatDate` and `resolve` of the export.
- Component mechanics are not modelled: React scheduling (`useState`, `useMemo`, `useCallback`), modals, effects and `Promise.all`.
- The UI pages, the login and logout routes, and the admin approve/delete/payment-validation routes are not modelled: they render, set cookies, or make thin calls into storage.
- The matcher config `/admin/:path*` is not modelled. The guard decides by the pathname-prefix test the middleware function itself uses.
- The `btoa` fallback in `base64Encode` and its throw are not modelled. The model uses the `Buffer` branch, since the middleware and routes run where `Buffer` exists.
- Auth.Utf8RoundTrip: texts are sequences of Unicode scalar values, so lone UTF-16 surrogates, which `Buffer` would replace with U+FFFD, cannot occur.
- Auth.ShortToken: the token of the built-in fallback credentials is not computed. The short known answer for "a" / "b" stands in for it.
- Register.OcrText: the request building (`FormData` with the file, the language, `OCREngine` and the other fields) is not modelled; only the reply is interpreted.
- Register.CompressImage: a thrown encoder error (for instance on an unreadable image) is not a modelled outcome, because `encode` is total.

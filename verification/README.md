# Health charity app: a Dafny model of its data-handling core

The health charity app is a Vue single-page application with a small
development-server e-mail relay and a Firebase function that turns new
messages into notifications. This project models the parts of it that make
decisions about data:

- `sanitize.dfy` (module `Sanitize`): the text and URL sanitiser of
  `src/utils/sanitize.js`. This covers stripping control characters, script
  tags and angle brackets, the single-line and multi-line cleaners with their
  `maxLength` option, and `sanitizeUrl`, with the WHATWG URL parser passed in
  as a function.
- `carers.dfy` (module `CarersStore`): the carer directory store of
  `src/stores/carers.js`. This covers the seeded carers, the getters for a
  carer, its average rating, review count and description, and the
  `addReview` action as a function from one store to the next.
- `email_relay.dfy` (module `EmailRelay`): the e-mail relay of
  `vite.config.js`. This covers configuration from the environment,
  `buildMessage` (payload validation and normalisation), the status the
  handler answers with, and the middleware's routing decision.
- `notifications.dfy` (module `MessageNotifications`): `createMessagePreview`
  and the notification record written by `onMessageCreated` in
  `functions/index.js`.
- `auth.dfy` (module `Auth`): the authentication composable of
  `src/composables/auth.js`. This covers the fixed-credential
  login, Firebase sign-in and sign-out, and the seven-day session kept in
  browser storage. The clock and the storage are parameters, and the
  composable's reactions are folded over a sequence of events.
- `strings.dfy` (module `Strings`), `js_values.dfy` (module `JsValues`) and
  `wrappers.dfy` (module `Wrappers`) hold what the modules share. That is
  JavaScript's whitespace class, `trim`, whitespace collapsing, a loosely
  typed `JsValue` with JavaScript truthiness and `?.` property access, and
  `Option`/`Result`.

Strings are sequences of Dafny `char`s, and a `char` is one Unicode scalar
value. JavaScript indexes strings by UTF-16 code units, so the two agree on
text inside the Basic Multilingual Plane. A character outside it counts once
here and twice in JavaScript (see "Left out"). Numbers are `real`; the
sanitiser's length limit, ratings and clock readings are compared as
JavaScript compares them.

`src/stores/carers.js` keeps reviews as a plain in-memory array. It has no
rating coercion, coordinate extraction, batched queries or Firestore write,
and `addReview` rounds, clamps and appends locally.

## Model

| member | source | states |
|---|---|---|
| Strings.Filter | src/utils/sanitize.js:10 | a global replace of a character class by '' keeps exactly the characters outside the class: every kept character passes, no character is invented, text with nothing to remove comes back unchanged, text with nothing to keep comes back empty, and one character is kept exactly when it passes |
| Strings.FilterAppend | src/utils/sanitize.js:10 | removing a character class from a concatenation removes it from each part, so the result keeps the kept characters in their order |
| Strings.FilterFilter | src/utils/sanitize.js:10-12 | two global replaces of character classes in a row keep exactly the characters outside both classes |
| Strings.LeadingSpaces | src/utils/sanitize.js:21 | the count of leading whitespace that `trim` removes: every counted character is whitespace and the next one is not |
| Strings.TrailingSpaces | src/utils/sanitize.js:21 | the count of trailing whitespace that `trim` removes: every counted character is whitespace and the one before them is not |
| Strings.Trim | src/utils/sanitize.js:21 | `trim()` yields text that neither starts nor ends with whitespace and is the slice of the input that follows its leading whitespace, with only whitespace after it |
| Strings.TrimmedIsFixpoint | src/utils/sanitize.js:21 | `trim()` leaves text that is already trimmed unchanged |
| Strings.TrimKeepsCharProperties | src/utils/sanitize.js:21 | trimming only removes characters, so it keeps single-space runs and plain spaces |
| Strings.TrimKeepsWords | src/utils/sanitize.js:21 | `trim()` removes only whitespace: the non-whitespace characters of the result and of the input are the same sequence |
| Strings.CollapseSpaces | src/utils/sanitize.js:4 | `replace(/\s+/g, ' ')` leaves no two whitespace characters adjacent and no whitespace other than the plain space; it empties only empty text and keeps whether the text starts with whitespace |
| Strings.CollapseSpacesCharsFrom | src/utils/sanitize.js:21 | collapsing introduces no character except the plain space |
| Strings.CollapseSpacesFixpoint | src/utils/sanitize.js:21 | text whose whitespace is already single plain spaces is left unchanged |
| Strings.CollapseSpacesAppend | src/utils/sanitize.js:4 | collapsing whitespace works piece by piece across a boundary that follows a non-whitespace character |
| Strings.CollapseSpacesOfRun | src/utils/sanitize.js:4 | a non-empty whitespace run followed by non-whitespace or by nothing becomes one plain space |
| Strings.CollapseSpacesKeepsWords | src/utils/sanitize.js:4 | collapsing keeps every non-whitespace character, in order: the non-whitespace characters of the result and of the input are the same sequence |
| Sanitize.ScriptTagAt | src/utils/sanitize.js:2 | a match of the script-tag pattern starts with `<`, continues with `script` or `/script` in any case, and ends at the first `>` after it |
| Sanitize.ScriptTagFound | src/utils/sanitize.js:2 | text that opens with `<script` or `</script` in any case and holds a `>` somewhere has a match at its start |
| Sanitize.StripScriptTags | src/utils/sanitize.js:11 | removing script tags only removes characters, and text without `<` is unchanged |
| Sanitize.StripScriptTagsCons | src/utils/sanitize.js:11 | a character other than `<` cannot start a match, so it is kept and the replace continues after it |
| Sanitize.StripScriptTagsPlainPrefix | src/utils/sanitize.js:11 | text without `<` in front of the rest is kept as it is and only the rest is stripped |
| Sanitize.StripScriptTagsAtTag | src/utils/sanitize.js:11 | a match at the start is removed whole and the replace resumes right after it |
| Sanitize.StripScriptTagExample | src/utils/sanitize.js:11 | `a<script>x` becomes `ax`: the tag goes and the text on both sides stays |
| Sanitize.StripScriptTagsNoMatch | src/utils/sanitize.js:11 | a character where no match starts, a stray `<` included, is kept and the scan moves to the next character, even when a match follows later |
| Sanitize.StripScriptTagNoMatchExample | src/utils/sanitize.js:11 | `1 < 2 <script>x` becomes `1 < 2 x`: the stray `<` stays and only the later tag goes |
| Sanitize.StripScriptTagsWithoutTags | src/utils/sanitize.js:11 | text in which no match starts at any position comes back unchanged |
| Sanitize.StripDangerousSequences | src/utils/sanitize.js:8-13 | the result has no control character and no angle bracket and contains only characters of the input; text without `<` loses exactly its control characters and `>`s, in order, and safe input comes back unchanged |
| Sanitize.CleanLine | src/utils/sanitize.js:21 | `replace(/\s+/g, ' ').trim()` gives text with no edge whitespace, no two whitespace characters together and no whitespace but the plain space |
| Sanitize.CleanLineKeepsWords | src/utils/sanitize.js:21 | cleaning a line changes only its whitespace: the non-whitespace characters are kept, in order |
| Sanitize.CleanLineIsClean | src/utils/sanitize.js:21 | collapsing and trimming text whose control characters are whitespace gives a clean line: safe, trimmed, with single plain spaces |
| Sanitize.CleanLineFixpoint | src/utils/sanitize.js:21 | a clean line is unchanged by collapsing and trimming |
| Sanitize.TruncateTo | src/utils/sanitize.js:23-25 | the length cap applies only to a positive number: the result is a prefix no longer than the cap, of exactly the cap's integer part when it cut, and the input itself otherwise |
| Sanitize.SanitizeSingleLineText | src/utils/sanitize.js:15-28 | a non-string gives ''; the result is safe, has single plain spaces, no leading whitespace and respects the cap; it is a clean line, so also without trailing whitespace, unless the cap cut it to exactly the cap's length; without a cap it keeps every non-whitespace character of the stripped input, in order; a clean line is returned as it is, only capped |
| Sanitize.SingleLineIdempotent | src/utils/sanitize.js:15-28 | without a length cap, sanitising an already sanitised line changes nothing |
| Sanitize.SplitLines | src/utils/sanitize.js:38 | splitting on line feeds gives at least one piece, no piece holds a line feed, every piece's characters come from the input, and text without a line feed is one piece |
| Sanitize.SplitJoinedLines | src/utils/sanitize.js:38 | splitting lines joined with line feeds gives the lines back, when no line holds a line feed and none but the last ends in a carriage return: the pieces are exactly the segments between line feeds |
| Sanitize.JoinSplitLines | src/utils/sanitize.js:38-42 | joining the pieces of a text without carriage returns with line feeds gives the text back |
| Sanitize.SplitLinesAfterLine | src/utils/sanitize.js:38 | a line feed not preceded by a carriage return ends the first piece, which is everything before it |
| Sanitize.SplitLinesAfterCrLine | src/utils/sanitize.js:38 | the `\r?` of the split: a carriage return right before a line feed ends the first piece and is dropped with the line feed |
| Sanitize.CleanLines | src/utils/sanitize.js:39-40 | cleaning and filtering lines keeps no empty line and never adds a line; a single line is kept, cleaned, exactly when its cleaned form is not empty |
| Sanitize.CleanLinesAppend | src/utils/sanitize.js:39-40 | cleaning and filtering works line by line, so the non-empty cleaned lines are kept in their order |
| Sanitize.JoinLines | src/utils/sanitize.js:42 | the joined text starts with the first line, and for lines without line feeds it holds a line feed exactly when there are at least two lines |
| Sanitize.SanitizeMultilineText | src/utils/sanitize.js:30-49 | as written: a non-string gives '', the result is safe, holds no line feed and respects the cap |
| Sanitize.MultilineIsSingleLine | src/utils/sanitize.js:35-46 | because stripping removes line feeds before the split, splitting, cleaning, joining and capping gives the single-line result |
| Sanitize.MultilineEqualsSingleLine | src/utils/sanitize.js:30-49 | for every value and every option, the multi-line sanitiser returns what the single-line sanitiser returns |
| Sanitize.MultilineFusesLines | src/utils/sanitize.js:35-42 | as written, `a`, line feed, `b` is sanitised to `ab` |
| Sanitize.JoinCleanLines | src/utils/sanitize.js:42 | clean non-empty lines joined by line feeds form clean multi-line text |
| Sanitize.CleanLinesAreClean | src/utils/sanitize.js:39-40 | every line kept by the clean-and-filter step is a clean line, given lines whose only control characters are whitespace |
| Sanitize.KeptLinesAreClean | src/utils/sanitize.js:35-42 | when line breaks survive stripping, the joined lines are clean multi-line text |
| Sanitize.SanitizeMultilineTextKeepingLines | src/utils/sanitize.js:30-49 | corrected sanitiser: a non-string gives '', no angle bracket, the only control character is the line feed, the cap holds, and without a cap the text is clean multi-line text |
| Sanitize.MultilineKeepingLinesKeepsBreak | src/utils/sanitize.js:37-42 | corrected sanitiser: `a`, line feed, `b` stays `a`, line feed, `b` |
| Sanitize.KeepingLinesFixpoint | src/utils/sanitize.js:30-49 | corrected sanitiser, no cap: non-empty clean lines joined by line feeds come back exactly as they are, so every line break survives |
| Sanitize.StripKeepsCleanMultiline | src/utils/sanitize.js:35 | corrected strip: clean multi-line text has nothing to remove |
| Sanitize.CleanLinesOfCleanLines | src/utils/sanitize.js:39-40 | non-empty clean lines pass through cleaning and filtering unchanged |
| Sanitize.SimpleRelativeUrlIsPathBody | src/utils/sanitize.js:6 | the simple-relative pattern accepts exactly the non-empty strings made of word characters, `-`, `.` and `/` |
| Sanitize.SanitizeUrl | src/utils/sanitize.js:51-87 | a non-string, blank, blocked-scheme or protocol-relative input gives ''; otherwise a relative or unparsable input is kept trimmed exactly when it is a simple path, an absolute http(s) URL gives the parser's href, and anything else gives '' |
| Sanitize.SanitizedUrlIsNeverDangerous | src/utils/sanitize.js:61-77 | for any input, the result never starts with `javascript:`, `data:`, `vbscript:` or `file:` in any case and never starts with `//` |
| CarersStore.SumBounds | src/stores/carers.js:10 | the total of n ratings in [lo, hi] lies in [n*lo, n*hi] |
| CarersStore.CalculateAverage | src/stores/carers.js:5-12 | no reviews, or no array, gives 5; otherwise the average times the count is the total |
| CarersStore.AverageWithinRatingRange | src/stores/carers.js:5-12 | the average of ratings in [1, 5] lies in [1, 5] |
| CarersStore.FindIndex | src/stores/carers.js:44 | `find` by id: absent exactly when no carer has the id, otherwise the first carer with it |
| CarersStore.GetCarerById | src/stores/carers.js:44 | `null` exactly when no carer has the id, otherwise the first carer with that id |
| CarersStore.GetAverageRating | src/stores/carers.js:45-49 | 5 for an unknown id, the carer's average otherwise, and within [1, 5] whenever every stored rating is |
| CarersStore.GetReviewCount | src/stores/carers.js:50-54 | 0 for an unknown id or a carer without a review array, the array's length otherwise |
| CarersStore.Round | src/stores/carers.js:61 | `Math.round` gives the integer within half of the input, halves going up |
| CarersStore.NormaliseRating | src/stores/carers.js:61 | the stored rating is in [1, 5]: 1 below 1.5, 5 from 4.5 up, the nearest integer in between |
| CarersStore.AddReview | src/stores/carers.js:57-67 | an unknown id leaves the store unchanged; otherwise only the first carer with the id changes, and only by the normalised rating appended to its reviews (a fresh array when it had none) |
| CarersStore.AddReviewEffect | src/stores/carers.js:57-67 | adding a review raises the carer's count by one, adds the normalised rating to its total, and keeps every rating in [1, 5] |
| CarersStore.GetDescription | src/stores/carers.js:68-74 | the trimmed description when it is not blank, the placeholder for an unknown carer or a blank or missing description, and never '' |
| CarersStore.InitialStore | src/stores/carers.js:15-41 | the store starts with three carers |
| CarersStore.InitialStoreIsValid | src/stores/carers.js:16-40 | the seeded carers have distinct ids and review arrays of ratings in [1, 5] |
| EmailRelay.FirstSetOr | vite.config.js:169-171 | like a chain of `or` over the variables and the fallback: the value of the first listed variable whose value is non-empty, and the fallback when there is none |
| EmailRelay.ConfigFromEnv | vite.config.js:169-171 | the API key and the default sender come from the `VITE_` variable when it is set and non-empty, and otherwise from the unprefixed variable or ''; the endpoint is `VITE_SENDGRID_ENDPOINT` when set and non-empty, `/api/send-email` otherwise, and never empty |
| EmailRelay.FirstOfTwoKeys | vite.config.js:169-171 | with two variables: the first when non-empty, else the second when non-empty, else the fallback |
| EmailRelay.BreakLines | vite.config.js:67 | every line feed becomes `<br />`: no line feed is left, only empty text becomes empty, and text without line feeds is unchanged |
| EmailRelay.BreakLinesOfOne | vite.config.js:67 | a single line feed becomes `<br />` and any other single character is kept |
| EmailRelay.BreakLinesAppend | vite.config.js:67 | the conversion works piece by piece over a concatenation |
| EmailRelay.NormaliseAttachment | vite.config.js:75-86 | content is trimmed and non-empty; filename and type are trimmed or defaulted; the disposition is `attachment` |
| EmailRelay.FilterAttachments | vite.config.js:70-87 | at most as many attachments as given, each with trimmed non-empty content, a filename, a type and the fixed disposition |
| EmailRelay.FilterAttachmentsAppend | vite.config.js:72-86 | filtering a concatenation filters each part, in order |
| EmailRelay.FilterAttachmentsSingle | vite.config.js:72-86 | one attachment gives its normalised form when its content is a non-blank string, nothing otherwise |
| EmailRelay.FilterAttachmentsKeepsAll | vite.config.js:72-74 | no attachment is dropped exactly when every one has non-blank string content |
| EmailRelay.BuildMessage | vite.config.js:40-90 | fails with the recipient error exactly when there is no recipient address, and with the sender error exactly when there is neither a sender address nor a default; otherwise the one trimmed recipient with its name, the trimmed sender address or the default with the sender's string name, the trimmed or default subject, the text, html or converted text, and attachments exactly when a non-empty array was given |
| EmailRelay.BuildErrorValue | vite.config.js:48-57 | a build failure is an error object without a `code` |
| EmailRelay.ErrorStatus | vite.config.js:128-129 | the status is in [400, 600): the error's integer code when it lies there, 500 otherwise |
| EmailRelay.HandlerStatus | vite.config.js:92-137 | OPTIONS gives 204, other non-POST methods give 405, a missing API key gives 500, an invalid message gives 500, a thrown client, body or send error gives that error's status (its integer `code` in [400, 600), else 500), and 200 exactly when the client loads, the body parses into a valid message and sending succeeds |
| EmailRelay.Middleware | vite.config.js:139-152 | the request goes to the handler exactly when it has a URL whose path is the endpoint, and then gets the handler's status |
| MessageNotifications.CreateMessagePreview | functions/index.js:21-34 | a non-string gives ''; the trimmed body when it fits in 180 characters; otherwise its first 179 characters and an ellipsis, 180 in all |
| MessageNotifications.PreviewIdempotent | functions/index.js:23-34 | a preview is its own preview |
| MessageNotifications.NotificationFor | functions/index.js:59-93 | a notification is written exactly when there is data with a truthy recipient; it is an unread `message` with the event's id, missing sender fields become null, and the body and its preview are copied or emptied |
| Auth.PersistUser | src/composables/auth.js:22-39 | outside a browser nothing happens; a falsy user clears the entry; otherwise the entry holds the user and an expiry seven days after now |
| Auth.ClearPersistedUser | src/composables/auth.js:12-20 | outside a browser nothing happens; otherwise the stored entry is removed |
| Auth.ClearThenLoad | src/composables/auth.js:12-20 | after clearing, loading yields no user and leaves storage as cleared |
| Auth.LoadPersistedUser | src/composables/auth.js:41-71 | the stored user when the entry is an object with an unexpired numeric expiry and an object user; otherwise null, and any non-missing invalid entry is cleared |
| Auth.PersistThenLoad | src/composables/auth.js:31-58 | a persisted user is read back unchanged up to seven days after it was stored and dropped, with the entry cleared, after that |
| Auth.InitialState | src/composables/auth.js:78-80 | the initial user and storage are what loading the persisted session gives: a live stored user, else null; the user is null or an object, and storage mirrors it |
| Auth.PersistThenStart | src/composables/auth.js:30-80 | a session persisted less than seven days before set-up is the user the composable starts with |
| Auth.Login | src/composables/auth.js:89-96 | succeeds exactly for `admin`/`12345`, then signs in `{ username }` and persists it with a seven-day expiry; a failure changes nothing |
| Auth.LoginThenReload | src/composables/auth.js:78-96 | after a successful login, a reload within seven days starts signed in as the same user |
| Auth.LocalPart | src/composables/auth.js:106 | the text before the first `@`: a prefix without `@`, followed by `@` unless it is the whole address |
| Auth.DeriveUsernameFromFirebase | src/composables/auth.js:98-112 | never empty: the trimmed display name, else the trimmed e-mail's local part (or the whole e-mail when that part is empty), else `Firebase user` |
| Auth.LoginWithFirebase | src/composables/auth.js:114-128 | no user signs out and clears storage; a user is signed in as a Firebase record with derived name, e-mail or null, and uid, and storage holds that record persisted with a seven-day expiry |
| Auth.FirebaseLoginThenReload | src/composables/auth.js:78-128 | after a Firebase sign-in, a reload within seven days starts with the same user record |
| Auth.Logout | src/composables/auth.js:130-136 | the user becomes null and the stored entry is cleared |
| Auth.OnAuthStateChanged | src/composables/auth.js:138-151 | a user signs in through Firebase; a sign-out event ends only a Firebase session and leaves any other state alone |
| Auth.IsAuthenticated | src/composables/auth.js:82 | `state.user !== null`; for a user that is null or an object, as in every reachable state, someone is signed in exactly when the user is an object |
| Auth.Step | src/composables/auth.js:89-136 | logout leaves no one signed in, a Firebase user or the right credentials leave someone signed in, and wrong credentials change nothing |
| Auth.RunKeepsInvariant | src/composables/auth.js:78-151 | from any state where storage mirrors the user, every sequence of logins, auth changes and logouts keeps storage mirroring the user |

## Left out

- I/O is outside the model. That covers the Firestore write and logging of `onMessageCreated`, the SendGrid client and its `setApiKey`, request-body streaming and `JSON.parse`, response headers and bodies, and `console` output. The handler's outcomes enter through `EmailRelay.Delivery`.
- The error message the handler writes (vite.config.js:132-135) is not modelled, only the status code.
- `onUserDeleted` (functions/index.js:106-129) only calls Firebase Admin and logs, so it is left out.
- `getPlaceholderPhoto` and `getDescriptionPlaceholder` (src/stores/carers.js:78-79) are left out. One is a string template and the other returns the placeholder constant.
- `allCarers` (src/stores/carers.js:43) is left out because it returns the list as it is.
- The Vite plugin wiring, `server.js`, the router, `main.js`, the Firebase setup and the map helpers are not part of this model.
- Sanitize.SanitizeUrl: the WHATWG URL parser is a parameter. The model assumes nothing about it except, in `SanitizedUrlIsNeverDangerous`, that `href` begins with the reported protocol.
- Sanitize.SanitizeUrl: the absence of control characters and angle brackets is shown only for results that keep the trimmed input. An absolute URL's `href` comes from the parser, which percent-encodes such characters; the model does not describe that encoding.
- EmailRelay.Middleware: `new URL(req.url, 'http://localhost').pathname` is a parameter, assumed not to throw.
- Auth.PersistUser: `localStorage` exceptions are not modelled. A storage that throws behaves like `Unavailable` for writes. `JSON.stringify`/`JSON.parse` are assumed to give back the stored value.
- Auth.Logout: the Firebase `signOut` call is not modelled. Its failure is ignored by the source.
- The `authReady` promise and Vue's reactivity and `computed` wrappers are left out.
- CarersStore.GetDescription: a `description` that is neither a string nor `null`/`undefined` makes `trim` throw in the source, since `?.` only short-circuits on `null` and `undefined`. The model has only strings and `None`, which stands for a missing, `null` or `undefined` field.
- CarersStore.AddReview: ratings are reals; `NaN` and infinities are not representable, so `Math.round(NaN)` is left out. Stored reviews are integers, as every seeded and every added rating is.
- Numbers are reals throughout, so `NaN`, infinities and floating-point rounding of the average are not modelled.
- Strings are sequences of Unicode scalar values, not UTF-16 code units. A character outside the Basic Multilingual Plane is one `char` here and two code units in JavaScript, and lone surrogates cannot be represented at all. Unicode case folding is not modelled, since the script-tag and scheme patterns only fold ASCII.
- MessageNotifications.CreateMessagePreview: the 180 limit counts scalar values, so a non-BMP character counts 1 where JavaScript counts 2. A body of 100 emoji is cut by the source but kept whole here, and a cut that would split a surrogate pair is not representable.
- Sanitize.TruncateTo: `maxLength` counts scalar values, so a non-BMP character counts 1 where JavaScript counts 2, and a cut through a surrogate pair is not representable.
- Sanitize.SanitizeSingleLineText: its cap counts scalar values, so a non-BMP character counts 1 where JavaScript counts 2.
- Sanitize.SanitizeMultilineText: its cap counts scalar values, so a non-BMP character counts 1 where JavaScript counts 2.
- Sanitize.SanitizeMultilineTextKeepingLines: its cap counts scalar values, so a non-BMP character counts 1 where JavaScript counts 2.
- Sanitize.JoinSplitLines: stated for text without carriage returns. A carriage return before a line feed is dropped by the split (Sanitize.SplitLinesAfterCrLine), so for such text the round trip gives the text without it.
- Sanitize.SanitizeSingleLineText: the `{ maxLength } = {}` destructuring throws on an explicit `null` options object; the model takes the `maxLength` value directly.
- Sanitize.SingleLineIdempotent: stated only without a length cap. With a cap, a cut can leave a trailing space that a second pass trims away.

## Findings

| source | as written | input that shows it | evidently intended | confidence | as-written member | corrected member |
|---|---|---|---|---|---|---|
| src/utils/sanitize.js:35-42 | `stripDangerousSequences` removes every control character, line feeds and carriage returns included, before the text is split on `\r?\n`. The split then always yields one line, and line breaks are fused away. | the string `a`, line feed, `b` gives `ab` (Sanitize.MultilineFusesLines); the corrected version gives `a`, line feed, `b` (Sanitize.MultilineKeepingLinesKeepsBreak), and in general returns non-empty clean lines joined by line feeds unchanged (Sanitize.KeepingLinesFixpoint) | each line is cleaned on its own and the non-empty lines are joined with line feeds, giving `a`, line feed, `b` | not executed | Sanitize.SanitizeMultilineText | Sanitize.SanitizeMultilineTextKeepingLines |

# SpaDoctorWebsite decision core, in Dafny

This project models the small decision and transformation rules at the centre of the
SpaDoctorWebsite server, a hot-tub service site built on Express. It covers:

- the admin side: the daily passcode, the passcode login, the JWT payload and the
  admin-token check;
- the visit-notification gate that runs before every route, and its settings update;
- the blog collection: add, edit, delete, bulk import and the category filter of the
  public blog page;
- gallery-image and media-item deletion;
- the one-off category backfill script;
- the appointment-slot template and the availability decision of the calendar service;
- phone-number normalisation and validation of the SMS service;
- the page-name and session-id helpers of the browser-side tracker.

State is immutable. Every handler is a function from the collection or settings, and
the request, to the reply and the new state. Time, SHA-256, JWT signature checking
and HTML sanitising are parameters. JavaScript semantics the rules depend on are
written out in `text.dfy` and `json.dfy`:

- truthiness of request-body values;
- `parseInt` with its whitespace, sign, radix-prefix and longest-digit-prefix rules;
- `trim`, with the ECMAScript whitespace set;
- `toUpperCase` and `toLowerCase`;
- `includes` and `padStart`.

Modules, one per file: `Wrappers`, `Text`, `Json`, `Seqs` (generic sequence helpers),
`Passcode`, `Session`, `VisitGate`, `Categories`, `Blog`, `Backfill`, `Media`,
`Calendar`, `Sms`, `ClientAnalytics`.

The passcode's date is the UTC calendar date taken from `toISOString()`, not the
server's local date.

## Model

| member | source | states |
|---|---|---|
| Passcode.EffectiveSecret | server.js:46 | an unset or empty `ADMIN_SECRET` gives "fallback-secret"; a non-empty one is used as is |
| Passcode.CodeFromDigest | server.js:44-50 | the code is 7 characters: `SPA` and 4 decimal digits whose value is the first 8 hex digits of the digest mod 10000, zero-padded |
| Passcode.DailyPasscode | get-passcode.js:4-10 | the script's copy: the same 7-character shape and numeric suffix for digest(date + effective secret); it is one definition shared with the server, so the two copies agree and the result depends only on date and secret |
| Passcode.UnsetSecretFallsBack | get-passcode.js:6 | an unset and an empty secret both give the code of the literal fallback secret |
| Passcode.SameCodeIffSameResidue | server.js:47-49 | two digests give the same code iff their leading 32 bits agree mod 10000 |
| Text.ParseIntHex | server.js:48 | `parseInt(h, 16)` of a hex-digit string is its unsigned hexadecimal value |
| Passcode.FourDigits | server.js:48-49 | a residue below 10000 becomes exactly four decimal digits denoting it, zero-padded on the left |
| Text.PadStart | server.js:49 | `padStart(4, '0')` gives length max(len, 4), keeps the text as suffix and fills the front with '0' |
| Session.IssuePayload | server.js:52-59 | the payload has isAdmin true, loginTime now, and exp = floor(now / 1000 s) + 1800 |
| Session.VerifyJwt | server.js:61-67 | a token yields its payload iff its signature checks and floor(now/1000) has not reached exp; otherwise null |
| Session.IsValidAdminToken | server.js:69-75 | true iff the cookie is non-empty, verifies, is unexpired and carries isAdmin === true |
| Session.TokenLifetime | server.js:56 | an issued token is accepted iff the clock in whole seconds is before issue-second + 1800: always for the first 1799 s, never from 30 min on |
| Session.Login | server.js:704-729 | login is granted iff the passcode is a non-empty string whose upper-cased form equals the daily code; the cookie then carries a fresh payload; a truthy non-string passcode makes the handler throw |
| Session.LowerCaseCodeAccepted | server.js:708 | the daily code typed in lower case is accepted |
| Session.GrantedLoginOpensAdmin | server.js:715-729 | after a granted login, the passcode has the code's length and the issued token passes the admin check |
| VisitGate.InitialSettings | server.js:362-370 | notifications start enabled, localhost excluded, the map empty and a 60-minute window |
| VisitGate.Gate | server.js:508-572 | the gate as intended, with every client IP an ordinary key of the map: each filter (disabled, excluded path, excluded IP, admin, bot, non-GET) skips with the map unchanged; otherwise a notification is sent iff now - last >= window (last defaults to 0); sending sets only this IP's entry to now; the visitor is new iff more than 24 h passed |
| VisitGate.MissingUserAgentIsBot | server.js:373-374 | a missing or empty User-Agent counts as a bot and is skipped with the map unchanged |
| VisitGate.BotCheckIgnoresCase | server.js:375-376 | the bot test gives the same answer for an agent and its lower-cased form |
| VisitGate.OneNotificationPerWindow | server.js:544-553 | the intended debounce: after a notification, the same IP is suppressed within the window without changing the map, and notified again once it has passed; this holds for a visitor without a cookie and, for later requests, for one whose cookie does not pass the admin check |
| VisitGate.AdminTokenStaysInvalid | server.js:69-75 | a cookie that fails the admin check at some time fails it at every later time |
| VisitGate.GateAsWritten | server.js:544-563 | on the plain object, an IP that reads an inherited member (`__proto__` always, `constructor` and the others until recorded) is notified with isNewVisitor false whatever the time; `__proto__` is never recorded; every other request is decided as by the intended gate |
| VisitGate.ProtoIPNeverDebounced | server.js:545-553 | as written, a client IP of `__proto__` is notified about again inside the window, with the map unchanged, where the intended gate holds the request back |
| VisitGate.InheritedIPNeverNew | server.js:545-563 | as written, a first visit from IP `constructor` is notified as not new, where the intended gate reports a new visitor |
| VisitGate.OtherIPsUntouched | server.js:553 | a request never changes the recorded time of any other IP |
| VisitGate.LocalhostNeverNotified | server.js:520-523 | while localhost is in the excluded list, requests from 127.0.0.1 and ::1 are never notified |
| VisitGate.UpdateSettings | server.js:770-794 | each field changes only when it has the right type; excludeIPs becomes the two localhost addresses followed by the array sent; rate-limit map, paths and bot list never change |
| VisitGate.LocalhostAlwaysExcluded | server.js:783-785 | localhost stays excluded through every settings update and every gate decision, intended or as written |
| VisitGate.UpdateIdempotent | server.js:770-794 | sending the same update twice equals sending it once |
| VisitGate.EmptyUpdateChangesNothing | server.js:770-794 | an update without usable fields leaves the settings unchanged |
| VisitGate.SetEnabled | server.js:797-813 | the enable and disable routes act as an update carrying only the boolean |
| Json.ParseIntArgOfId | server.js:875 | `parseInt(id)` reads back a post id sent as a number or as its decimal text |
| Text.ParseIntDecimal | server.js:954 | `parseInt` of the decimal text of a non-negative integer is that integer |
| Categories.MappedCategoriesAreDefined | add-categories.js:7-49 | every category in the title mapping, and the default, is a defined category key |
| Blog.AddPost | server.js:834-863 | a falsy title or content fails and leaves the list unchanged; a truthy non-string one throws, a 500 with the list unchanged; otherwise the new post (id = now, trimmed title, sanitised content, date now, author Admin, no category, no lastModified) is at index 0 and the old list follows unchanged |
| Blog.IndexOfId | server.js:875 | the index of the first post whose id equals the parsed id, or -1 when none does |
| Blog.EditPost | server.js:904-941 | missing fields or an unknown id fail with the list unchanged; a truthy non-string title or content of an existing post throws, a 500 with the list unchanged; otherwise only title, content and lastModified of the first post with that id change; every other post and field is untouched |
| Blog.EditKeepsIds | server.js:885-890 | an edit never changes the ids or their order |
| Blog.EditIdempotent | server.js:904-941 | repeating an edit with the same request and clock changes nothing further |
| Blog.EditPostAsWritten | server.js:865-902 | the registration Express runs stores the same edit but never replies with success |
| Blog.EditAnswersServerError | server.js:900 | as written, a valid edit of an existing post is stored and answered with a 500; the intended handler reports success |
| Blog.WithoutId | server.js:954 | only posts whose id differs from the parsed id, every such post, as many as the list has, as a subsequence of the list (so in order); shrinks iff some post has that id |
| Blog.DeletePost | server.js:943-970 | removes every post with the id, keeping the others; fails with the list unchanged exactly when nothing was removed |
| Blog.DeleteKeepsOrder | server.js:954 | deletion works piecewise over any split of the list, so the survivors keep their order |
| Blog.DeleteTwiceFails | server.js:956-961 | a second delete of the same id reports "Post not found" and changes nothing |
| Blog.DeleteUndoesAdd | server.js:834-970 | deleting a just-added post by its id, sent as decimal text, restores the list when the id was fresh |
| Blog.ImportLoopResult | server.js:1035-1052 | when no entry throws, the imported posts are prepended in reverse input order, numbered now + k, and counted |
| Blog.ImportLoopKeepsOld | server.js:1048 | whatever the entries, the posts that were there stay, unchanged, at the end |
| Blog.ImportLoopThrows | server.js:1036-1046 | the loop stops with an error exactly when some entry is null or has a truthy non-string title or content |
| Blog.ImportLoopSplit | server.js:1035-1052 | the loop over entries that do not throw, then over the rest, equals the loop over the whole |
| Blog.ImportLoopStopsAt | server.js:1035-1052 | the first throwing entry stops the loop after the importable entries before it have been prepended in reverse order and counted |
| Blog.BulkImport | server.js:1021-1071 | a falsy or non-array body fails with nothing changed; without a throwing entry the count is the number of entries with a truthy title and content, and they come first in reverse input order; after a throw the reply is the failure message, and the importable entries before the first throwing one stay in memory, in reverse order, counted |
| Blog.ImportReversesOrder | server.js:1048 | the i-th post after an import is made from the i-th importable entry counted from the end |
| Blog.InCategory | server.js:627 | only posts whose category equals the key, every such post, as many as the list has, as a subsequence of the list (so in list order) |
| Blog.InCategoryAppend | server.js:627 | the filter of a concatenation is the concatenation of the filters |
| Blog.InCategoryNone | server.js:627 | with no post in the category the result is empty |
| Blog.FilterByCategory | server.js:624-629 | an absent, empty or unknown category yields all posts; a known key yields exactly its posts in original order |
| Blog.FilterByCategoryStable | server.js:624-629 | filtering a filtered page by the same key changes nothing |
| Blog.InheritedCategoryEmptiesPage | server.js:627 | as written, `?category=constructor` shows no posts, where an unknown category should show them all |
| Json.PropertyKey | server.js:627 | the property key of a query value: text as it is, a one-text array as that text, an object as "[object Object]" |
| Blog.FilterByCategoryQuery | server.js:624-629 | a text query value is filtered as a category name; an absent, array or object value shows every post |
| Blog.ArrayCategoryEmptiesPage | server.js:624-628 | as written, `?category[]=maintenance-care` shows no posts, where the intended filter shows them all |
| Blog.FilterAsWrittenAgrees | server.js:624-628 | for an absent value, and for text other than the names every object inherits, the written filter and the intended one agree |
| Backfill.CategoryFor | add-categories.js:63-69 | a mapped title gets its category, any other title "maintenance-care"; either is a defined key |
| Backfill.Categorised | add-categories.js:63-71 | a post with a category is unchanged; one without gets the mapped or default category and nothing else changes |
| Backfill.Backfilled | add-categories.js:62-73 | the list keeps its length and order, and each post is processed on its own |
| Backfill.Run | add-categories.js:59-81 | the loop gives the backfilled list; updatedCount is the number of posts that had no category; the file is saved iff it is positive; afterwards every post has a non-empty category |
| Backfill.SecondRunUpdatesNothing | add-categories.js:62-81 | a second run changes no post and counts 0 updates |
| Backfill.OnlyMissingCategoriesChange | add-categories.js:63-71 | only the category field changes, and it changes iff the post had none |
| Backfill.LookupTitle | add-categories.js:63 | a title lookup on the mapping object finds an own entry, an inherited Object.prototype member, or nothing |
| Backfill.AsWrittenAgrees | add-categories.js:62-73 | when no uncategorised title is an inherited member name, the script as written gives the intended result |
| Backfill.ConstructorTitleStopsScript | add-categories.js:63-66 | as written, an uncategorised post titled "constructor" stops the script before saving; intended: it gets the default category |
| Media.ImageIndex | server.js:1392 | the first image whose id strictly equals the body's imageId, or -1 |
| Media.DeleteGalleryImage | server.js:1388-1420 | an unknown id gives 404 with the gallery unchanged; otherwise exactly the first matching image is removed and the rest keep their order |
| Media.GalleryDeleteRemovesOne | server.js:1407 | a deletion lowers the number of images with that id by exactly one and leaves every other id's count alone |
| Media.ItemIndex | server.js:1483 | the first media item with the route's id, or -1 |
| Media.DeleteMedia | server.js:1479-1510 | an unknown id gives 404 with the library unchanged; otherwise exactly the first matching item is removed and the rest keep their order |
| Media.MediaDeleteRemovesOne | server.js:1501 | a deletion lowers the number of items with that id by exactly one and leaves every other id's count alone |
| Media.MediaDeleteTwiceNotFound | server.js:1483-1487 | with a unique id, deleting the item again is a 404 |
| Calendar.GenerateBusinessHours | utils/calendarService.js:180-240 | exactly 4 windows, each 3 hours, within 07:00-19:00 at -06:00, two morning then two afternoon, with strictly increasing starts |
| Calendar.OnlyAfternoonSlotsOverlap | utils/calendarService.js:217-237 | the 16:00 window overlaps the one ending at 17:00, and no other pair overlaps |
| Calendar.SlotsCoverBusinessDay | utils/calendarService.js:194-237 | every business hour is bookable except 13:00-14:00 |
| Calendar.WithPeriod | utils/calendarService.js:245 | only windows of the period, every such window, as many as there are, as a subsequence of the template (so in order) |
| Calendar.GetSlotsByPeriod | utils/calendarService.js:243-246 | every returned window is one of the day's windows with that period, and each such window is returned |
| Calendar.SlotsByPeriod | utils/calendarService.js:243-246 | morning gives the first two windows, afternoon the last two, any other period nothing |
| Calendar.PeriodsPartitionDay | utils/calendarService.js:243-246 | the morning and afternoon windows together are the day's template in order |
| Calendar.CheckAvailability | utils/calendarService.js:48-71 | fallback mode and a failed query give true; otherwise true iff the calendar's busy value (default empty) has a numeric length of 0, for an array, a string or an object with its own `length` |
| Calendar.ZeroLengthObjectIsFree | utils/calendarService.js:63-65 | a busy object whose own `length` is 0 leaves the slot free |
| Calendar.BusyIntervalsBlock | utils/calendarService.js:63-64 | a reported busy list makes the slot unavailable iff it is non-empty |
| Calendar.MissingCalendarIsFree | utils/calendarService.js:63 | a calendar missing from the reply leaves the slot free |
| Sms.Digits | utils/smsService.js:173 | the result holds only decimal digits, every digit of the input, as many as it has, as a subsequence of the input (so in order); an all-digit input is returned whole |
| Sms.DigitsAppend | utils/smsService.js:173 | digit extraction of a concatenation is the concatenation of the extractions |
| Sms.ValidatePhoneNumber | utils/smsService.js:184-187 | valid iff the digits number 10, or 11 with a leading 1 |
| Sms.FormatPhoneNumber | utils/smsService.js:172-181 | 10 digits give "+1" and the digits, 11 digits starting with 1 give "+" and the digits, anything else is returned unchanged |
| Sms.FormattedShape | utils/smsService.js:172-187 | a valid number formats to "+1" followed by 10 more digits (12 characters); an invalid one comes back as given |
| Sms.FormatIdempotent | utils/smsService.js:172-181 | formatting a valid number twice equals formatting it once, and the result is valid |
| Sms.FormatPreservesValidity | utils/smsService.js:172-187 | a number is valid iff its formatted form is valid |
| Sms.FormatKeepsDigits | utils/smsService.js:173-178 | the last ten digits of a valid number survive formatting |
| ClientAnalytics.GetCurrentPage | public/js/analytics.js:14-19 | "/" gives "home", another slash path loses its first character, anything else is returned unchanged |
| ClientAnalytics.PageNameInverse | public/js/analytics.js:17 | putting the slash back in front of the page name gives the path again |
| ClientAnalytics.PageNamesDistinct | public/js/analytics.js:17 | different slash paths other than the root have different page names |
| ClientAnalytics.NewSessionId | public/js/analytics.js:7 | a fresh id starts with "session_" and is non-empty |
| ClientAnalytics.GetSessionId | public/js/analytics.js:4-11 | a stored non-empty id is returned and storage is left unchanged; otherwise a fresh id is stored under the key and returned; other keys are untouched |
| ClientAnalytics.SessionIdStable | public/js/analytics.js:4-11 | a second call, whatever its clock and random value, returns the same id and changes nothing |

## Left out

- Foreign code is passed in as parameters:
  - SHA-256 is `sha256Hex`, assumed to return 64 lowercase hex digits.
  - JWT signing and the signature check are `decode`; only the expiry check is modelled.
  - `sanitizeContent` is an uninterpreted `sanitize` function; its regular expressions are not modelled.
  - `formatArticleContent` is not part of this model.
- The clock is a parameter. Post ids use `Date.now()` as a millisecond integer, and dates are the ISO text of an `Instant`.
- The calendar's ISO/UTC conversion of window times is not modelled; windows are whole local hours at -06:00.
- An invalid `date` argument to `generateBusinessHours` makes `toISOString` throw a RangeError. This is not modelled; the day text is given.
- Input and output are left out: mail, the IP geolocation lookups, uploads and thumbnails, Twilio, the Google Calendar API calls and disk writes.
  - `dataManager` is a mock that always succeeds, so saves are assumed to succeed.
  - The unlink failure on delete is only logged, so it has no modelled effect.
- `getClientIP` is not modelled; the client IP is a field of the request.
- Concurrency is not modelled: each request runs to completion before the next one starts. The handlers await between reading and writing the arrays. Gallery delete awaits `fs.unlink` between `findIndex` and `splice` (server.js:1392-1407), media delete does the same (server.js:1483-1501), and bulk import waits between its `unshift`s (server.js:1048-1052). With overlapping requests, two deletes of the same id can both find index i, and the second `splice` then removes the next element. Media.GalleryDeleteRemovesOne, Media.MediaDeleteRemovesOne, Media.MediaDeleteTwiceNotFound and Blog.BulkImport hold only for requests handled one at a time.
- The express-rate-limit login limiter is library configuration only.
- Cookie flags (httpOnly, secure, sameSite, maxAge) are not modelled.
- The `/analytics-data` summary is left out; it works on floating-point averages.
- The `import-sample-posts` route and the test-notification endpoint are left out.
- The backfill script's console output, including its category summary, is not modelled.
- Session.Login: the 30-minute cookie `maxAge` is not modelled; only the token's own `exp` is.
- VisitGate.UpdateSettings: `rateLimitMinutes` is an integer. A fractional number of minutes is not modelled.
- Json.ParseIntArg: request-body numbers are integers. A fractional id such as 7.9, which `parseInt` truncates to 7 so that post 7 is edited or deleted, is not modelled.
- Json.ParseIntArg: an object body value is read as "no number". An object with its own `toString` key (or an array whose first element is one) makes `String` throw a TypeError. When the list is non-empty, the edit and delete handlers then answer 500 instead of "not found". The state is unchanged in both, and this case is not modelled.
- Json.ParseIntArgOfId: a numeric id of 1e21 or more is rendered in exponent form by `String`. This is not modelled; ids are below that.
- Text.ToUpper and Text.ToLower map ASCII letters plus the three non-ASCII letters whose single-character mapping lands in ASCII: U+017F and U+0131 upper-case to S and I, and U+212A lower-cases to k. Multi-character mappings are not modelled, and neither is the rest of Unicode case mapping. In upper case, 'ß' gives "SS", the ligatures 'ﬀ' to 'ﬆ' give FF, FI, FL, FFI, FFL or ST, and 'ŉ' gives "ʼN". None of these is a piece of "SPA" followed by digits, so none can turn a wrong passcode into the right one. In lower case, 'İ' gives "i" followed by U+0307; no bot word ends in "i", so it cannot create a bot-word match.
- Session.TokenLifetime: jsonwebtoken compares whole seconds, so the token is valid from issue until the clock's second reaches issue-second + 1800. The window is therefore between 1799 and 1800 seconds, not exactly 30 minutes.
- Blog.EditPost: the route is registered twice. The model uses the state change of the two registrations, which is the same, and the reply of the second; Blog.EditPostAsWritten is the first registration's reply, which Express actually sends.

## Findings

| source | as written | input that shows it | evidently intended | confidence | as-written member | corrected member |
|---|---|---|---|---|---|---|
| server.js:627 | `blogCategories[selectedCategory]` is truthy for names every object inherits (`constructor`, `toString`, ...), so the page is filtered by a category no post has | `GET /blog?category=constructor` shows no posts | an unknown category shows every post | not executed | Blog.InheritedCategoryEmptiesPage | Blog.FilterByCategory |
| add-categories.js:63-66 | `categoryMappings[post.title]` is truthy for an inherited name; the post's category becomes that function, and `categories[post.category].name` then throws, so the script stops before saving | an uncategorised post titled "constructor" | such a post gets the default category and the run saves | not executed | Backfill.ConstructorTitleStopsScript | Backfill.Backfilled |
| server.js:900 | the first `/admin/edit-post` handler, the one Express runs, replies with `post: newPost`, but `newPost` is not declared there; the edit is stored, then the handler throws | any edit of an existing post, for example id 7 with a non-empty title and content | the reply reports success with the updated post | not executed | Blog.EditAnswersServerError | Blog.EditPost |
| server.js:545-553 | `rateLimit` is a plain object, so `rateLimit[clientIP] \|\| 0` reads an inherited member for an IP such as `__proto__` or `constructor`; `now - last` is NaN, the window test fails and the visit is notified as not new; assigning to `rateLimit.__proto__` records nothing | requests with `X-Forwarded-For: __proto__`, each notified about without a debounce | every client IP is debounced within the window and a first visit counts as new | not executed | VisitGate.ProtoIPNeverDebounced | VisitGate.OneNotificationPerWindow |
| server.js:624-628 | `blogCategories[selectedCategory]` converts an array query value to its text, so `?category[]=maintenance-care` finds a category, but `post.category === selectedCategory` compares with the array and matches no post | `GET /blog?category[]=maintenance-care` shows no posts | a value that is not text names no category and the page shows every post | not executed | Blog.ArrayCategoryEmptiesPage | Blog.FilterByCategoryQuery |

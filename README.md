# pptWebView classroom back end, modelled in Dafny

pptWebView lets a teacher show a slide deck that students follow live. This
project models the server functions behind it, plus the URL handling of the
small QR-code tool that ships with it:

- **Slide sync** (`functions/api/slide.js`). The current `{lessonId, slideIndex}` of a class is kept
  in a key-value store. A POST validates a new position, stores it and pushes it to every open
  server-sent-events (SSE) connection of the class. A GET returns the position, the number of open
  connections, or opens a new SSE stream. That stream starts with a snapshot and is kept alive by
  a heartbeat timer and a watchdog timer.
- **Lesson catalogue** (`functions/api/lessons.js`). Slides `1..30` of a lesson, and lessons
  `lesson1..lesson50`, are found by HEAD requests in batches of ten. The slide list is sorted by
  the number in its file name.
- **Quizzes** (`functions/api/quiz.js`). A quiz can be created, answered, tallied, listed among
  the active quizzes of a class, and closed.
- **Understanding check** (`functions/api/understanding.js`). A student marks a slide as understood
  or not. The teacher reads the counts and a percentage.
- **QR tool** (`WEB_QR_GEN/qr_generator.py`). The tool gives an entered URL an `https://` scheme
  when it has none. It names the saved PNG after the sanitised domain and the time.

Modules:
- `Js` covers JavaScript values, truthiness, `x || d`, `String(x)` and decimal text.
- `SlideStore` resolves the stored value.
- `Sse` covers the frame text and how a client reads a stream back. It follows section 9.2.6 of
  the WHATWG HTML Living Standard, "Interpreting an event stream".
- `SlideRegistry` has the `Registry` class (the connection table, changed in place) and the
  `Connection` class (one stream's timers and cleanup).
- `SlideApi` holds the slide request handlers.
- `Lessons`, `Quiz`, `Understanding` and `QrNames` model the other files.

The model takes these things as inputs:
- The key-value store is a map that is passed in and returned.
- HEAD requests, `encodeURIComponent`, enqueue success, the clock and Python's `isalnum` are
  parameters.
- `urlparse`'s network location is an input. It is `None` when `urlparse` raises.

## Model

| member | source | states |
|---|---|---|
| Js.NatTextRoundTrip | functions/api/lessons.js:13 | the decimal text of a slide number is a non-empty run of digits that reads back as that number |
| Js.NatTextInjective | functions/api/lessons.js:114 | different numbers give different decimal texts, so different lesson and slide numbers give different ids |
| SlideStore.ResolveAsWritten | functions/api/slide.js:133-146 | the stored text resolved as the code does it: defaults `lesson1`/0 when absent or blank; `lessonId` only from a record whose `lessonId` is a non-empty string; `slideIndex` only from a record's number or from `Number(text)` when parsing throws; that these are in fact read is `ResolveReads` |
| SlideStore.Resolve | functions/api/slide.js:225-240 | as above, and a stored bare number becomes the slide index of the default lesson |
| SlideStore.ResolveReads | functions/api/slide.js:137-146 | both resolutions take a record's numeric `slideIndex` and its non-empty string `lessonId`, each independently of the other; a record whose `lessonId` is missing or empty keeps `lesson1`; `Number(text)` (in the default lesson) is taken when parsing throws and the text is a number |
| SlideStore.ResolveAgreesExceptLegacy | functions/api/slide.js:229-240 | the corrected and the as-written resolution differ only on a stored bare number |
| SlideStore.LegacyNumberIgnoredAsWritten | functions/api/slide.js:235-239 | the legacy value `3` resolves to slide 0 as written and to slide 3 corrected |
| SlideStore.Stored | functions/api/slide.js:306-307 | what a successful update stores reads back as exactly the posted position, under both resolutions |
| Sse.Escape | functions/api/slide.js:71 | the body of a JSON string literal is never shorter than the text, and text without quotes, backslashes or control characters is copied unchanged |
| Sse.EscapeNoLineBreak | functions/api/slide.js:71 | `JSON.stringify` of a string has no CR or LF |
| Sse.IntTextNoLineBreak | functions/api/slide.js:148 | the text of a slide index has no CR or LF |
| Sse.FrameLineNoLineBreak | functions/api/slide.js:148 | the line of a data frame or a heartbeat has no line break, so each frame is exactly one line |
| Sse.IndexOfColon | functions/api/slide.js:160 | the first colon of a line, or its length, with no colon before it |
| Sse.LinesOfFrame | functions/api/slide.js:160 | the text of a frame splits into its line and a blank line, then the rest of the stream |
| Sse.DataLineField | functions/api/slide.js:148 | a data frame's line is read as the `data` field whose value is the state's JSON |
| Sse.FrameDispatch | functions/api/slide.js:71 | a data frame dispatches one event with its JSON; a heartbeat dispatches none |
| Sse.StreamEvents | functions/api/slide.js:148-169 | a client reading a stream of frames sees one event per data frame, with that frame's JSON, in the order sent; heartbeats produce no event |
| SlideRegistry.Added | functions/api/slide.js:25-34 | after adding, the class has a set holding the handle and its old members; other classes are unchanged |
| SlideRegistry.Removed | functions/api/slide.js:36-53 | a falsy class id or controller changes nothing; otherwise the handle leaves the class's set, a set left empty is deleted with its key, and other classes are unchanged |
| SlideRegistry.Pruned | functions/api/slide.js:68-81 | broadcasting keeps every key and keeps exactly the handles whose enqueue succeeds |
| SlideRegistry.AddRemoveKeepNoEmptySets | functions/api/slide.js:25-53 | add and remove keep the table free of empty sets |
| SlideRegistry.BroadcastCanLeaveEmptySet | functions/api/slide.js:72-78 | broadcast can leave an empty set under a class when every enqueue fails |
| SlideRegistry.RemovedIdempotent | functions/api/slide.js:36-53 | removing the same connection twice equals removing it once |
| SlideRegistry.RemoveUndoesAdd | functions/api/slide.js:25-53 | removing a new connection right after adding it restores the table |
| SlideRegistry.CountAfterAdd | functions/api/slide.js:14-34 | the student count grows by one exactly when the added handle was not yet registered |
| SlideRegistry.Registry.StudentCount | functions/api/slide.js:14-17 | the size of the class's set, 0 when the class has no entry |
| SlideRegistry.Registry.AddClient | functions/api/slide.js:25-34 | the table becomes `Added` of the old table |
| SlideRegistry.Registry.RemoveClient | functions/api/slide.js:36-53 | the table becomes `Removed` of the old table |
| SlideRegistry.Registry.Broadcast | functions/api/slide.js:68-81 | the message is the data frame of the state; the delivered handles are the members whose enqueue succeeded; the table becomes `Pruned` of the old table |
| SlideRegistry.TimeoutBoundary | functions/api/slide.js:173-174 | `TimedOut` is the strict test: 90000 ms after the last heartbeat is not a timeout; 90001 ms is |
| SlideRegistry.CancelAsWritten | functions/api/slide.js:203-207 | the `cancel` hook as written can only drop an entry, never a member |
| SlideRegistry.CancelAsWrittenKeepsConnection | functions/api/slide.js:203-207 | after `cancel` as written, the cancelled connection is still registered |
| SlideRegistry.RemoveUnregisters | functions/api/slide.js:36-53 | removing a connection by its own handle unregisters it |
| SlideRegistry.Connection.constructor | functions/api/slide.js:126-157 | a new connection has both timers running, is open, and its last heartbeat is now |
| SlideRegistry.Connection.HeartbeatTick | functions/api/slide.js:158-169 | a successful heartbeat sends the comment frame and records the time; a failed one stops the heartbeat timer and unregisters the connection |
| SlideRegistry.Connection.WatchdogTick | functions/api/slide.js:172-186 | through `TimedOut`: when the last heartbeat is more than 90000 ms old (three 30-second heartbeat intervals), both timers stop and the connection is unregistered and closed; otherwise nothing changes |
| SlideRegistry.Connection.Cleanup | functions/api/slide.js:189-201 | both timers stop, the connection is unregistered and closed |
| SlideRegistry.Connection.Cancel | functions/api/slide.js:203-207 | corrected `cancel`: the connection's own handle is unregistered |
| SlideApi.Route | functions/api/slide.js:88-123 | 400 exactly without `classId`; `students=true` counts; `sse=true` or an Accept header that contains `text/event-stream` opens a stream; otherwise the state is read |
| SlideApi.ReadCurrentState | functions/api/slide.js:223-263 | a failed read is a server error; otherwise the state read with the corrected resolution, which is the defaults when nothing is stored and agrees with the code as written on everything except a stored bare number |
| SlideApi.Subscribe | functions/api/slide.js:125-157 | the connection is registered, the snapshot is the stored state read with the corrected resolution, which agrees with the code as written except on a stored bare number (none when the read fails), and both timers start |
| SlideApi.ValidateUpdate | functions/api/slide.js:272-303 | the checks run in order: `classId`, then `lessonId` (each a non-empty string), then `slideIndex` (a number, not negative); on success the values are returned unchanged |
| SlideApi.HandleUpdate | functions/api/slide.js:266-310 | a body that is not JSON, a rejected body or a failed write changes nothing and sends nothing; success stores the position, then broadcasts it, and a later read returns it |
| Lessons.Candidates | functions/api/lessons.js:12-20 | four candidate URLs, the plain `.JPG` URL first; none exactly when an encoding throws |
| Lessons.CandidatePaths | functions/api/lessons.js:15-20 | the candidates are, in order, the plain `.JPG` path, its encoded form, the plain `.jpg` path and its encoded form, all under `<base>/slides/<lessonId>/` |
| Lessons.FirstOk | functions/api/lessons.js:23-32 | the first candidate whose request succeeds; every earlier one failed |
| Lessons.CheckSlideExists | functions/api/lessons.js:12-34 | returns the first successful candidate, or not-found with the first candidate's URL; makes at most four requests, in order, stopping at the first success |
| Lessons.SlidePath | functions/api/lessons.js:75 | the pushed path starts with `slides/<lessonId>/` and ends with `.JPG` |
| Lessons.MatchAtMeaning | functions/api/lessons.js:85 | `MatchAt` finds a match exactly when the text is the marker `슬라이드`, at least one ASCII digit and `.JPG`, and its value is the value of those digits |
| Lessons.DigitRun | functions/api/lessons.js:85 | the length of the leading run of digits |
| Lessons.SlideNumberOf | functions/api/lessons.js:85 | `match` finds a number only in text that contains the marker |
| Lessons.SlideNumberOfSlash | functions/api/lessons.js:75-85 | no match runs across a `/`: the leftmost match in `x/rest` is the one in `x` if there is one, else the one in `rest` |
| Lessons.SlidePathNumber | functions/api/lessons.js:75-86 | the sort key (`SortKey`, the number of the leftmost match that the comparator subtracts) of the path pushed for slide `n` is `n` when the lesson id holds no match of the pattern, and otherwise the lesson id's own number, the same for every slide |
| Lessons.SlidePathHasNumber | functions/api/lessons.js:84-86 | every pushed path matches the pattern, so the comparator never reads a failed match |
| Lessons.Insert | functions/api/lessons.js:84-88 | insertion keeps the elements as a multiset |
| Lessons.InsertSorted | functions/api/lessons.js:84-88 | insertion into a sorted list keeps it sorted |
| Lessons.SortBy | functions/api/lessons.js:84-88 | the sort is a permutation and its result is sorted by the key |
| Lessons.SortedUnchanged | functions/api/lessons.js:83-89 | a list already sorted by the key is left as it is |
| Lessons.SortBySlideNumber | functions/api/lessons.js:83-89 | the slide list sorted by the number in its file name is a sorted permutation |
| Lessons.CheckSlideBatch | functions/api/lessons.js:48-68 | a batch checks slides `first`, `first+1`, … up to ten of them, never beyond the maximum, each with its outcome |
| Lessons.PushFound | functions/api/lessons.js:70-77 | pushing a batch's found slides, in batch order, extends the found list up to the batch's last slide |
| Lessons.FindSlidesForLesson | functions/api/lessons.js:37-93 | batches start at 1, 11, 21, …; every slide `1..max` is checked once, in order; the result is the found paths sorted by slide number, which is the order they were found in, for every lesson id |
| Lessons.SlidesUpToFacts | functions/api/lessons.js:46-89 | the found list holds the path of slide `n` exactly when `1 <= n <= max` and the slide is found; its sort keys are strictly ascending in `1..max` when the lesson id holds no match, and all equal otherwise |
| Lessons.SortKeepsFoundOrder | functions/api/lessons.js:83-89 | sorting the found list changes nothing, for every lesson id |
| Lessons.SlidesUpToLength | functions/api/lessons.js:46-80 | the found slide list up to `m` has at most `m` paths |
| Lessons.SlidePathInjective | functions/api/lessons.js:75 | different slide numbers give different paths, for every lesson id |
| Lessons.CheckLessonBatch | functions/api/lessons.js:108-125 | a batch checks lessons `first…` up to ten, never beyond the maximum, each by its slide 1 |
| Lessons.LessonsPush | functions/api/lessons.js:127-131 | pushing lesson `n`'s id when it was found onto the list up to `n - 1` gives the list up to `n` |
| Lessons.PushLessons | functions/api/lessons.js:127-131 | pushing a batch's found lesson ids, in batch order, extends the found list up to the batch's last lesson |
| Lessons.FindAllLessons | functions/api/lessons.js:103-135 | every lesson `1..max` is checked once, in batches of ten, and the found ids are listed in order |
| Lessons.LessonListContents | functions/api/lessons.js:96-135 | in the list built one lesson at a time (`LessonsUpTo`, with `LessonsStep` for one step), `lesson<k>` is listed exactly when `1 <= k <= max` and its slide 1 is found |
| Lessons.LessonsUpToLength | functions/api/lessons.js:103-135 | the found lesson list up to `m` has at most `m` ids |
| Lessons.HandleCatalog | functions/api/lessons.js:137-182 | a non-empty `lessonId` gets that lesson's sorted slide list, of at most 30 paths; otherwise the list of lessons among `lesson1..lesson50`, at most 50 |
| Quiz.NewQuiz | functions/api/quiz.js:28-37 | a new quiz is active, has no answers, and gets through `Or` (`x \|\| d`) the defaults `[]`, `"multiple"` and `null` for falsy options, type and slide index |
| Quiz.Create | functions/api/quiz.js:19-53 | rejected exactly when `classId`, `quizId` or `question` is falsy; otherwise the record is written, and the quiz id is appended to the active list only when absent, so it is never listed twice |
| Quiz.Answer | functions/api/quiz.js:67-102 | 400 on a missing id or an undefined answer, then 404 on a missing quiz, then 400 on an inactive one; otherwise only this student's answer is replaced |
| Quiz.Tally | functions/api/quiz.js:158-166 | the total is the number of answers; each key (`AnswerKey`: `String(answer)`, which for an array is `answer.join(",")` by `ToStr` and `Join`) counts the students whose answer has that key; only keys that occur appear; the counts add up to the total |
| Quiz.ListActive | functions/api/quiz.js:186-206 | one summary per listed id whose record exists and is active, in list order |
| Quiz.ActiveSummariesFacts | functions/api/quiz.js:191-204 | every summary belongs to a listed, existing, active quiz, with that quiz's fields and answer count; every such quiz is shown |
| Quiz.HandleGet | functions/api/quiz.js:129-210 | 400 without `classId`; with `quizId`, 404 exactly when the record is missing, otherwise exactly the quiz, its options and its tally (`TallyOf`: the counted keys are exactly the answer keys that occur); without it, the active listing |
| Quiz.Without | functions/api/quiz.js:256 | the filter never lengthens the list |
| Quiz.WithoutMembers | functions/api/quiz.js:256 | an id remains exactly when it was listed and is not the closed quiz |
| Quiz.WithoutAppend | functions/api/quiz.js:256 | the filter works piecewise, so the other ids keep their order |
| Quiz.WithoutAbsent | functions/api/quiz.js:256 | closing an id that is not listed leaves the list unchanged |
| Quiz.Close | functions/api/quiz.js:228-258 | rejected exactly without both ids; otherwise an existing record is marked inactive with its answers kept, and an existing active list loses every occurrence of the id |
| Understanding.LessonPart | functions/api/understanding.js:22 | `lessonId \|\| "default"` is never empty and is the id when one is given |
| Understanding.RecordKey | functions/api/understanding.js:22 | the key starts with `understanding:<classId>:` and ends with `:<slideIndex>` |
| Understanding.DeleteStudent | functions/api/understanding.js:37-46 | the loop over the keys deletes exactly the student's key |
| Understanding.Recorded | functions/api/understanding.js:37-55 | after an answer the student is in exactly one of the two objects, chosen by the truthiness of `understood`, and `lastUpdated` is the time of the answer |
| Understanding.RecordedKeepsOthers | functions/api/understanding.js:37-53 | an answer leaves every other student's entries unchanged |
| Understanding.RecordedKeepsDisjoint | functions/api/understanding.js:36-53 | no student ever ends up in both objects |
| Understanding.Submit | functions/api/understanding.js:14-61 | rejected exactly when `classId` or `studentId` is falsy or `slideIndex` or `understood` is undefined; otherwise only the slide's record changes, to the answer applied to `StoredOrFresh`: the stored record, or (`StoredOrFreshFacts`) a record of this class, lesson and slide with no students |
| Understanding.RoundedPercent | functions/api/understanding.js:124 | the integer form of `Math.round(u / t * 100)` is the nearest integer, halves up, and lies in 0..100; it is 0 when `u` is 0 and 100 when `u` is `t` |
| Understanding.Percentage | functions/api/understanding.js:124 | the percentage is 0 when the total is 0 and otherwise lies in 0..100 |
| Understanding.StatsOf | functions/api/understanding.js:121-124 | the counts are the two object sizes, the total is their sum, and the percentage is the rounded percentage of the understood count, in 0..100 |
| Understanding.Statistics | functions/api/understanding.js:89-151 | 400 without `classId`, then 400 without `slideIndex`; all zeros when the slide has no record; otherwise the record's counts, rounded percentage and lesson id |
| Understanding.SubmitThenStatistics | functions/api/understanding.js:22-124 | a statistics query for the text of slide `n` right after a submit of slide number `n` reads the record that submit wrote, and counts the student in the object `understood` selects |
| Understanding.StatsAfterRecorded | functions/api/understanding.js:36-53 | after an answer the total grows by one exactly when the student had not answered that slide before |
| QrNames.Strip | WEB_QR_GEN/qr_generator.py:102 | `strip()` never lengthens the text and leaves no whitespace at either end |
| QrNames.StripMiddle | WEB_QR_GEN/qr_generator.py:102 | `strip()` keeps a contiguous slice of its input, starting where `lstrip` stops, and everything before and after that slice is whitespace |
| QrNames.StripLeading | WEB_QR_GEN/qr_generator.py:102 | `lstrip` removes exactly the leading whitespace |
| QrNames.StripTrailing | WEB_QR_GEN/qr_generator.py:102 | `rstrip` removes exactly the trailing whitespace |
| QrNames.StripFacts | WEB_QR_GEN/qr_generator.py:102-107 | the stripped text is empty exactly for blank input |
| QrNames.StripIdempotent | WEB_QR_GEN/qr_generator.py:102 | stripping twice equals stripping once |
| QrNames.Normalize | WEB_QR_GEN/qr_generator.py:111-112 | the result starts with `http://` or `https://`; a URL that already does is unchanged; any other becomes `https://` + url |
| QrNames.NormalizeIdempotent | WEB_QR_GEN/qr_generator.py:111-112 | normalising twice equals normalising once |
| QrNames.GenerateUrl | WEB_QR_GEN/qr_generator.py:101-112 | blank input is refused; otherwise the encoded URL is the normalised stripped text |
| QrNames.SaveUrl | WEB_QR_GEN/qr_generator.py:191-193 | the URL encoded on save always has a scheme |
| QrNames.SaveAgreesWithGenerate | WEB_QR_GEN/qr_generator.py:101-112 | for the same entry, save encodes what generate encoded; a blank entry, which generate refuses, is saved as `https://` |
| QrNames.RemoveWww | WEB_QR_GEN/qr_generator.py:164 | `replace("www.", "")` never lengthens the text, leaves text without `www.` unchanged, and removes at least four characters from text that contains it |
| QrNames.RemoveWwwFirst | WEB_QR_GEN/qr_generator.py:164 | the text before the first occurrence is kept, the occurrence is deleted, and the replacement goes on after it |
| QrNames.WwwCanReappear | WEB_QR_GEN/qr_generator.py:164 | the replacement is one pass: `wwww.ww.` becomes `www.` |
| QrNames.KeepAllowed | WEB_QR_GEN/qr_generator.py:166 | the filter never lengthens the text and every character it keeps is alphanumeric or `.`, `-`, `_`; their order and number are kept by `KeepAllowedAppend` |
| QrNames.KeepAllowedMembers | WEB_QR_GEN/qr_generator.py:166 | a character is in the filtered text exactly when it is in the input and is alphanumeric or `.`, `-`, `_` |
| QrNames.KeepAllowedAppend | WEB_QR_GEN/qr_generator.py:166 | the filter keeps the order and the multiplicity: filtering `a + b` is filtering `a`, then `b` |
| QrNames.KeepAllowedOne | WEB_QR_GEN/qr_generator.py:166 | a single character is kept exactly when it is allowed |
| QrNames.KeepAllowedUnchanged | WEB_QR_GEN/qr_generator.py:166 | text made only of allowed characters passes the filter unchanged |
| QrNames.SafeDomain | WEB_QR_GEN/qr_generator.py:162-170 | the domain part is never empty; it is the filtered location when that is non-empty, and exactly `qrcode` when the filter leaves nothing or `urlparse` raises; any other result holds only allowed characters |
| QrNames.Pad2 | WEB_QR_GEN/qr_generator.py:173 | a two-digit field is two digits whose decimal value is the number written |
| QrNames.Pad2Injective | WEB_QR_GEN/qr_generator.py:173 | two-digit fields read back uniquely |
| QrNames.TimestampText | WEB_QR_GEN/qr_generator.py:173 | `%Y%m%d_%H%M%S` is 15 characters: digits with `_` at position 8 |
| QrNames.TimestampFields | WEB_QR_GEN/qr_generator.py:173 | the timestamp reads back as its time: year from the first four digits, then month, day, hour, minute and second from two digits each |
| QrNames.TimestampInjective | WEB_QR_GEN/qr_generator.py:172-173 | different times give different timestamps, down to the second |
| QrNames.FileName | WEB_QR_GEN/qr_generator.py:174 | the file name is the domain part, `_`, the timestamp and `.png`, in that order |
| QrNames.FileNameInjective | WEB_QR_GEN/qr_generator.py:174 | a file name determines its domain part and its timestamp |
| QrNames.AutoSaveName | WEB_QR_GEN/qr_generator.py:161-174 | the saved name is a non-empty domain part, then `_`, a 15-character timestamp and `.png` |

## Findings

| source | as written | input that shows it | evidently intended | confidence | as-written member | corrected member |
|---|---|---|---|---|---|---|
| functions/api/slide.js:137-146 | a stored bare number parses as JSON, has no properties, and resolves to slide 0; the `Number(stored)` fallback only runs when parsing throws | stored text `3` (the legacy format) | the legacy bare number is read as the slide index | not executed; high | SlideStore.LegacyNumberIgnoredAsWritten | SlideStore.Resolve |
| functions/api/slide.js:203-207 | `cancel(controller)` is passed the cancellation reason, not the controller, so `removeClient` never removes the cancelled connection | any cancelled stream whose abort cleanup did not run | the cancelled connection is unregistered | not executed; medium | SlideRegistry.CancelAsWrittenKeepsConnection | SlideRegistry.Connection.Cancel |

The same bare-number rule appears in the plain GET (functions/api/slide.js:229-240). The model
uses `Resolve` for both the snapshot and the plain GET.

## Left out

- Streams and timers. `ReadableStream`, `TextEncoder`, `setInterval` and the abort wiring are left
  out. The two timers are `HeartbeatTick` and `WatchdogTick`, fired by the caller. The comment at
  functions/api/slide.js:156 says 60 s, but the code tests `> 90000`, and the model follows the code.
- The registry is process-local, as in the source. Sharing it across Worker instances is not modelled.
- `cleanupDisconnectedClients` and all `console` output are left out. They only log.
- SlideRegistry.NoEmptySets: this invariant is kept by add and remove but not by broadcast
  (`BroadcastCanLeaveEmptySet`), so it is not a class invariant of `Registry`.
- Concurrency. `Promise.allSettled` batches run one after another in the model. This gives the
  same lists, because `allSettled` keeps the order of its inputs.
- HEAD requests and `encodeURIComponent` are oracles. A rejected check is treated as not found.
- Lessons.SortBySlideNumber: `Array.prototype.sort` is modelled as an insertion sort on values,
  not in place. It is proved to give a sorted permutation. It is also proved to leave a list already
  in key order unchanged (`SortedUnchanged`). Stability beyond that is not stated. When the lesson
  id itself holds a match of `/슬라이드(\d+)\.JPG/`, every path gets that number as its key, and the
  model relies on this "unchanged" property to keep the batch order.
- SlideStore.ResolveAsWritten: a stored record keeps `lessonId` only when it is a string. A truthy
  non-string `lessonId` (such as `5`), which functions/api/slide.js:140 and 233 copy into the reply,
  resolves to `lesson1` here, because the position's `lessonId` is text in the model. The update
  handler only ever stores strings.
- SlideStore.Resolve: the same non-string `lessonId` gap as `ResolveAsWritten`.
- SlideApi.ReadCurrentState: it reads the store with the corrected `Resolve`. So a stored legacy
  bare number `n` gives slide `n`, where functions/api/slide.js:229-240 replies with slide 0. On
  every other stored value its contract also states the result of `ResolveAsWritten`.
- SlideApi.Subscribe: its snapshot uses the corrected `Resolve`. So a stored bare number `n` is sent
  as slide `n`, where functions/api/slide.js:133-146 sends slide 0. On every other stored value its
  contract also states the snapshot of `ResolveAsWritten`.
  The model also makes registration and the snapshot one atomic step. The source registers the
  connection first, then reads the store after an `await` inside an async block that nobody awaits
  (functions/api/slide.js:128-153). An update that arrives in between is broadcast to the new viewer
  before its snapshot, and that snapshot can then be older than the broadcast. The model does not
  capture that ordering.
- JSON text. `JSON.parse` and `JSON.stringify` are replaced by datatypes, and "parse throws" is
  its own variant. The `expirationTtl` of stored values is dropped.
- Store keys. Quiz and understanding keys are built by joining ids with `:`. The model keeps
  quiz records and active lists in separate maps keyed by the ids, so no two of them collide.
  In the source they share one key space, and collisions need no `:` inside an id: class
  `active` with quiz id `c1` stores its record at `quiz:active:c1` (functions/api/quiz.js:41),
  which is the active-list key of class `c1` (functions/api/quiz.js:47). The active listing of
  class `c1` then parses a quiz record instead of an array, `for … of` at
  functions/api/quiz.js:191 throws, and the reply is a 500. Ids that contain `:` collide in the
  same way. None of this is modelled.
- Non-string ids. Ids taken from a JSON body are strings in the model, and the empty string
  stands for every falsy value. A numeric `quizId` (which `String()` would turn into a key) is
  not modelled.
- Prototype keys. The source keeps answers, counts and students in plain JavaScript objects; the
  model uses maps, in which every string is an ordinary key. Keys that name inherited
  properties of `Object.prototype` behave differently in the source, and the lines below say
  where.
- Quiz.Tally: an answer whose key is `__proto__` reads `Object.prototype` at
  functions/api/quiz.js:164, and the string it assigns back is ignored, so that answer is not
  counted; keys such as `constructor`, `toString` or `valueOf` read an inherited function, so
  their count becomes a string such as `"function Object() { [native code] }1"`. For such keys
  the counts and the law that they add up to the total hold in the model only.
- Quiz.HandleGet: its tally is `Quiz.Tally`'s, with the same prototype-key gap.
- Quiz.Answer: a `studentId` of `__proto__` makes functions/api/quiz.js:97 set the prototype of
  `answers` instead of adding an entry, and `JSON.stringify` drops it, so the reply is a success
  but no answer is stored. The model stores the answer.
- Understanding.Submit: a `studentId` of `__proto__` is not recorded by the source
  (functions/api/understanding.js:50-52 assign a number to `__proto__`, which is ignored). The
  record the model writes holds the student.
- Understanding.SubmitThenStatistics: holds for every student id except `__proto__`, which the
  source does not count (see `Understanding.Submit`).
- Understanding.Recorded: a `studentId` of `__proto__` lands in neither object in the source; the
  model puts it in the one `understood` selects. Apart from that, `studentId` is a string in the
  model. functions/api/understanding.js:14 also accepts a non-zero number. `Object.keys` yields strings, so `key === studentId` at lines 38
  and 43 never matches a number. A numeric student who changes their answer is then left in both
  objects. The model does not capture that.
- Understanding.RecordedKeepsDisjoint: holds for string student ids only. A numeric `studentId`
  ends up in both objects in the source (see `Understanding.Recorded`).
- Understanding.StatsAfterRecorded: holds for string student ids other than `__proto__`. For a
  numeric `studentId` who answers again, the source's total grows by one; for `__proto__` it does
  not grow at all.
- Quiz.Create and Quiz.Answer are modelled, but the `action` dispatch of the quiz POST is not
  (any other action gets 400). Neither is the 500 reply when the body is not JSON.
- Understanding.Percentage: this is the integer formula `(200u + t) / (2t)`. The floating-point
  rounding of `Math.round(u / t * 100)` is not modelled.
- `parseInt(slideIndex)` in the statistics reply is returned as the raw query text.
- Numbers are integers. Non-integer slide indexes are not modelled.
- Timestamps (`Date.now()`, `datetime.now()`) are inputs.
- QrNames.TimestampText: `%Y` is modelled for four-digit years only (1000-9999).
- Responses. HTTP status codes, CORS headers, `onRequestOptions` and response bodies appear only
  as reply tags.
- The QR tool. Tkinter widgets, the `qrcode` encoder, PIL, file dialogs, `os.makedirs` and
  `img.save` are left out. Python's `str.isalnum` is a parameter, and so is the network location
  that `urlparse` extracts.
- `functions/api/students.js` is not part of this model. It always returns a count of 0.

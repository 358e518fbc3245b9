# fit1 core, modelled in Dafny

fit1 is a fitness tracker built on Next.js. Its API routes read a user id from the `Cookie` header and validate request bodies against zod schemas. They then talk to a MongoDB `User` collection, to a language model and to the WorkOS identity provider. A few pure helpers classify sleep, weight and BMI values, and two form components check a submission before handing it on.

This project models that logic:

- Reading the session id out of a raw `Cookie` header. Both variants in the routes are covered: the text after `fit1-session=`, and the text after the first `=` (module `SessionCookie`). The cookie syntax is that of section 4.2.1 of RFC 6265, but the routes only split text.
- The edge middleware's public-path rule and its redirect decision (`Middleware`).
- The development nutrition store: a list of documents that only grows, and its history query (filter, sort latest first, keep seven) (`VectorStore`).
- `getTodayDate` (the `full-date` form of section 5.6 of RFC 3339 for four-digit years) and the date fallback of the history routes (`Dates`).
- The handlers, each over an abstract database that records every call in order (`Store`):
  - user details `PUT`/`GET` (`UserDetailsRoute`);
  - water history and water tracking (`WaterHistoryRoute`, `WaterTrackRoute`);
  - nutrition history and analysis (`NutritionHistoryRoute`, `NutritionAnalyzeRoute`);
  - weight tracking (`WeightTrackRoute`);
  - the WorkOS callback (`WorkosCallbackRoute`).
- The sleep and weight model helpers (`Sleep`, `WeightTrend`).
- The sleep and weight form logic (`SleepTracker`, `WeightTracker`).

Shared pieces:

- `Wrappers`: `Option` and `Result`.
- `Text`: `split`, `join`, `trim`, prefix/suffix tests and string order.
- `Decimal`: `String(n)` and digit parsing.
- `Json`: request bodies, JavaScript truthiness and zod issue lists.
- `NutritionTypes`: the food-analysis records.

Modelling conventions:

- Clock readings are parameters: `now`, and the local date fields.
- The language model, the WorkOS `authenticateWithCode` call, and the store functions and the `Weight` model the routes import but the source does not define are function-typed parameters returning a `Result`. A `Failure` stands for a call that throws.
- A `Cookie` header that is absent is `None`. So is a body for which `request.json()` throws.
- Effect order is stated on `Database.log`. The `User` collection is `Database.users`, and the weight entries whose save succeeded are `Database.weights`.

## Model

| member | source | states |
|---|---|---|
| SessionCookie.ReadSessionId | src/app/api/nutrition/history/route.ts:22-24 | the two statements compute the split-based session id, and it never contains `;` |
| SessionCookie.SessionIdAbsent | src/app/api/nutrition/history/route.ts:23 | with no header, or no `fit1-session=` in it, the id is `''` |
| SessionCookie.SessionIdSpec | src/app/api/nutrition/history/route.ts:23-24 | the id is the longest text right after the first `fit1-session=` that holds neither `;` nor the marker again |
| SessionCookie.SessionIdHasNoSemicolon | src/app/api/nutrition/history/route.ts:24 | the extracted id never contains `;` |
| SessionCookie.SessionIdOfCookie | src/app/api/nutrition/history/route.ts:23-24 | a header `before + "fit1-session=" + v + (";…" or nothing)`, with no marker in `before`, yields exactly `v` |
| SessionCookie.SuffixNameAlsoMatches | src/app/api/nutrition/history/route.ts:23 | the name is matched as raw text: `xfit1-session=abc` yields `abc` |
| SessionCookie.SessionIdAmongCookies | src/app/api/water/history/route.ts:22-24 | `theme=dark; fit1-session=u42; lang=en` yields `u42` |
| SessionCookie.ReadFirstValue | src/app/api/nutrition/analyze/route.ts:18-20 | the first-`=` variant's two statements compute `UserIdFromFirstValue`, free of `;` |
| SessionCookie.FirstValueAbsent | src/app/api/nutrition/analyze/route.ts:19 | with no header, or no `=` in it, the first-`=` variant yields `''` |
| SessionCookie.FirstValueSpec | src/app/api/nutrition/analyze/route.ts:19-20 | the id is the longest text right after the header's first `=` that holds neither `=` nor `;` |
| SessionCookie.FirstValueOfCookie | src/app/api/nutrition/analyze/route.ts:19-20 | a header `name=value` followed by nothing, `;` or `=`, with no `=` in the name or value and no `;` in the value, yields exactly the value |
| SessionCookie.FirstValueIsFirstCookie | src/app/api/nutrition/analyze/route.ts:19-20 | for values without `=`, the first-`=` variant returns the value of the first cookie, whatever its name |
| SessionCookie.FirstValueCutAtEquals | src/app/api/nutrition/analyze/route.ts:19 | a first cookie value holding `=` (base64 padding, as in `tok=YWJj==`) is cut at its first `=` |
| SessionCookie.VariantsDisagree | src/app/api/nutrition/analyze/route.ts:18-20 | when another cookie comes first, the two variants give different ids (`dark` against `u42`) |
| Middleware.PublicPathsPassThrough | middleware.ts:8-46 | a named public path, or one matching a prefix/suffix rule, is public and always passes through |
| Middleware.RootIsNotPublic | middleware.ts:19-36 | `/` is not public |
| Middleware.RedirectIffRootWithoutSession | middleware.ts:43-66 | redirect exactly when the path is `/` and there is no session cookie; the target is `/api/auth/signin` with the request URL as callback |
| Middleware.AuthRoutesPassThrough | middleware.ts:28-46 | every path under `/api/auth/` passes through |
| Middleware.OnlyAuthErrorNeedsTheSet | middleware.ts:8-35 | of the named public paths, exactly `/auth/error` is not already covered by the prefix/suffix rules |
| VectorStore.AtOrBefore | src/lib/vectorstore.ts:25 | each record is kept as often as it occurs when its time is `<=` the query time, and dropped otherwise |
| VectorStore.SortDesc | src/lib/vectorstore.ts:26 | the result is sorted latest first and is a permutation of its input |
| VectorStore.InsertDescSorted | src/lib/vectorstore.ts:26 | inserting into a list sorted latest first keeps it sorted |
| VectorStore.InsertDescKeepsTies | src/lib/vectorstore.ts:26 | an inserted record lands ahead of every record with the same time, and records with other times keep their order |
| VectorStore.SortDescStable | src/lib/vectorstore.ts:26 | the sort is stable: the records with any one time come out in the order of the filtered list it is given, as `Array.prototype.sort` guarantees |
| VectorStore.AtOrBeforeKeepsTies | src/lib/vectorstore.ts:25 | for a time at or before the query time, the filter keeps all records with that time, in store order |
| VectorStore.TiesInStoreOrder | src/lib/vectorstore.ts:25-26 | after filter and sort, the qualifying records that share a time come out in their store order |
| VectorStore.HistorySize | src/lib/vectorstore.ts:27 | the history holds `min(7, number of qualifying records)` records |
| VectorStore.HistoryQualifiesAndSorted | src/lib/vectorstore.ts:24-27 | every returned record comes from the store, has time `<=` the query time, and the result runs latest first |
| VectorStore.HistoryFromQualifying | src/lib/vectorstore.ts:24-27 | the history is the front of the sorted qualifying records, as a sub-multiset of the store |
| VectorStore.HistoryIsTop | src/lib/vectorstore.ts:25-27 | no qualifying record left out is later than any returned record |
| VectorStore.NutritionStore.StoreNutritionData | src/lib/vectorstore.ts:12-21 | the document built from the arguments is returned and appended at the end; earlier records are unchanged |
| VectorStore.NutritionStore.QueryNutritionHistory | src/lib/vectorstore.ts:23-28 | the query answers `History(records, time)` and modifies nothing |
| Dates.GetTodayDate | src/app/api/nutrition/history/route.ts:5-17 | the padding steps produce year, `-`, two-digit month (`getMonth()+1`) and two-digit day |
| Dates.PaddedRendering | src/app/api/nutrition/history/route.ts:7-14 | prefixing `0` when `parseInt` is below 10 gives exactly the two-digit rendering of 1..99 |
| Dates.FullDateRoundTrip | src/app/api/water/history/route.ts:5-17 | for four-digit years the date has the `YYYY-MM-DD` shape and parses back to its year, month and day |
| Dates.YearNotPadded | src/app/api/nutrition/history/route.ts:15 | the year is not padded: year 999 gives `999-01-05`, which is not `full-date` shaped |
| Dates.DateOrToday | src/app/api/nutrition/history/route.ts:26 | a non-empty `date` parameter is used verbatim; a missing or empty one gives today's date |
| NutritionHistoryRoute.CaloriesOf | src/app/api/nutrition/history/route.ts:30 | an entry contributes its `totalCalories`, and 0 when the analysis or value is missing |
| NutritionHistoryRoute.TotalOfAppend | src/app/api/nutrition/history/route.ts:30 | the calorie total splits over concatenation |
| NutritionHistoryRoute.TotalOfOne | src/app/api/nutrition/history/route.ts:30 | a single entry's total is its calories |
| NutritionHistoryRoute.TotalNonNegative | src/app/api/nutrition/history/route.ts:30 | with no negative counts, the total is not negative |
| NutritionHistoryRoute.TotalBoundsEachEntry | src/app/api/nutrition/history/route.ts:30 | with no negative counts, the total bounds every entry's calories |
| NutritionHistoryRoute.Get | src/app/api/nutrition/history/route.ts:19-45 | answers the date used, the total of the queried entries, the entries and the user id; a failing query gives the error |
| WaterHistoryRoute.Get | src/app/api/water/history/route.ts:19-42 | echoes the date used and passes the query's entries and total through; a failing query gives the error |
| WaterTrackRoute.WaterGoal | src/app/api/water/track/route.ts:21 | the goal is the user's truthy `waterIntakeRecommended`; when the user, profile or goal is missing or the goal is 0, it is 2000; it is never 0 |
| WaterTrackRoute.DefaultGoalWhenUnknown | src/app/api/water/track/route.ts:20-21 | an unknown user, or one with no recorded goal, gets 2000 |
| WaterTrackRoute.ZeroAmountIsMissing | src/app/api/water/track/route.ts:16 | an amount of 0 counts as missing |
| WaterTrackRoute.ToNumber | src/app/api/water/track/route.ts:23 | `Number(amount)`: a number is kept, a string goes through the runtime's parser |
| WaterTrackRoute.Post | src/app/api/water/track/route.ts:8-37 | missing fields give 400 with no effect; otherwise lookup, then analysis with the goal, then storage of the same intake and user id, in that order; the intake is `water` with the submitted time |
| WeightTrackRoute.WeightInputAcceptedIff | src/app/api/weight/track/route.ts:8-12 | accepted exactly when `weight` is a number and `date` a string; the values kept are the body's |
| WeightTrackRoute.NegativeWeightAccepted | src/app/api/weight/track/route.ts:9 | a negative weight is accepted |
| WeightTrackRoute.WithProfileWeight | src/app/api/weight/track/route.ts:34-38 | only `userDetails.weight` changes, and a missing profile is created holding only the weight |
| WeightTrackRoute.AfterWeightUpdate | src/app/api/weight/track/route.ts:34-38 | only the session user changes; an unknown id changes nothing |
| WeightTrackRoute.WeightUpdateKeepsUniqueKeys | src/app/api/weight/track/route.ts:34-38 | the update keeps WorkOS ids and emails unique |
| WeightTrackRoute.WeightUpdateIdempotent | src/app/api/weight/track/route.ts:34-38 | recording the same weight twice equals recording it once |
| WeightTrackRoute.RecordWeight | src/app/api/weight/track/route.ts:25-38 | the save is made first; when it succeeds the entry is kept and then the profile weight is updated, and when it fails nothing but the save attempt is recorded and the profile is untouched |
| WeightTrackRoute.Post | src/app/api/weight/track/route.ts:14-60 | invalid input changes nothing; otherwise the entry carries the session id, weight and date; a failing save answers 400 with its message, with the profile untouched and no feedback asked for; after a successful save the profile weight follows, and feedback is asked for only when `userDetails` is truthy, else `aiFeedback` is null |
| NutritionAnalyzeRoute.FoodInputAcceptedIff | src/app/api/nutrition/analyze/route.ts:8-11 | accepted exactly when `food` and `time` are strings; the values kept are the body's |
| NutritionAnalyzeRoute.ExtraKeysStripped | src/app/api/nutrition/analyze/route.ts:8-23 | adding any other key to the body does not change what is forwarded |
| NutritionAnalyzeRoute.EmptyStringsAccepted | src/app/api/nutrition/analyze/route.ts:8-11 | empty strings are accepted |
| NutritionAnalyzeRoute.Post | src/app/api/nutrition/analyze/route.ts:13-45 | an invalid body reaches neither analysis nor storage; otherwise analysis then storage under the first-`=` user id, and the response is the stored data |
| UserDetailsRoute.EnumNamesRoundTrip | src/app/api/user/details/route.ts:12-14 | every enum value parses back from its name |
| UserDetailsRoute.EnumParsersAcceptTheirNames | src/app/api/user/details/route.ts:12-14 | each enum accepts exactly its option list |
| UserDetailsRoute.AcceptedIff | src/app/api/user/details/route.ts:8-15 | accepted exactly when height is in [1,300], weight in [1,500], age in [1,150] and the three enums hold listed values; otherwise the issue list is not empty |
| UserDetailsRoute.IssuesNameFailingFields | src/app/api/user/details/route.ts:8-15 | each schema field appears in the issues exactly when it breaks its constraint |
| UserDetailsRoute.IssuesOnlyNameSchemaKeys | src/app/api/user/details/route.ts:8-15 | issues point only at schema keys |
| UserDetailsRoute.StoredIsBodyWithoutUnknownKeys | src/app/api/user/details/route.ts:29-38 | what is stored is the body restricted to the six schema keys, value for value |
| UserDetailsRoute.AfterPut | src/app/api/user/details/route.ts:38 | `userDetails` is replaced wholesale and `name` becomes `summa`; every other field and user is untouched |
| UserDetailsRoute.AfterPutKeepsUniqueKeys | src/app/api/user/details/route.ts:38 | the update keeps WorkOS ids and emails unique |
| UserDetailsRoute.PutIsIdempotent | src/app/api/user/details/route.ts:38 | writing the same profile twice equals writing it once |
| UserDetailsRoute.GetResponse | src/app/api/user/details/route.ts:76-87 | 401 exactly without a session, 404 exactly for an unknown user, otherwise the stored `userDetails`, or `None` for a user without a profile |
| UserDetailsRoute.PutThenGet | src/app/api/user/details/route.ts:38-87 | a `GET` after a successful `PUT` returns the validated profile |
| UserDetailsRoute.Put | src/app/api/user/details/route.ts:17-69 | 401 before the body is read; an invalid body gives 400 with its issues and no change; an unknown user gives 404 with no update; otherwise the profile is replaced and returned |
| UserDetailsRoute.Get | src/app/api/user/details/route.ts:71-95 | answers `GetResponse` of the collection and changes nothing but the call log, so two `GET`s agree |
| Sleep.Round | src/models/Sleep.ts:49 | `Math.round`: the nearest integer, halves rounded up |
| Sleep.DurationIsHalfUpDivision | src/models/Sleep.ts:48-50 | on whole milliseconds the duration is `(ms + 30000) div 60000` |
| Sleep.DurationSign | src/models/Sleep.ts:48-50 | 0 for equal readings; negative exactly when the end is more than 30 s before the start; never positive when the end precedes the start |
| Sleep.DurationOfWholeMinutes | src/models/Sleep.ts:48-50 | a whole number of minutes is returned unchanged |
| Sleep.SleepCycles | src/models/Sleep.ts:52-55 | `c` complete 90-minute cycles: `90c <= d < 90(c+1)` |
| Sleep.CyclesMonotone | src/models/Sleep.ts:52-55 | a longer night never has fewer cycles |
| Sleep.SleepEfficiency | src/models/Sleep.ts:57-62 | defined exactly when the time in bed is not 0 |
| Sleep.EfficiencyBounds | src/models/Sleep.ts:57-62 | asleep the whole time is 100; asleep part of a positive time is between 0 and 100 |
| Sleep.EntryErrors | src/models/Sleep.ts:11-20 | an entry is rejected exactly when the user id is empty or quality is outside [1,10]; `userId` is reported exactly when it is empty, and `quality` exactly when it is out of range |
| WeightTrend.DetermineWeightTrend | src/models/Weight.ts:70-78 | `stable` exactly when the change is below the threshold; otherwise `up` exactly when current > previous, else `down` |
| WeightTrend.DefaultIsHalfKilogram | src/models/Weight.ts:73-76 | with the default threshold, `stable` exactly when the change lies strictly between -0.5 and 0.5 |
| WeightTrend.EqualWeights | src/models/Weight.ts:75-77 | equal weights give `stable` for a positive threshold and `down` otherwise |
| WeightTrend.SwapMirrors | src/models/Weight.ts:75-77 | swapping the weights swaps `up` and `down` and keeps `stable`, except for equal weights at a non-positive threshold |
| WeightTrend.SwapFailsAtZeroThreshold | src/models/Weight.ts:75-77 | at threshold 0, equal weights give `down` both ways round |
| WeightTrend.TrendMonotoneInCurrent | src/models/Weight.ts:75-77 | raising the current weight never lowers the trend |
| SleepTracker.InitialQuality | src/components/SleepTracker.tsx:48 | a missing or zero quality becomes 7 |
| SleepTracker.InitialForm | src/components/SleepTracker.tsx:38-52 | without initial data the form starts at the default times, quality 7, no notes and no tags |
| SleepTracker.RemoveAll | src/components/SleepTracker.tsx:61 | the tag is gone, and every other tag keeps its count |
| SleepTracker.RemoveAllAbsent | src/components/SleepTracker.tsx:61 | removing an absent tag changes nothing |
| SleepTracker.RemoveAllAppend | src/components/SleepTracker.tsx:61 | removal distributes over concatenation |
| SleepTracker.ToggleFlipsOnlyThatTag | src/components/SleepTracker.tsx:59-64 | toggling flips membership of that tag and no other |
| SleepTracker.ToggleAbsentAppends | src/components/SleepTracker.tsx:62-63 | an absent tag is appended at the end |
| SleepTracker.ToggleAbsentTwice | src/components/SleepTracker.tsx:59-64 | toggling an absent tag twice restores the list |
| SleepTracker.JsRemainder | src/components/SleepTracker.tsx:56 | JavaScript's `%`: the remainder has the dividend's sign and is smaller than the divisor |
| SleepTracker.PartsRecombine | src/components/SleepTracker.tsx:56 | for `d >= 0`, the shown hours and minutes give `60h + m = d` with `0 <= m < 60` |
| SleepTracker.NegativePartsDoNotRecombine | src/components/SleepTracker.tsx:56 | -30 minutes shows as `-1h -30m` |
| SleepTracker.HandleSubmit | src/components/SleepTracker.tsx:68-90 | accepted exactly when start < end and duration > 0, with the matching alert otherwise; the submission carries the start, end, duration, quality, notes and exactly the selected tags |
| SleepTracker.SubmittedTagsAfterToggle | src/components/SleepTracker.tsx:59-89 | after toggling an absent tag on, the submission carries the old tags plus that tag |
| WeightTracker.GetBmiCategory | src/components/WeightTracker.tsx:101-106 | Underweight below 18.5, Normal in [18.5,25), Overweight in [25,30), Obese from 30, each an if-and-only-if |
| WeightTracker.CategoryMonotone | src/components/WeightTracker.tsx:101-106 | a larger BMI never gives a lower category |
| WeightTracker.ShownBmi | src/components/WeightTracker.tsx:63-71 | a BMI is shown exactly when height and weight are both truthy, and it is the rounded `weight / (height/100)^2` |
| WeightTracker.BarWidth | src/components/WeightTracker.tsx:155 | at most 100, and `bmi * 2.5` up to a BMI of 40 |
| WeightTracker.CollectStep | src/components/WeightTracker.tsx:85-89 | each conditional assignment adds its field exactly when the value is truthy |
| WeightTracker.CollectedEverything | src/components/WeightTracker.tsx:84-97 | after the five steps the record holds exactly the truthy measurements, with their values |
| WeightTracker.CollectMeasurements | src/components/WeightTracker.tsx:84-89 | the five assignments, in order, collect from all five fields |
| WeightTracker.HandleSubmit | src/components/WeightTracker.tsx:74-99 | rejected exactly when weight <= 0; otherwise the fields pass through, and `measurements` is absent exactly when nothing is truthy, else holds exactly the truthy ones |
| WorkosCallbackRoute.NameFallsBackToEmail | src/app/api/auth/callback/workos/route.ts:46 | without a first name the display name is the email |
| WorkosCallbackRoute.NameOfPlainNames | src/app/api/auth/callback/workos/route.ts:46 | names without surrounding white space give `first last`, or `first` alone when there is no last name |
| WorkosCallbackRoute.NewUser | src/app/api/auth/callback/workos/route.ts:44-50 | the created user carries the provider's email, id and picture, the display name and the login time |
| WorkosCallbackRoute.Relogin | src/app/api/auth/callback/workos/route.ts:53-55 | only `lastLogin` changes, plus `picture` when the provider gives one |
| WorkosCallbackRoute.FindsTheKnownUser | src/app/api/auth/callback/workos/route.ts:40-56 | a known WorkOS id finds that user and updates it |
| WorkosCallbackRoute.CreatesOrClashes | src/app/api/auth/callback/workos/route.ts:40-51 | an unknown WorkOS id creates the user, unless the email is already taken |
| WorkosCallbackRoute.FindOrCreateKeepsUniqueKeys | src/app/api/auth/callback/workos/route.ts:40-56 | find-or-create keeps WorkOS ids and emails unique |
| WorkosCallbackRoute.CreatesIffUnknown | src/app/api/auth/callback/workos/route.ts:40-56 | a user is created exactly when none has that WorkOS id; otherwise the existing id is reused and no user is added |
| WorkosCallbackRoute.SecondLoginReusesUser | src/app/api/auth/callback/workos/route.ts:40-56 | a second login with the same identity finds the first login's user and creates none |
| WorkosCallbackRoute.SessionCookies | src/app/api/auth/callback/workos/route.ts:62-89 | the session cookie carries the user id, every cookie lives 604800 s, and each token cookie is set exactly when its token is present |
| WorkosCallbackRoute.RedirectTarget | src/app/api/auth/callback/workos/route.ts:59 | the `state` parameter when present, else `http://localhost:3000` |
| WorkosCallbackRoute.FindOrCreateUser | src/app/api/auth/callback/workos/route.ts:40-56 | the lookup, then the save or the create, leaves the collection as find-or-create says |
| WorkosCallbackRoute.Get | src/app/api/auth/callback/workos/route.ts:12-96 | no code: error redirect with no call made; failed authentication: error redirect; otherwise find-or-create, then a redirect to the target with the cookies |

## Left out

- Network, `connectDB`, `console.log` and `NextResponse` are left out. Responses keep only their status and payload fields, and runtime error messages become the `MalformedBody` or `ServerError` outcomes.
- The language-model services (`analyzeFoodIntake`, `analyzeWaterIntake`, `generateAIFeedback`) are parameters. `src/lib/openai.ts` and `src/lib/db.ts` are not part of this model.
- `queryNutritionForDate`, `queryWaterForDate` and `storeWaterData` are not defined by the store module, so they are parameters. The same goes for the three-argument `storeNutritionData` call of the analyze route, which does not match the store's two-argument function.
- WeightTrackRoute.RecordWeight: the `Weight` model imported by the weight route is not exported by `src/models/Weight.ts`, which defines only the `WeightEntry` and `WeightAnalysis` types. Its `save()` is the parameter `saveWeight`, and the model promises nothing about what a save does beyond its success or its error.
- `authenticateWithCode` is a parameter. The signin and signout routes, `src/lib/workos.ts` and `src/middleware.ts` are not part of this model.
- Strings are sequences of Unicode scalar values rather than UTF-16 code units. Outside the Basic Multilingual Plane, `length`, indexing and comparison order differ from JavaScript's, and lone surrogates are not represented. In comparison, characters U+E000 to U+FFFF come after those outside the plane in UTF-16 code-unit order, but before them in scalar-value order. Times written as `HH:MM` are not affected.
- Cookie attributes `secure`, `sameSite` and `path` are left out, and so is the URL encoding of `callbackUrl`.
- `localeCompare` in the history sort is approximated by code-unit order, the order of the filter's `<=`. The default collation of `localeCompare` is not code-unit order even on ASCII text: it orders `a` before `B`, and `1:00` before `10:00`. The two orders agree on zero-padded `HH:MM` times; on unpadded times or mixed case they can differ, and then the model may keep other records among the seven than the source.
- `calculateBMI`, `calculateWeightChange` and the BMI's `toFixed(1)` are left out, because they round IEEE doubles in decimal. `WeightTracker.ShownBmi` takes the rounding as a parameter.
- All numbers are exact reals, not IEEE doubles, with no `NaN` or infinities. This matters for `Sleep.SleepEfficiency` and `Sleep.Round`: a double quotient can fall just short of an exact half. For example, 29/200*100 is 14.499999999999998 in doubles, which `Math.round` takes to 14, where the model gives 15.
- `Number()` of an array or object is `NaN` in the model. Of a string, it is a parameter.
- `differenceInMinutes` is an input to the sleep form. The form's default times, yesterday 22:00 and today 07:00, are parameters.
- An id that is not a valid ObjectId, including the `''` read from a request without a session cookie, makes Mongoose throw a cast error. Here it is a plain miss. This affects the `findById` calls of the water and user-details routes. It also affects the weight route's `findByIdAndUpdate`: there the source answers 400 with the cast error's message after the weight entry is saved, where `WeightTrackRoute.Post` answers success with the profile unchanged.
- A user deleted between the lookup and the update of a `PUT` is not modelled: lookup and update happen in one step.
- `waterIntakeRecommended` is read by the water route but is not in the `User` schema. It is modelled as an optional field that no route writes.
- UI rendering, React state and effects, and the dashboard components are left out.
- The Mongoose schemas are used only to shape the datatypes.
- SleepTracker.JsRemainder: states only the remainder's sign and bound, not `a - r` being a multiple of `b`. That fact follows from the definition but is costly for the solver.
- UserDetailsRoute.GetResponse: `Fetched(None)` stands for a found user with no stored profile. The source answers `user.userDetails || null` there, but `userDetails` is a nested path of the `User` schema (src/models/User.ts:11-18). Mongoose reads a nested path as an object, so the source answers `{"userDetails": {}}` rather than `null`. This is the usual first GET after sign-up.
- WorkosCallbackRoute.Get: the error exits pass relative locations (`/auth/error?...`) to `NextResponse.redirect`. That covers a missing code, a failed authentication with no user, and the catch. `NextResponse.redirect` accepts only absolute URLs and throws on a relative one. So in the source the missing-code and no-user exits throw into the catch, whose own redirect throws again, and the request ends in a 500 instead of a redirect. The same holds for a relative `state`. The model answers each of these with the redirect the handler asks for.
- The two identical copies of `getTodayDate`, in the nutrition-history and the water-history routes, are modelled once, as `Dates.GetTodayDate`.

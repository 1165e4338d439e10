# Buss'd route progress and sign-in checks, modelled in Dafny

Buss'd is a mobile app in which a user records how much of a bus line they have travelled.
This project models the three pieces of it that carry real logic:

- **The backend's stop-span endpoint** (`TflApi`). GET /stops lists the stops of a line's
  first stop sequence with their number. GET /stops-between finds the first positions of two
  stop ids on that sequence. It returns their distance `count`, the ids strictly between them,
  and all the ids. Its errors are a 404 when there is no sequence and a 400 when either id is
  not on the line. The route-sequence document it reads is an input.
- **The add-route and edit-route screens** (`RouteScreen`, `AddRoute`, `EditRoute`,
  `Percentage`). Each screen fetches a line's stops into a picker. The add screen selects the
  first and last stop. The edit screen keeps a complete selection, or seeds it from the stored
  route. Each screen then looks up the span, computes `Math.round(count / length * 100)` and
  records or updates the route. HTTP replies are inputs (`Backend.Reply`). A run returns the
  requests it sent and how it ended: a dialog, navigation, or a success dialog.
- **The sign-in form's checks** (`Validation`, `AuthForm`). These are the e-mail pattern,
  password strength, confirmation, the per-field error record of `validateForm`, and the guard
  that stops sign-in and sign-up on an invalid form.

Modelling conventions:

- JavaScript falsy values are modelled as `""`. A `null` selection, an absent `error` field and
  an absent stop name all read as the empty string. Every place that reads them only tests
  truthiness, so this loses nothing.
- The percentage is exact integer arithmetic. `Math.round(x)` is `floor(x + 1/2)`, which is
  `(200 * count + length) / (2 * length)` for `length > 0`.
- An empty `all_stop_ids` is modelled as JavaScript evaluates it. It gives `NaN`, `Infinity` or
  `-Infinity`, and the request carries that text. The screens do not guard against it, so
  neither does the model.
- `getPasswordRequirements()` asks for a special character. `validatePassword` has that test
  commented out. The model records the mismatch (`Validation.RequirementsOverstatePolicy`) and
  keeps the predicate as written.
- The code is looser than a stricter reading of the workflow would be, and the model follows
  the code. No screen turns an empty `all_stop_ids` or an out-of-range percentage into an error.
  The user id is not checked before adding a route. The backend's `count` is the distance
  between the two positions, not an inclusive number of stops.
- With a complete selection, the edit screen's fetch guard keeps it even after the route
  number has changed. The kept stops may then not be on the new line
  (`EditRoute.KeptSelectionMayBeStale`).
- The add screen's "successfully adds a route" unit test never fetches stops, so its press of
  "Add Route" stops at the "Missing Info" guard. Its only expectation sits in a timer callback
  the test does not wait for (`AddRoute.AddTestWithoutSelection`).
  `AddRoute.ThreeStopScenario` is the run the test's mocked replies describe once stops are
  chosen.

## Model

| member | source | states |
|---|---|---|
| Common.IndexOf | bussd-api/tflApi/tflapi.py:86-87 | `list.index`: finds nothing exactly when the id is absent; otherwise the position holds the id and no earlier one does |
| TflApi.GetStops | bussd-api/tflApi/tflapi.py:49-64 | 404 "No stop sequences found." exactly when there is no sequence; otherwise the stops of the first sequence, with `stop_count` equal to their number |
| TflApi.StopsBetween | bussd-api/tflApi/tflapi.py:73-97 | 404 before any lookup when there is no sequence. Success exactly when both ids are on the first sequence, else 400 with no partial result. On success: first-occurrence positions, `count` their distance (at most length - 1), the ids strictly between them in line order (max(count - 1, 0) of them), and all ids |
| TflApi.StopsBetweenSymmetric | bussd-api/tflApi/tflapi.py:88-90 | swapping the two ids swaps the positions and leaves success, count, ids between and all ids unchanged |
| TflApi.SameStopIsEmptySpan | bussd-api/tflApi/tflapi.py:88-90 | from a stop to itself the count is 0 and nothing lies between |
| TflApi.SpanWithinListing | bussd-api/tflApi/tflapi.py:54-94 | both endpoints read the same first sequence: the 404 happens for both or neither, `all_stop_ids` are the listed stops' ids, and `count` is below `stop_count` |
| TflApi.FourStopExample | bussd-api/tests/tflApi_test.py:46-68 | line a, b, c, d from a to d gives count 3 and b, c between |
| TflApi.UnknownStopExample | bussd-api/tests/tflApi_test.py:70-89 | ids not on the line x, y give the 400 error |
| Percentage.RoundedPercentage | screens/AddBusRoute.tsx:76-77 | for a non-empty stop list the result is the integer r with r - 1/2 <= 100·count/length < r + 1/2; for an empty list NaN, Infinity or -Infinity by the sign of count |
| Percentage.RoundingIsUnique | screens/AddBusRoute.tsx:77 | the round-half-up characterisation has only one solution, so the computed percentage is the rounding |
| Percentage.PercentageInRange | screens/AddBusRoute.tsx:76-77 | with 1 <= length and 0 <= count <= length the percentage is a whole number from 0 to 100 |
| Percentage.PercentageMonotone | screens/EditBusRoute.tsx:117-118 | a larger count never gives a smaller percentage |
| Percentage.WholeLineBelowHundred | screens/AddBusRoute.tsx:76-77 | with the backend's largest count, length - 1, a line of 2 to 199 stops records less than 100 |
| Percentage.RoundingExamples | screens/AddBusRoute.tsx:77 | 1 of 8 gives 13 (half rounds up), 4 of 8 gives 50, 1 of 3 gives 33, 2 of 3 gives 67 |
| Percentage.DigitsRoundTrip | screens/EditBusRoute.tsx:123 | the decimal digits written for a natural number read back as that number |
| Percentage.NumberText | screens/EditBusRoute.tsx:123 | `String(x)`: a whole number is an optional '-' and decimal digits with no leading zero; NaN and the infinities are "NaN", "Infinity", "-Infinity" |
| Percentage.NumberTextRoundTrip | screens/EditBusRoute.tsx:123 | the text written for any whole number, NaN or infinity reads back as that value; it is JavaScript's `String(x)` for magnitudes below 10^21, which covers every percentage a backend count yields (0 to 100) |
| Percentage.NumberTextInjective | screens/EditBusRoute.tsx:123 | two different percentages are never sent as the same text |
| RouteScreen.ToItems | screens/AddBusRoute.tsx:38-41 | one item per stop in order, valued by the id, labelled by the name or else the id; a label is empty only when both are |
| RouteScreen.LoadStops | screens/AddBusRoute.tsx:32-45 | items exactly when the reply is ok, error-free and lists at least one stop. Items keep the reply's order, value = id, label = name or else id. A refusal alerts the server's error or "Unable to fetch stops". An empty list alerts "No Stops Found". A crash alerts the generic message |
| AddRoute.FetchStops | screens/AddBusRoute.tsx:24-54 | an empty route id alerts "Input Required" and sends nothing; otherwise one outbound stops request. On failure the picker is untouched and the loader's dialog is shown. On success the items are shown with the first and last stop selected |
| AddRoute.DefaultSelectionIsOnLine | screens/AddBusRoute.tsx:38-49 | fed what GET /stops lists, the fetch shows every stop, and its first-and-last default selection is accepted by GET /stops-between on the same line, from position 0; a line with no stops gives "No Stops Found" |
| AddRoute.HandleAddRoute | screens/AddBusRoute.tsx:56-94 | a missing field alerts "Missing Info" and sends nothing. The add request goes out exactly when the lookup succeeded, carrying the lookup's percentage. Navigation happens exactly when both calls succeed. Each failure alerts the server's error or the step's fallback message |
| AddRoute.FailedLookupIgnoresAddReply | screens/AddBusRoute.tsx:69-74 | after a failed lookup the run ends in a dialog, whatever the add endpoint would answer |
| AddRoute.RecordedPercentageInRange | screens/AddBusRoute.tsx:64-82 | fed what GET /stops-between computes, the add request carries the decimal text of a percentage from 0 to 100 |
| AddRoute.ThreeStopScenario | screens/AddBusRoute.tsx:56-94 | with the first and third stop of a three-stop line chosen, and the replies the unit test mocks (count 2 of 3, then an accepted add), the add request carries "67" and the run reaches the dashboard |
| AddRoute.AddTestWithoutSelection | components/__tests__/AddBusRoute.test.tsx:186-228 | the "successfully adds a route" test never fetches stops, so both selections stay `null`: whatever the mocked replies, nothing is sent, "Missing Info" is shown and the dashboard is never reached |
| EditRoute.Select | screens/EditBusRoute.tsx:79-90 | a complete selection is kept. Otherwise both stops are replaced together: from the stored route if there is one, else by the first and last item |
| EditRoute.FetchStops | screens/EditBusRoute.tsx:54-95 | same request, dialogs and item mapping as the add screen. The picker is untouched on any dialog. On success the items are shown and the selection follows `Select` |
| EditRoute.FetchStopsIdempotent | screens/EditBusRoute.tsx:79-90 | fetching again with the same reply leaves the picker as the first fetch left it |
| EditRoute.KeptSelectionMayBeStale | screens/EditBusRoute.tsx:79-80 | a kept selection can name a stop that is not among the newly fetched items |
| EditRoute.SeedsLikeAddScreen | screens/EditBusRoute.tsx:86-89 | with an incomplete selection and no stored route, the edit fetch does exactly what the add fetch does |
| EditRoute.HandleUpdateRoute | screens/EditBusRoute.tsx:97-171 | a missing field alerts "Missing Info" and sends nothing. The update goes out exactly when the lookup succeeded, with the percentage as its decimal string. Success exactly when the update succeeds and returns at least one row. An ok reply with no rows alerts "No route was updated. Please try again.". Each failure alerts the server's error or the fallback |
| EditRoute.FailedLookupIgnoresUpdateReply | screens/EditBusRoute.tsx:110-115 | after a failed lookup the run ends in a dialog, whatever the update endpoint would answer |
| EditRoute.ScreensSendSamePercentage | screens/EditBusRoute.tsx:117-127 | given the same lookup reply, the edit screen's `percentage_travelled` equals the add screen's percentage text and reads back as the computed number |
| Validation.ValidateEmail | src/lib/utils/validation.ts:6-9 | `validateEmail` holds exactly for strings in the language of `/^[^\s@]+@[^\s@]+\.[^\s@]+$/` |
| Validation.EmailScanMatchesPattern | src/lib/utils/validation.ts:7-8 | the scan (no whitespace, a first '@' not at the start, no later '@', an inner '.' after it) accepts exactly L@D.T with L, D, T non-empty runs free of whitespace and '@' |
| Validation.ValidEmailShape | src/lib/utils/validation.ts:7 | an accepted address has exactly one '@' and no whitespace |
| Validation.InvalidEmailExample | src/lib/components/__tests__/Auth.test.tsx:104-122 | "invalid-email" is refused |
| Validation.ValidEmailExample | src/lib/utils/validation.ts:7 | "test@test.com" is accepted |
| Validation.JsLengthCountsAstral | src/lib/utils/validation.ts:16 | `password.length` counts UTF-16 code units: the number of characters plus one for each character outside the Basic Multilingual Plane |
| Validation.JsLengthBmp | src/lib/utils/validation.ts:16 | for Basic Multilingual Plane text the length is the number of characters |
| Validation.ValidatePassword | src/lib/utils/validation.ts:15-25 | accepted exactly when at least 8 UTF-16 code units long and some character is in A-Z, some in a-z and some in 0-9; no special character is required |
| Validation.PasswordRequirementsMentions | src/lib/utils/validation.ts:31-33 | the message names all five requirements: at least 8 characters, an uppercase letter, a lowercase letter, a number and a special character |
| Validation.ShortPasswordRefused | src/lib/utils/validation.ts:16 | any password shorter than 8 UTF-16 code units is refused |
| Validation.AstralPasswordAccepted | src/lib/utils/validation.ts:15-25 | "Aa1bcd" followed by an emoji is 7 characters but 8 code units, and is accepted |
| Validation.RequirementsOverstatePolicy | src/lib/utils/validation.ts:18-33 | the requirements message mentions a special character, yet "Password1", which has none, passes |
| Validation.ValidateConfirmPassword | src/lib/utils/validation.ts:41-46 | `===` on strings: the same length and the same character at every position |
| Validation.ConfirmIsEquivalence | src/lib/utils/validation.ts:41-46 | confirmation is reflexive, symmetric and transitive |
| AuthForm.EmailError | src/lib/components/Auth.tsx:39-43 | no email error exactly when the address is in the pattern's language. Empty gives "Email is required". Any other error is "Please enter a valid email address" |
| AuthForm.PasswordError | src/lib/components/Auth.tsx:45-49 | no password error exactly when `password.length` (UTF-16 code units) >= 8 with upper, lower and digit. Empty gives "Password is required". Any other error is the requirements message |
| AuthForm.ConfirmPasswordError | src/lib/components/Auth.tsx:51-56 | "Passwords do not match" exactly when the confirmation is non-empty and differs from the password |
| AuthForm.ValidateForm | src/lib/components/Auth.tsx:36-60 | each field's message comes from that field's rule only; the form is valid exactly when the record has no entries |
| AuthForm.ValidFormExactly | src/lib/components/Auth.tsx:36-60 | valid exactly when the address matches the pattern, the password is strong, and the confirmation is empty or equal |
| AuthForm.EmptyConfirmNeverErrs | src/lib/components/Auth.tsx:51-56 | an empty confirmation never errs |
| AuthForm.FormExamples | src/lib/components/__tests__/Auth.test.tsx:88-144 | an all-empty form gets both "required" messages and is invalid; "invalid-email" is invalid; differing passwords do not match |
| AuthForm.SignIn | src/lib/components/Auth.tsx:62-76 | blocked with the form's errors exactly when the form is invalid; otherwise the sign-in request carries the e-mail and password |
| AuthForm.SignUp | src/lib/components/Auth.tsx:97-111 | blocked with the form's errors exactly when the form is invalid; otherwise the sign-up request carries the e-mail and password |
| AuthForm.SentRequestsCarryValidCredentials | src/lib/components/Auth.tsx:62-111 | a sign-in or sign-up request only leaves with a pattern-conforming address and a strong password |

## Left out

- Network and platform calls are replaced by inputs and outputs. This covers `fetch_tfl` and the
  transit data service, `fetch`, `AsyncStorage`, `Alert` and `navigation`. Replies are inputs.
  Dialogs, navigation and sent requests are outputs. Time-outs and concurrency are not modelled.
- `fetch_tfl`'s own failures are not modelled: an HTTP error status, or a 500 for any other
  exception. A `stopPoint` entry without `id` is not modelled either; the source raises
  `KeyError` there.
- The add screen reads the user id from `AsyncStorage` before its first request. A failure
  there would end in the generic dialog with no request sent; the model takes the id as an
  input instead.
- React state, hooks and effect ordering are not modelled. This includes the initial loads at
  screens/EditBusRoute.tsx:42-52 and 174-204. The stored route, the e-mail, the user id and the
  current selection are explicit inputs.
- Floating point is not modelled. The percentage is exact round-half-up. The IEEE-double result
  of `Math.round(count / length * 100)` can differ at ties such as 29 of 200. The empty-list
  case is kept as NaN or an infinity, as JavaScript computes it.
- Percentage.NumberText: writes every whole number in plain decimal. JavaScript switches to
  exponent form ("1e+21") from 10^21 up, and doubles hold integers exactly only up to 2^53.
  Only a count far beyond any line's length reaches such values, since the backend's count
  keeps the percentage from 0 to 100 (`AddRoute.RecordedPercentageInRange`).
- Percentage.NumberTextRoundTrip: for the same reason, it matches JavaScript's `String(x)` only
  for magnitudes below 10^21.
- Percentage.RoundedPercentage: does not model the double precision of the division and
  multiplication, because exact arithmetic is the evident intent. It may therefore disagree
  with the source on values whose double is just below a half.
- Strings are sequences of Dafny characters (Unicode scalar values). The one length the core
  compares, `password.length`, is counted in UTF-16 code units (`Validation.JsLength`). The
  e-mail pattern is unaffected: without the `u` flag its classes see the two halves of a
  surrogate pair, and neither half is whitespace or '@'.
- The regular-expression engine is not modelled. Each pattern is stated directly as a
  predicate over strings, and the e-mail one is proved equal to its regex language.
- What sign-in and sign-up do after their request is not modelled: navigation, the success
  dialog, the error record on failure and the loading flag. Only the validation guard is.
- Persistence wrappers and screens without logic are not part of this model. These are
  `add_bus_route`, the dashboard and auth endpoints, the other screens, analytics and
  configuration.
- screens/PercentageOfAllBusRoutes.tsx is not part of this model. It is float division with
  `toFixed(1)`.

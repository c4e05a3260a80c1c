# SMS transaction parser of splitkaro, in Dafny

splitkaro is a React Native screen. It reads the sent SMS messages of the
phone, recognises bank debit notifications of the form

    Rs. 1,000.00 debited on 12-05-2024 at STORE XYZ. Avl Bal: Rs. 5,500.75

and lists each one as a transaction: amount, date, description and balance.
This project models the core of `App.tsx` and proves properties about it.

- **The pattern** (`pattern.dfy`, module `Pattern`). The regular expression
  `/Rs\. ([\d,]+\.?\d*).*on (\d{2}-\d{2}-\d{4}).*at (.+)\. Avl Bal: Rs\. ([\d,]+\.?\d*)/`
  is modelled under JavaScript's rules:
  - the match may start anywhere, and the leftmost start wins;
  - quantifiers are greedy and backtrack;
  - `.` matches everything except the line terminators `\n`, `\r`, U+2028 and U+2029;
  - `\d` is an ASCII digit.

  `Matches` says which choices of positions form a match. `Before` is the
  order in which a backtracking engine meets those matches. `Selected` is the
  match that comes first in that order, which is the one `body.match(regex)`
  reports. `FindMatch` computes that match by trying alternatives in the
  engine's order. `FindMatchCorrect` proves that it finds the selected match
  exactly.
- **The number conversion** (`numeric.dfy`, module `Numeric`).
  `parseFloat(x.replace(',', ''))` removes only the first comma. It then reads
  the longest prefix that is a decimal literal. `None` stands for `NaN`.
- **The parser** (`parser.dfy`, module `Parser`). `parseTransaction` builds a
  record from the four captures of the selected match.
- **The pipeline** (`pipeline.dfy`, module `Pipeline`).
  `.map(m => parseTransaction(m.body)).filter(t => t !== null)`.
- **The screen state** (`app.dfy`, module `AppState`). The two `useState`
  slots live in a class `App`. Its methods perform the updates that
  `fetchTransactions` makes in each of its branches, and they are specified
  by the pure transition function `Step`. `Render` is the rule that shows the
  error text whenever the error is truthy.
- **Well-formed notifications** (`notification.dfy`, module `Notification`).
  A notification is assembled from its parts. When the parts are well formed
  (`Parts.WellFormed`), the body parses back to those parts. Well formed means:
  both numbers have the shape `[\d,]+\.?\d*`; the text after the amount does
  not start with a digit, comma or dot; the date has the shape `dd-dd-dddd`;
  no part holds a line terminator; the description is not empty; and neither
  the gap after the date holds an `on ` nor the description an `at `. This gives the
  end-to-end example above, and the case `on 12-05-20245`, whose date is
  `12-05-2024`.

Some consequences of App.tsx that the model states outright:

- A failed fetch sets the error and leaves the transaction list as it was:
  the failure callback at App.tsx:63-66 never calls `setTransactions`.
- A successful fetch replaces the list and leaves an earlier error in place:
  the success callback at App.tsx:67-75 never calls `setError`, and nothing
  else sets the error back to `null`. So once an error is set, the list is
  never shown again (`ListNeverShownAfterError`).
- Only the first comma of a number is removed. So `"1,234,567.89"` reads as
  `1234`, and a capture such as `",,"` reads as `NaN`.
- A record whose amount or balance is `NaN` is still returned, and it is not
  filtered out.

`parseTransaction` (App.tsx:40-52) reads only `body` and changes no state,
so modelling it as the Dafny function `ParseTransaction` loses nothing.

## Model

| member | source | states |
|---|---|---|
| `Search.LastSome` | App.tsx:41 | The greedy quantifier's order: it returns the largest position in a range where the attempt succeeds, and `None` only when no position in the range succeeds. |
| `Search.FirstSome` | App.tsx:42 | The unanchored search: it returns the smallest start position where the attempt succeeds, and `None` only when no start position succeeds. |
| `Pattern.GreedyNumber` | App.tsx:41 | `[\d,]+\.?\d*` at a position: the result is a way the group matches there, it is met before every other way, and `None` means the group cannot match there. |
| `Pattern.TryBalance` | App.tsx:41 | `\. Avl Bal: Rs\. ([\d,]+\.?\d*)` at a position: sound, first in the engine's order, and `None` only when it cannot match. |
| `Pattern.TryDescriptionCorrect` | App.tsx:41 | `at (.+)` plus the balance tail: the alternative found matches and is met before every other one; `None` means that no description and balance fit. |
| `Pattern.TryDateCorrect` | App.tsx:41 | `on ` plus the date, `.*` and the rest: the alternative found matches and is met first; `None` means that nothing fits. |
| `Pattern.ReplaceAmount` | App.tsx:41 | Backtracking into the amount never changes what can follow it. Any other way of matching group 1 keeps the rest of a match valid. |
| `Pattern.MatchAtCorrect` | App.tsx:41 | At one start position, `MatchAt` finds the match met first there, or proves that no match starts there. |
| `Pattern.BeforeAsymmetric` | App.tsx:41 | The engine's order never puts two matches each before the other. |
| `Pattern.FindMatchCorrect` | App.tsx:41-42 | `body.match(regex)`: the match found is the selected one; `None` holds exactly when no match exists; a match is selected if and only if `FindMatch` returns it. |
| `Pattern.SelectedAmountIsGreedy` | App.tsx:41 | The selected amount is the greedy `[\d,]+\.?\d*` right after the leftmost workable `Rs. `. |
| `Pattern.SelectedBalanceIsGreedy` | App.tsx:41 | The selected balance is the greedy number after `. Avl Bal: Rs. `. |
| `Pattern.SelectedOnIsLast` | App.tsx:41 | `.*` before `on `: the selected `on ` is the last one that any match from the same start can use. |
| `Pattern.SelectedAtIsLast` | App.tsx:41 | `.*` before `at `: with the same `on `, the selected `at ` is the last usable one. |
| `Pattern.SelectedBalanceLiteralIsLast` | App.tsx:41 | `(.+)`: with the same `at `, the selected balance literal is the last usable one, so the description is as long as possible. |
| `Pattern.SelectedChoices` | App.tsx:41 | The selected match is greedier than every other match, choice by choice in the pattern's order. |
| `Numeric.FirstComma` | App.tsx:45 | The position of the first comma: no comma comes before it, and it is a comma unless it is the end. |
| `Numeric.RemoveFirstComma` | App.tsx:45 | `replace(',', '')` with a string pattern: text without a comma is unchanged; otherwise exactly the first comma is removed; digit, comma and dot text stays such text. |
| `Numeric.ParseFloat` | App.tsx:45 | `parseFloat` on digit, comma and dot text is never negative. |
| `Numeric.ParseFloatReadsLongestLiteral` | App.tsx:45 | `NaN` comes back exactly when no prefix is a decimal literal. Otherwise the value is the exact value of the longest prefix that is one. |
| `Numeric.DotLiteralValue` | App.tsx:45 | The literal `a.b` is worth `a` plus `b` scaled by the length of `b`. |
| `Numeric.OneSeparatorIsRemoved` | App.tsx:45 | `"1,000.00"` gives 1000. |
| `Numeric.SecondSeparatorTruncates` | App.tsx:45 | `"1,234,567.89"` gives 1234, because the second comma stays and ends the number. |
| `Numeric.OnlyCommasIsNaN` | App.tsx:45 | `",,"` gives `NaN`. |
| `Numeric.LeadingDotIsFraction` | App.tsx:48 | The capture `",.5"` loses its comma and reads as 0.5. |
| `Numeric.AmountWithHalf` | App.tsx:45 | `"1,234.50"` gives 1234.5. |
| `Numeric.BalanceWithFraction` | App.tsx:48 | `"5,500.75"` gives 5500.75. |
| `Parser.CapturesAreNumeric` | App.tsx:45-48 | The amount and balance captures are non-empty and hold only digits, commas and dots, which is all the conversion has to read. |
| `Parser.RecordOfFoundMatch` | App.tsx:42-50 | A returned record is built from the captures of the match that `body.match` reports. |
| `Parser.ParseTransactionCorrect` | App.tsx:40-52 | A record is returned if and only if the pattern matches the body, and it is built from the selected match. |
| `Parser.DateOfMatch` | App.tsx:46 | The date capture has the shape dd-dd-dddd and is the ten characters after `on `. |
| `Parser.DateIsCopied` | App.tsx:46 | The returned date has the shape dd-dd-dddd and is copied verbatim from the ten characters after an `on ` of the body. |
| `Parser.DescriptionOfMatch` | App.tsx:47 | The description capture is non-empty and contains no line terminator. It stands between `at ` and `. Avl Bal: Rs. `. |
| `Parser.DescriptionIsOneLine` | App.tsx:47 | The returned description is never empty and contains no line terminator. It is copied from between an `at ` and a `. Avl Bal: Rs. ` of the body. |
| `Parser.LiteralHasNoLineTerminator` | App.tsx:41 | A literal free of line terminators leaves its span in the body free of them. |
| `Parser.MatchIsOneLine` | App.tsx:41 | Everything that a match covers, from `Rs. ` to the end of the balance, lies on one line. |
| `Parser.RecordComesFromOneLine` | App.tsx:41-43 | A returned record comes from `Rs. `, `on `, `at ` and the balance literal in that order, and all of them lie on one line. |
| `Parser.ChoicesAreGreedy` | App.tsx:41-42 | Compared with any other match, the one used starts no later. From the same start, choice by choice in the pattern's order, it takes the longest amount, then the last `on `, then the last `at `, then the last balance literal, then the longest balance. Each choice is compared only when all earlier ones are equal. |
| `Parser.RecordNeedsAllParts` | App.tsx:41-52 | A record needs `Rs. `, then `on ` with a date, then `at `, then `. Avl Bal: Rs. `. If one of them is missing, the result is `null`. |
| `Pipeline.Present` | App.tsx:72 | The filter never returns more entries than it was given. |
| `Pipeline.PresentIsStable` | App.tsx:72 | The filter is stable. Its output is the values at exactly the non-null positions, and the positions strictly increase. |
| `Pipeline.PresentAppend` | App.tsx:72 | Filtering a concatenation is the concatenation of the filtered parts. |
| `Pipeline.ParseAll` | App.tsx:71 | The `map` gives one parse per message, in the order of the messages. |
| `Pipeline.ParseMessagesKeepsOrder` | App.tsx:70-72 | The stored transactions are the parses of exactly the messages that parse, in the order of the list, and never more than the messages. |
| `Pipeline.ParseMessagesAppend` | App.tsx:70-72 | Parsing a concatenation of message lists is the concatenation of the parsed lists. |
| `Pipeline.KeepsFirstAndThird` | App.tsx:70-72 | For `[m1, m2, m3]` where only `m2` fails to parse, the output is `[t1, t3]`, in that order. |
| `AppState.Step` | App.tsx:54-84 | A delivery replaces the list with the parsed messages and leaves the error as it was. Every other outcome leaves the list as it was and sets a non-empty error: `SMS permission not granted` on refusal, `Failed to fetch messages: ` and the reason on failure, `Error: ` and the message on an exception. |
| `AppState.Render` | App.tsx:98-107 | The error text is shown if and only if the error is truthy. Otherwise the list is shown, or "No transactions found" when it is empty. |
| `AppState.RefusalIgnoresOutcome` | App.tsx:56-58 | When permission is refused, the list call is never made, its outcome cannot matter, and the error is 'SMS permission not granted'. |
| `AppState.FailureReportsReason` | App.tsx:63-66 | After the failure callback, the state is the old list with the error `Failed to fetch messages: ` followed by the reason. |
| `AppState.ExceptionReportsMessage` | App.tsx:80-82 | After an exception, the state is the old list with the error `Error: ` followed by the message. |
| `AppState.RunAppend` | App.tsx:54-84 | Presses in sequence: running `a + b` is running `a`, then `b`. |
| `AppState.ErrorIsSticky` | App.tsx:63-82 | No press sets the error back to `null`. |
| `AppState.ReachableErrorsAreText` | App.tsx:63-82 | Every error the component can hold is non-empty, so it is truthy. |
| `AppState.ListNeverShownAfterError` | App.tsx:98-107 | Once an error has been set, every later screen shows an error text, even after successful fetches. |
| `AppState.TransactionsAreLastDelivery` | App.tsx:74 | The list held is the one parsed from the last successful fetch, which replaces the list wholesale. |
| `AppState.App.constructor` | App.tsx:18-19 | Starts with an empty list and a `null` error. |
| `AppState.App.SetError` | App.tsx:19 | `setError` changes only the error slot. |
| `AppState.App.OnMessages` | App.tsx:67-75 | The success callback stores the filtered parses and changes nothing else. |
| `AppState.App.OnFailure` | App.tsx:63-66 | The failure callback sets the error to `Failed to fetch messages: ` plus the reason. Nothing else changes. |
| `AppState.App.FetchTransactions` | App.tsx:54-84 | One press updates the state as `Step` says. After a refusal, a failure or an exception, the screen shows exactly that press's error text. |
| `Notification.PartsMatchMatches` | App.tsx:41 | The parts of a well-formed notification form a match at their own positions. |
| `Notification.AmountStops` | App.tsx:41 | A `[\d,]+\.?\d*` match never runs past a character that is not a digit, comma or dot. |
| `Notification.NoLaterBalance` | App.tsx:41 | When the text ends with `. Avl Bal: Rs. ` and a number, no `. Avl Bal: Rs. ` with a character after it starts later. |
| `Notification.NoLaterAt` | App.tsx:41 | When `at ` is followed by a description holding no `at `, no `at ` whose capture ends within that description starts later. |
| `Notification.NoLaterOn` | App.tsx:41 | When `on ` is followed by a date and a gap holding no `on `, no `on ` with room for its date before the gap ends starts later. |
| `Notification.NotOnInGap` | App.tsx:41 | No `on ` begins inside a gap that holds no `on `. |
| `Notification.DescriptionTailOfText` | App.tsx:41 | `at `, a non-empty one-line text, `. Avl Bal: Rs. ` and a number, laid end to end, match the tail of the pattern from `at `. |
| `Notification.DateTailOfText` | App.tsx:41 | `on `, a date, a one-line gap and such a tail, laid end to end, match the tail of the pattern from `on `. |
| `Notification.SelectedIsPartsMatch` | App.tsx:41-42 | The reported match sits exactly at the positions of the parts. |
| `Notification.AssembledNotificationParses` | App.tsx:40-52 | A notification assembled from well-formed parts parses back to them. The amount and balance go through the comma rule and `parseFloat`; the date and description are copied verbatim. |
| `Notification.StoreDebitParses` | App.tsx:40-52 | `Rs. 1,000.00 debited on 12-05-2024 at STORE XYZ. Avl Bal: Rs. 5,500.75` gives amount 1000, date `12-05-2024`, description `STORE XYZ` and balance 5500.75. |
| `Notification.FifthYearDigitIsLeftBehind` | App.tsx:41-46 | After `on 12-05-20245`, the date is `12-05-2024`. |

## Left out

- The permission request (`requestPermission`, App.tsx:21-38) is not modelled. Its answer is the `granted` parameter of a press. Its internal `catch`, which answers `false`, is the case `granted == false`.
- The native call `SmsAndroid.list` and its arguments are not modelled. Its arguments are the `sent` box, `maxCount: 30` and `JSON.stringify`. What it does is the `ListOutcome` parameter.
- `react-native-get-sms-android.ts` and `types.ts` are not part of this model.
- `JSON.parse` of the delivered messages is not modelled. Messages arrive already parsed.
- An exception thrown inside a callback is not modelled. The callback runs after `fetchTransactions` has returned, so its `try` does not catch the exception, and the state is left unchanged.
- `Threw` covers only exceptions raised synchronously by the list call. Its text is given as a parameter, since the program would take it from `err.message` or `String(err)`.
- Overlapping fetch cycles are not modelled. Presses complete one after another, and a callback that arrives late after a newer press is outside the model.
- Console output is not modelled.
- The rendering rule is modelled, but JSX, styles, `keyExtractor` and the `toFixed(2)` formatting of each row are not.
- IEEE-754 rounding is not modelled. Numbers are exact reals, and `NaN` is `None`.
- `Numeric.ParseFloat` is defined only on text made of digits, commas and dots, because a capture can hold nothing else. Signs, exponents, whitespace and `Infinity` never reach it.
- Strings are sequences of code points. JavaScript counts UTF-16 units, and `.` matches each half of a surrogate pair in turn. Positions inside a message can therefore differ, but the captured texts are the same.
- `Sms.date` and the `count` argument of the success callback are never read by the code, and the model ignores them too.

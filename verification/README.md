# Wearable workout sync — protocol model

A Dafny model of the message logic of a paired watch/phone workout app. The two
activities talk over the Wearable message channel, which addresses messages by
path.

* **Phone** (`mobile/.../MainActivity.kt`). A message on `/workout-entry`
  carries text of the form `name;sets;reps|name;sets;reps|...`. The activity
  splits it on `|`. It keeps every piece that splits into exactly three
  `;`-fields. Each count is parsed with `toIntOrNull() ?: 0`. If at least one
  entry decoded, the activity appends the entries to its workout log and sends
  an empty message on `/workout-validated` back to the sending node. The screen
  can clear the log or delete one entry. It shows the log newest first.
* **Watch** (`wear/.../presentation/MainActivity.kt`). All progress is shown in
  one status text. The RESET button sets "Searching for phone..." and looks up
  the connected nodes. It then sends one empty `/reset_counter` message to each
  node. Each send's success or failure callback overwrites the status. A
  message on `/reset_confirm` shows a SUCCESS status that quotes the message
  text.

Files:

* `kotlin_text.dfy`, module `KotlinText`. The Kotlin library operations
  `split` with a one-character delimiter and `toIntOrNull`, which the decoder
  uses, and `Int.toString`, which the round-trip lemma uses to print counts.
  Each comes with its round-trip lemmas.
* `transport.dfy`, module `Transport`. Inbound message events and outbound
  send requests.
* `phone.dfy`, module `PhoneActivity`. The decoder, the wire format the decoder
  accepts (`Serialize`, a specification aid: the app has no encoder), the log
  edits and the activity class.
* `watch.dfy`, module `WatchActivity`. The status texts and the activity class.

Each activity is a class. The class holds the field the source updates
(`workoutLog` or `statusMessage`) and `sent`, the list of requests handed to the
message client. Ghost fields record the history the invariants talk about. On
the phone that is the messages received. On the watch it is the status values
shown, the send callbacks still due and the presses still waiting for the node lookup. Callbacks and deliveries are method
calls on one owner, one after another. Inputs the source gets from the platform
are parameters. These are the clock reading at delivery, the node lookup's
outcome and the failure reason.

The app has no workout sender or encoder, no phone-side `/reset_counter`
handler, no watch-side `/workout-validated` handler and no session state. The
phone accepts empty names and negative counts, and the watch's only state is its
status text. The failure status is the fixed text `Send Failed: ${e.message}`,
because the `${'$'}` escape yields a literal dollar sign.

## Model

| member | source | states |
|---|---|---|
| KotlinText.Split | mobile/src/main/java/com/example/wearabledatasync/MainActivity.kt:103-104 | `split` returns one more piece than there are delimiters, and no piece contains the delimiter |
| KotlinText.JoinSplit | mobile/src/main/java/com/example/wearabledatasync/MainActivity.kt:103-104 | joining the pieces of a split with the delimiter gives back the original text |
| KotlinText.SplitJoin | mobile/src/main/java/com/example/wearabledatasync/MainActivity.kt:103-104 | splitting a join of delimiter-free pieces gives back those pieces; with JoinSplit, the split is the unique such decomposition |
| KotlinText.ToIntOrNull | mobile/src/main/java/com/example/wearabledatasync/MainActivity.kt:108-109 | a parsed count is always a 32-bit `Int`; the text it came from is a numeral (a digit or a sign with something after it, then only digits) and the count is that numeral's signed value |
| KotlinText.NonNumericIsNull | mobile/src/main/java/com/example/wearabledatasync/MainActivity.kt:108-109 | anything but a numeral is null: an empty field, a lone sign, a first character that is neither digit nor sign, or a later non-digit |
| KotlinText.NumeralParses | mobile/src/main/java/com/example/wearabledatasync/MainActivity.kt:108-109 | a numeral whose signed value fits an `Int` parses to exactly that value, so `+7`, `007` and `-0` give 7, 7 and 0 |
| KotlinText.OutOfRangeIsNull | mobile/src/main/java/com/example/wearabledatasync/MainActivity.kt:108-109 | a numeral whose signed value does not fit an `Int` is null, so the count falls back to 0 rather than wrapping around |
| KotlinText.ToIntOrNullOfToString | mobile/src/main/java/com/example/wearabledatasync/MainActivity.kt:108-109 | every `Int` printed in decimal parses back to itself |
| PhoneActivity.DecodeEntry | mobile/src/main/java/com/example/wearabledatasync/MainActivity.kt:104-113 | a piece is kept exactly when it holds two `;`; a kept entry has `Int` counts, carries the delivery timestamp and has a `;`-free name |
| PhoneActivity.DecodeEntryOf | mobile/src/main/java/com/example/wearabledatasync/MainActivity.kt:104-110 | `name;a;b` with `;`-free fields decodes to the entry whose name is `name` verbatim (possibly empty) and whose counts are `a` and `b` parsed, with 0 for a field that is not an `Int` |
| PhoneActivity.DecodeEntries | mobile/src/main/java/com/example/wearabledatasync/MainActivity.kt:103-114 | `mapNotNull` yields at most one entry per piece, and nothing exactly when no piece has three fields; every entry has `Int` counts |
| PhoneActivity.Decode | mobile/src/main/java/com/example/wearabledatasync/MainActivity.kt:102-114 | a payload decodes to at most one entry more than it has record separators, and to none exactly when none of its record pieces has three `;`-fields |
| PhoneActivity.DecodeEntriesAppend | mobile/src/main/java/com/example/wearabledatasync/MainActivity.kt:103-114 | decoding is piecewise: the entries of two runs of pieces are the entries of the first run followed by those of the second, so payload order is kept |
| PhoneActivity.CorruptPieceDropped | mobile/src/main/java/com/example/wearabledatasync/MainActivity.kt:111-113 | a malformed piece is dropped alone; the pieces around it decode as if it were absent |
| PhoneActivity.DecodeSerialize | mobile/src/main/java/com/example/wearabledatasync/MainActivity.kt:102-110 | round trip: entries written as `name;sets;reps` and joined with the record separator decode back to exactly those entries, when names hold neither separator and counts are printed `Int`s |
| PhoneActivity.Minus | mobile/src/main/java/com/example/wearabledatasync/MainActivity.kt:74 | `log - entry` leaves the log unchanged if the entry is absent, and otherwise removes exactly one copy (length and multiset) |
| PhoneActivity.MinusRemovesFirst | mobile/src/main/java/com/example/wearabledatasync/MainActivity.kt:74 | the removed copy is the first one; all other entries keep their order |
| PhoneActivity.Reversed | mobile/src/main/java/com/example/wearabledatasync/MainActivity.kt:205 | `reversed()` has the same length, and position k holds the element at position length-1-k |
| PhoneActivity.NewestFirst | mobile/src/main/java/com/example/wearabledatasync/MainActivity.kt:205 | after an append, the display shows the new entries (newest first) above the old ones |
| PhoneActivity.Validations | mobile/src/main/java/com/example/wearabledatasync/MainActivity.kt:117-122 | the acknowledgments owed for a history of deliveries: at most one per delivery, each empty and on `/workout-validated` |
| PhoneActivity.MainActivity.constructor | mobile/src/main/java/com/example/wearabledatasync/MainActivity.kt:56 | the log starts empty and nothing has been sent |
| PhoneActivity.MainActivity.OnMessageReceived | mobile/src/main/java/com/example/wearabledatasync/MainActivity.kt:93-125 | the new log is the old log followed by the decoded entries of a `/workout-entry` message (nothing for any other path). Exactly one empty `/workout-validated` message goes to the source node, and only when something decoded. The sent list stays equal to the acknowledgments owed for all deliveries |
| PhoneActivity.MainActivity.SendValidation | mobile/src/main/java/com/example/wearabledatasync/MainActivity.kt:128-137 | one empty-payload request on `/workout-validated` to the given node is appended to the sent list |
| PhoneActivity.MainActivity.Clear | mobile/src/main/java/com/example/wearabledatasync/MainActivity.kt:73 | the log becomes empty; nothing is sent |
| PhoneActivity.MainActivity.DeleteEntry | mobile/src/main/java/com/example/wearabledatasync/MainActivity.kt:74 | the log loses its first element equal to the entry; nothing is sent; the log still holds only `Int` counts |
| PhoneActivity.MainActivity.Displayed | mobile/src/main/java/com/example/wearabledatasync/MainActivity.kt:205 | the shown list is the log reversed: newest first |
| WatchActivity.ConfirmedStatus | wear/src/main/java/com/example/wearabledatasync/presentation/MainActivity.kt:92 | the SUCCESS status holds the received text verbatim, starting right after the prefix |
| WatchActivity.ConfirmedStatusInjective | wear/src/main/java/com/example/wearabledatasync/presentation/MainActivity.kt:89-92 | two confirmations show the same status only if their texts are equal |
| WatchActivity.ConfirmedStatusDistinct | wear/src/main/java/com/example/wearabledatasync/presentation/MainActivity.kt:92 | a SUCCESS status never coincides with the initial, searching, no-phone, sent, failed or connection-error text |
| WatchActivity.MainActivity.constructor | wear/src/main/java/com/example/wearabledatasync/presentation/MainActivity.kt:33 | the status starts as "Tap to send RESET signal" and nothing has been sent |
| WatchActivity.MainActivity.PressReset | wear/src/main/java/com/example/wearabledatasync/presentation/MainActivity.kt:60-62 | the button shows "Searching for phone..." and leaves one press suspended at the node lookup; nothing is sent yet |
| WatchActivity.MainActivity.OnNodesResolved | wear/src/main/java/com/example/wearabledatasync/presentation/MainActivity.kt:63-83 | a suspended press resumes with the lookup's outcome. A failed lookup shows "Connection Error", and an empty node list shows "Error: No connected phone found!"; in both cases nothing is sent. Otherwise the status is left as it is and exactly one empty `/reset_counter` request goes to each node's id, in list order, and each awaits one callback |
| WatchActivity.MainActivity.OnSendSuccess | wear/src/main/java/com/example/wearabledatasync/presentation/MainActivity.kt:71-74 | a success callback shows "RESET signal SENT. Waiting for confirmation..."; only a send that was issued can call back |
| WatchActivity.MainActivity.OnSendFailure | wear/src/main/java/com/example/wearabledatasync/presentation/MainActivity.kt:75-78 | a failure callback shows the fixed text `Send Failed: ${e.message}` whatever the reason; the last callback to run decides the status |
| WatchActivity.MainActivity.OnMessageReceived | wear/src/main/java/com/example/wearabledatasync/presentation/MainActivity.kt:87-95 | a `/reset_confirm` message shows the SUCCESS status with its text, whatever was shown before, so a repeated confirmation changes nothing. Any other path leaves the status alone. Throughout, "SENT" or "Send Failed" is only ever shown after some reset request was issued |
| WatchActivity.ConfirmationWhileSearching | wear/src/main/java/com/example/wearabledatasync/presentation/MainActivity.kt:60-95 | a confirmation that arrives while a press waits for the lookup is shown, and a lookup that then finds no node overwrites it: the statuses run initial, searching, SUCCESS, no-phone |

## Left out

- Compose UI (`WorkoutEntryCard`, `WorkoutLogger`, `DefaultPreview`, `WearApp`, the theme): presentation only.
- The clock: `WorkoutEntry.timestamp` is a field, but its value is the `now` parameter of a delivery. All entries of one message share one reading, whereas the source reads the clock once per entry.
- Date formatting of the timestamp with `SimpleDateFormat`: locale-dependent display only.
- Listener registration in `onResume`/`onPause`: Android lifecycle plumbing. The model delivers messages whenever a method is called.
- Threading (`runOnUiThread`, `lifecycleScope.launch`, `await`): deliveries and callbacks are sequential method calls on one owner. On the watch, the press and the resumption after `await` are separate calls, so any event may run between them. On the phone, the log update and the acknowledgment form one step. In the source the acknowledgment may go out before the posted log update runs.
- Play Services calls (`getMessageClient`, `getNodeClient`, `sendMessage`): a send is an append to `sent`, and node discovery is the `ConnectedNodes` parameter. An exception thrown by `sendMessage` itself inside the watch's `try` is not modelled; only a failed lookup reaches the `catch`.
- UTF-8 conversion of payload bytes: payloads are their decoded text, and a `null` payload is the empty text.
- Log output (`Log.d`, `Log.e`), including the validation send's success and failure listeners, which only log.
- KotlinText.ToIntOrNull: accepts ASCII decimal digits only. Kotlin's `toIntOrNull` also accepts other Unicode decimal digits, because it uses `Character.digit`.
- PhoneActivity.Validations: states the path, the empty payload and the count of the acknowledgments. The target of each acknowledgment is stated per delivery by `PhoneActivity.MainActivity.OnMessageReceived`.
- A workout encoder/sender, a phone-side `/reset_counter` handler, a watch-side `/workout-validated` handler, and acknowledgment timeouts or retries: none of these is in the code. `PhoneActivity.Serialize` only states the format the decoder accepts.

# Dutch grammar checker: the workflow store

A Dafny model of the state store in `app/store.js` of the Dutch grammar checker.
The store holds six cells: `text`, `checking`, `feedback`, `feedbackLoading`,
`feedbackOpen` and `results`. It also has a derived predicate `correct`, four
methods (`setText`, `checkGrammar`, `askFeedback`, `toggleFeedback`), a writable
name-keyed view built by `createStore`, and the per-consumer effect list of `useStore`.

Files:

- `js_text.dfy` (module `JsText`): the JavaScript string built-ins `correct` uses.
  These are `trim()` with the ECMAScript whitespace and line-terminator set,
  `replace(/\W+/g, "")` and `toLowerCase()`. Each comes with lemmas that
  characterise it independently of its definition.
- `grammar_store.dfy` (module `GrammarStore`): the `correct` predicate and its lemmas.
  The class `Workflow` has one field per cell. Each `async` method is split at its
  `await` into a `...Begin` step and a `...Complete(reply)` step, with the remote
  reply as a parameter, so any interleaving of steps can be played out. Ghost
  counters `pendingChecks` and `pendingFeedback` count requests sent and not yet
  answered. The source does not track them; they let the model say "a reply
  answers a request". Scenario methods play out overlapping and stale checks.
- `store_view.dfy` (module `StoreView`): `createStore`'s loop that installs one
  get/set accessor per key of `state`, and reads and writes through the view.
- `consumer.dfy` (module `Consumer`): `useStore`'s `select`, which records
  effects, and the destroy hook, which disposes all of them.
- `wrappers.dfy` (module `Wrappers`): `Option`.

The model follows `app/store.js` as written, including these behaviours:

- Nothing resets `results`, `feedback` or the panel when the text becomes empty.
- `checkGrammar` keeps the old `results` while its request is in flight.
- `correct` has no non-empty guard, so the initial state (`""`, `""`) is correct.
- `toggleFeedback` flips the panel whatever the text is.
- The state view is writable: an assignment through it writes the cell directly.

Because the view is writable, the invariant `Workflow.FlagsTrackRequests` holds
only across the store's methods. It says that a loading flag is up only while a
request of its kind is in flight. A write through the view can break it.

## Model

| member | source | states |
|---|---|---|
| `JsText.Trim` | app/store.js:17-18 | `trim()` leaves no whitespace at either end of its result, and the result is empty exactly when the input is all whitespace |
| `JsText.TrimOfPadded` | app/store.js:17 | for any whitespace `p`, `q` and any `m` with no whitespace at its ends, trimming `p + m + q` gives `m`; this fixes `trim()` uniquely |
| `JsText.TrimSplit` | app/store.js:17 | every string is the whitespace `trim()` drops, then the trimmed string, then more whitespace |
| `JsText.TrimIdempotent` | app/store.js:17 | trimming twice is trimming once |
| `JsText.TrimIgnoresPadding` | app/store.js:17 | extra whitespace around a string does not change what it trims to |
| `JsText.SkipWhitespaceAt` | app/store.js:17 | the forward scan of `trim()` stops at the first index that holds no whitespace |
| `JsText.SkipWhitespaceBackAt` | app/store.js:17 | the backward scan of `trim()` stops just after the last index that holds no whitespace |
| `JsText.StripNonWord` | app/store.js:18 | `replace(/\W+/g, "")` leaves only characters in `[A-Za-z0-9_]` and never lengthens the string |
| `JsText.StripConcat` | app/store.js:18 | the strip works character by character: it distributes over concatenation |
| `JsText.StripKeepsWordChars` | app/store.js:18 | a string of word characters survives the strip unchanged |
| `JsText.StripDropsWhitespace` | app/store.js:18 | whitespace strips to nothing |
| `JsText.StripOfPadded` | app/store.js:18 | whitespace on either side of a string strips away |
| `JsText.StripIgnoresTrim` | app/store.js:18 | the `trim()` before the strip changes nothing |
| `JsText.ToLowerChar` | app/store.js:18 | `toLowerCase()` of a word character maps `A`-`Z` to `a`-`z` and keeps every other character |
| `JsText.ToLowerCase` | app/store.js:18 | `toLowerCase()` of a word string keeps its length and lower-cases it character by character |
| `GrammarStore.LowerCaseIsCorrect` | app/store.js:18 | a word string lower-cases to `"correct"` exactly when it spells "correct" in some mix of cases |
| `GrammarStore.LowerCaseOf` | app/store.js:18 | a word character lower-cases to a letter exactly when it is that letter or its upper-case form |
| `GrammarStore.SentinelMatch` | app/store.js:18 | the reply trimmed, stripped of non-word characters and lower-cased is `"correct"` exactly when its word characters spell "correct" in some mix of cases |
| `GrammarStore.Correct` | app/store.js:15-19 | `correct` holds exactly when the trimmed reply equals the untrimmed text, or the reply's word characters spell "correct" in any mix of cases, whatever the text |
| `GrammarStore.UntrimmedTextNeedsSentinel` | app/store.js:17-18 | a text with whitespace at an end is correct only by the sentinel; no echo can match it |
| `GrammarStore.CorrectIgnoresReplyPadding` | app/store.js:17-18 | whitespace around a reply never changes the verdict |
| `GrammarStore.CorrectWithoutGuard` | app/store.js:8-19 | with no emptiness guard, the initial state (`""`, `""`) is correct, and so is the bare sentinel for an empty text |
| `GrammarStore.EchoExample` | app/store.js:17 | the reply `"loop"` makes the text `"loop"` correct |
| `GrammarStore.PaddedEchoExample` | app/store.js:17 | the reply `" loop\n"` makes the text `"loop"` correct: the reply is trimmed |
| `GrammarStore.UntrimmedTextExample` | app/store.js:17 | the reply `"loop"` does not make the text `" loop"` correct: the text is not trimmed |
| `GrammarStore.SentinelExample` | app/store.js:18 | the reply `"Correct."` makes every text correct, whatever the text is |
| `GrammarStore.PunctuatedSentinel` | app/store.js:18 | the sentinel in any mix of cases, followed by a punctuation mark, makes every text correct |
| `GrammarStore.StripTrailingPunctuation` | app/store.js:18 | a non-word character after a word strips away and leaves the word |
| `GrammarStore.MismatchExample` | app/store.js:15-19 | `"loops"` does not make `"loop"` correct |
| `GrammarStore.EmptyTextExample` | app/store.js:15-19 | `"anything"` does not make the empty text correct |
| `GrammarStore.NotSentinelByFirstChar` | app/store.js:18 | a reply whose first character is a word character other than `c` or `C` is never the sentinel |
| `GrammarStore.SessionRequest` | app/store.js:26 | `checkGrammar` sends `"Ik ben gaan naar huis"` for the text `"Ik ben gaan naar huis "` |
| `GrammarStore.SessionVerdict` | app/store.js:15-19 | the correction `"Ik ben naar huis gegaan"` does not make that text correct |
| `GrammarStore.CorrectionExample` | app/store.js:15-19 | the correction `"Ik ben naar huis gegaan"` does not make the sentence `"Ik ben gaan naar huis"`, typed without a trailing space, correct |
| `GrammarStore.EchoOfRequestExample` | app/store.js:17-18 | with a trailing space typed, even a reply that echoes the trimmed request `checkGrammar` sent is judged incorrect |
| `GrammarStore.Workflow.IsCorrect` | app/store.js:15-19 | the derived `correct` cell holds exactly when the trimmed reply is the text as typed or the reply is the sentinel |
| `GrammarStore.Workflow.constructor` | app/store.js:7-13 | `factory()` starts with empty text, reply and feedback, all flags down, nothing in flight |
| `GrammarStore.Workflow.SetText` | app/store.js:21-23 | `setText(v)` sets `text` to `v` exactly, untrimmed, and changes no other cell |
| `GrammarStore.Workflow.CheckGrammarBegin` | app/store.js:25-34 | when the trimmed text is empty, `checkGrammar` returns without calling the service or changing any cell; otherwise it sends the trimmed text and raises `checking` and `feedbackOpen`, with `results`, `text`, `feedback` and `feedbackLoading` unchanged |
| `GrammarStore.Workflow.CheckGrammarComplete` | app/store.js:34-38 | on reply `r`, `results` becomes `r` and `checking` drops, even with another check in flight; no other cell changes |
| `GrammarStore.Workflow.AskFeedbackBegin` | app/store.js:41-43 | `askFeedback` raises `feedbackLoading` and sends the text untrimmed, with no emptiness check; no other cell changes |
| `GrammarStore.Workflow.AskFeedbackComplete` | app/store.js:43-44 | on reply `r`, `feedback` becomes `r` and `feedbackLoading` drops; no other cell changes |
| `GrammarStore.Workflow.ToggleFeedback` | app/store.js:47-49 | `toggleFeedback` negates `feedbackOpen` and changes nothing else, with no empty-text override |
| `GrammarStore.ToggleTwice` | app/store.js:47-49 | toggling twice restores every cell |
| `GrammarStore.OverlappingChecks` | app/store.js:25-39 | a second `checkGrammar` is not blocked; the first reply drops `checking` while the second request is still in flight, and the last reply to arrive is what `results` holds |
| `GrammarStore.StaleReply` | app/store.js:21-39 | if the text is edited between two checks and the older request's reply arrives last, `results` holds that stale reply next to the newer text; a reply that echoes the older text then makes the store report "not correct" |
| `GrammarStore.ExampleSession` | app/store.js:21-39 | on a fresh store, checking `"Ik ben gaan naar huis "` sends the trimmed sentence; after the correction arrives, `results` holds it, `checking` is false and `correct` is false |
| `StoreView.CellValue` | app/store.js:51-59 | the view's getters exist exactly for the seven keys of `state`, `correct` included |
| `StoreView.StateKeysDistinct` | app/store.js:51-59 | the keys of `state` are pairwise distinct |
| `StoreView.StateView.constructor` | app/store.js:73 | the view starts with no properties |
| `StoreView.StateView.DefineAccessor` | app/store.js:76-83 | defining an accessor appends its name to the view's accessors; it replaces a plain property of that name |
| `StoreView.StateView.Read` | app/store.js:77-79 | `stateView[name]` goes through the getter for an accessor, and an accessor hides any plain property of the same name; otherwise it gives the plain property's value; it is `undefined` exactly for an accessor with no cell and for a name that is neither an accessor nor a plain property |
| `StoreView.StateView.Write` | app/store.js:80-82 | an assignment through the view is read back immediately; no other key reads differently, except the derived `correct`; it bypasses the methods and does not touch the in-flight counts |
| `StoreView.CreateStore` | app/store.js:71-87 | `createStore` builds the initial cells and installs accessors for exactly the keys of `state`, in order |
| `StoreView.ViewHasStateKeys` | app/store.js:75-84 | the view `createStore` builds has a value for exactly the keys of `state`; no other own property name reads a value (inherited names are not modelled; see `StoreView.StateView.Read` under "## Left out") |
| `StoreView.WriteThenRead` | app/store.js:77-82 | writing a key and reading it back gives the value written, and every other stored cell keeps its value |
| `Consumer.Effect.Dispose` | app/store.js:94 | disposing an effect leaves it disposed |
| `Consumer.Binding.constructor` | app/store.js:89-91 | `useStore` starts with an empty effect list |
| `Consumer.Binding.Select` | app/store.js:97-101 | `select` appends a new, live effect to the list and returns it |
| `Consumer.Binding.Destroy` | app/store.js:93-95 | on destroy, every recorded effect is disposed, and nothing else changes |

## Left out

- The reactive library's `signal` and `effect`, with their dependency tracking and notification order, are not modelled. Cells are plain fields and `correct` is a function of `text` and `results`.
- The remote services `aiDutchGrammar` and `aiFeedback` are network calls. Each reply is a parameter of a `...Complete` step. A rejected call is not modelled: its `...Complete` step never runs, so its loading flag stays up.
- The promises that the `async` methods return are not modelled.
- Real scheduling is not modelled. Interleavings are any order of `...Begin` and `...Complete` calls.
- The `onDestroy` framework hook is not modelled. `Consumer.Binding.Destroy` is the callback it registers.
- The module-level singleton store and the default export are not modelled. `StoreView.CreateStore` is called explicitly.
- Consumer.Binding.Select: the projection `f` and the effect's re-running of `f(state)` belong to the reactive library; the model records only the effect and whether it is disposed.
- StoreView.StateView.Write: assignments to `correct` and values of the wrong type are not modelled. Assigning to `correct` writes the `value` of the library's effect object, whose behaviour is not visible. The cells are typed, while JavaScript would store any value.
- StoreView.StateView.Read: properties that a plain object inherits (`toString`, `__proto__` and the like) read as `undefined` in the model.
- JsText: JavaScript strings are sequences of UTF-16 code units, while `string` here is a sequence of Unicode scalar values. A JavaScript string that holds an unpaired surrogate has no counterpart in the model. For every other string, `trim()`, `replace(/\W+/g, "")`, `toLowerCase()` and `===` agree with the model.
- JsText.ToLowerCase: only defined on word characters. The source lower-cases only strings already stripped to `[A-Za-z0-9_]`, and on those Unicode case mapping changes only `A`-`Z`.
- src/main.js, the custom-element UI with its mock check, is not part of this model.

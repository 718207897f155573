# Google translation path and documentation task, modelled in Dafny

This project models two pieces of the translation plugin's sequential logic.

- **The Google translator** (`GoogleTranslator`):
  - the supported source and target language lists;
  - the request URL, which is an endpoint plus an ordered list of query parameters;
  - the form body;
  - the documentation-mode decoder that walks a nested JSON array;
  - the rule that picks the result's source language;
  - `parserResult`;
  - the dispatcher that classifies general-mode "sentence" objects.
- **The documentation translation task** (`TranslateDocumentationTask`):
  - the promise state behind `isProcessed` and `isSucceeded`;
  - the worker's error handler, which schedules one warning;
  - `nonBlockingGet`, a loop of at most `3000 / 100 = 30` short blocking waits, each one preceded by a cancellation check.

Modules:

- `Results`: the `Option` and `Result` types used for every error path.
- `JsonTree`: JSON elements as Gson represents them, and Gson's `getAsString`.
- `Languages`: the language enumeration (`Lang`, with a name and a wire code) and the supported lists.
- `GoogleRequest`: the URL query and the body.
- `GoogleResponse`: the decoders and `parserResult`.
- `DocumentationTask`: the promise, the task and the poll loop.

Things the source gets from code outside these files are parameters of the model:

- `Lang.sortedValues()` is a sequence.
- `Lang.valueOfCode` and the text token `tk()` are functions.
- The primary language from the settings is a value.
- Gson's reflective decode of a general-mode response is a function.
- Threads and timing are replaced by a schedule. The schedule lists what each loop iteration observes: the cancellation check fired, or the 100 ms wait timed out, failed or produced the text. Iterations past the end of the schedule time out, as they do while the promise stays pending.

Two behaviours of the code are worth knowing:

- When the caller asks for AUTO and the response names no language, the result's source language stays AUTO (`GoogleResponse.AutoKeptWhenNothingDetected`).
- Gson's `getAsString` reads a number or boolean leaf as its text, and a one-element array as its element. Only a null, an object or an array of another size fails to read as a string (`JsonTree.AsString`).

## Model

| member | source | states |
|---|---|---|
| Languages.RemoveAll | src/main/kotlin/cn/yiiguxing/plugin/translate/trans/GoogleTranslator.kt:42 | Kotlin's `list - list`: an entry survives exactly when it was in the input and its constant is not among those removed, as many times as it occurred; never longer than the input |
| Languages.RemoveFirst | src/main/kotlin/cn/yiiguxing/plugin/translate/trans/GoogleTranslator.kt:43-44 | Kotlin's `list - element`: the list is unchanged when the constant is absent; otherwise exactly the first entry for it is removed and the rest keep their order |
| Languages.RemoveAllKeepsOrder | src/main/kotlin/cn/yiiguxing/plugin/translate/trans/GoogleTranslator.kt:42 | the filtered list is a subsequence of the enumeration, so the order of `sortedValues()` is kept |
| Languages.RemoveFirstOfEnumeration | src/main/kotlin/cn/yiiguxing/plugin/translate/trans/GoogleTranslator.kt:44 | in an enumeration (distinct constants) removing the first AUTO removes every AUTO |
| Languages.SupportedSourceLanguages | src/main/kotlin/cn/yiiguxing/plugin/translate/trans/GoogleTranslator.kt:40-42 | the source list is a subsequence of the enumeration (same order) holding every entry except Cantonese and Classical Chinese |
| Languages.SupportedTargetLanguages | src/main/kotlin/cn/yiiguxing/plugin/translate/trans/GoogleTranslator.kt:40-44 | the target list never holds Cantonese or Classical Chinese, only entries of the enumeration, and for an enumeration it is the enumeration filtered of AUTO and the two |
| Languages.SupportedSourceLanguagesSpec | src/main/kotlin/cn/yiiguxing/plugin/translate/trans/GoogleTranslator.kt:40-42 | source languages are the enumeration in order, without Cantonese and Classical Chinese, and nothing else is removed (AUTO stays) |
| Languages.SupportedTargetLanguagesSpec | src/main/kotlin/cn/yiiguxing/plugin/translate/trans/GoogleTranslator.kt:40-44 | target languages equal the enumeration filtered of AUTO, Cantonese and Classical Chinese, in order; none of the three ever appears |
| GoogleRequest.RequestUrlFor | src/main/kotlin/cn/yiiguxing/plugin/translate/trans/GoogleTranslator.kt:50-84 | the endpoint follows the mode; the query starts with `sl` = source code and `tl` = target code, neither name recurs, and `tk` = token of the text appears only once, as the last parameter |
| GoogleRequest.RequestParams | src/main/kotlin/cn/yiiguxing/plugin/translate/trans/GoogleTranslator.kt:86-93 | the body is one pair, `q` = the text |
| GoogleRequest.ModeParams | src/main/kotlin/cn/yiiguxing/plugin/translate/trans/GoogleTranslator.kt:66-78 | the mode parameters start with `client` (`te_lib` for documentation, `gtx` otherwise), never reuse `sl`, `tl` or `tk`, carry `format=html` exactly in documentation mode and `hl` = primary language exactly in general mode |
| GoogleRequest.TokenDependsOnTextOnly | src/main/kotlin/cn/yiiguxing/plugin/translate/trans/GoogleTranslator.kt:80-82 | two requests on the same text end with the same token, whatever their languages, mode or primary language |
| GoogleRequest.DocumentationQuery | src/main/kotlin/cn/yiiguxing/plugin/translate/trans/GoogleTranslator.kt:62-69 | documentation mode sends exactly `sl, tl, client=te_lib, format=html, tk` |
| GoogleRequest.GeneralQuery | src/main/kotlin/cn/yiiguxing/plugin/translate/trans/GoogleTranslator.kt:62-78 | general mode sends `sl, tl, client=gtx`, the four `dt` flags `t, bd, rm, qca`, `dj=1`, `ie=UTF-8`, `oe=UTF-8`, `hl` = primary language, then `tk`, and no `format` |
| GoogleRequest.RequestParamsOnlyText | src/main/kotlin/cn/yiiguxing/plugin/translate/trans/GoogleTranslator.kt:86-93 | the body is the single pair `q` = text, the same for every language pair and mode |
| JsonTree.AsString | src/main/kotlin/cn/yiiguxing/plugin/translate/trans/GoogleTranslator.kt:134-135 | Gson's `getAsString`: a string reads as itself, a number as its literal, a boolean as `true`/`false`, a one-element array as its element; null, objects and other arrays have no string reading |
| GoogleResponse.Descend | src/main/kotlin/cn/yiiguxing/plugin/translate/trans/GoogleTranslator.kt:128-133 | the descent either stops at an array whose first element is not an array, or fails on an empty array |
| GoogleResponse.DescendFindsTerminal | src/main/kotlin/cn/yiiguxing/plugin/translate/trans/GoogleTranslator.kt:128-133 | if following element 0 reaches a terminal array, the descent returns that array |
| GoogleResponse.DescendFailsOnEmpty | src/main/kotlin/cn/yiiguxing/plugin/translate/trans/GoogleTranslator.kt:128-130 | an empty array anywhere on the element-0 path makes the descent fail |
| GoogleResponse.DescendFollowsPath | src/main/kotlin/cn/yiiguxing/plugin/translate/trans/GoogleTranslator.kt:128-133 | whatever the descent returns, or the empty array it fails on, lies on the element-0 path |
| GoogleResponse.DecodeDocTranslation | src/main/kotlin/cn/yiiguxing/plugin/translate/trans/GoogleTranslator.kt:122-137 | a non-array response fails; a successful decode comes from an array whose descent succeeded |
| GoogleResponse.DecodeDocTranslationSpec | src/main/kotlin/cn/yiiguxing/plugin/translate/trans/GoogleTranslator.kt:128-136 | for terminal array `t`: success exactly when `t[0]` (and `t[1]` if present) read as strings; the text is `t[0]`; a language is detected exactly when `t` has more than one element, and it is `valueOfCode(t[1])` |
| GoogleResponse.DecodeDocTranslationEmpty | src/main/kotlin/cn/yiiguxing/plugin/translate/trans/GoogleTranslator.kt:128-131 | an empty array on the element-0 path fails the whole decode |
| GoogleResponse.HelloWorldExample | src/main/kotlin/cn/yiiguxing/plugin/translate/trans/GoogleTranslator.kt:128-136 | `[[["hello world"]]]` decodes to "hello world" with no detected language |
| GoogleResponse.DetectedLanguageExample | src/main/kotlin/cn/yiiguxing/plugin/translate/trans/GoogleTranslator.kt:128-136 | `[["hola","es"]]` decodes to "hola" with the language whose code is "es" |
| GoogleResponse.ResolveSourceLang | src/main/kotlin/cn/yiiguxing/plugin/translate/trans/GoogleTranslator.kt:106 | a detected language replaces the caller's only when the caller asked for AUTO; otherwise, or with nothing detected, the caller's language stays |
| GoogleResponse.ParserResult | src/main/kotlin/cn/yiiguxing/plugin/translate/trans/GoogleTranslator.kt:95-114 | in both modes a parsed result targets `targetLang`; each mode fails exactly when its decoder fails; documentation mode carries the decoded text; general mode carries the original text and the decoded sentences |
| GoogleResponse.DocumentationSourceLanguage | src/main/kotlin/cn/yiiguxing/plugin/translate/trans/GoogleTranslator.kt:104-107 | end to end: the result's source is the detected language when AUTO was asked and `t` has a second element, and otherwise the caller's, even if the response names another |
| GoogleResponse.AutoKeptWhenNothingDetected | src/main/kotlin/cn/yiiguxing/plugin/translate/trans/GoogleTranslator.kt:104-107 | AUTO asked with a one-element terminal array yields a result whose source language is still AUTO |
| GoogleResponse.DecodeSentence | src/main/kotlin/cn/yiiguxing/plugin/translate/trans/GoogleTranslator.kt:146-158 | an object with `orig` and `trans` is a translation pair, even if it also has `translit`; otherwise one with `translit` or `src_translit` is a transliteration; otherwise it fails, as does a non-object; the members are kept |
| DocumentationTask.IsSucceeded | src/main/kotlin/cn/yiiguxing/plugin/translate/documentation/TranslateDocumentationTask.kt:26-28 | succeeded means the promise holds a value, and a succeeded task is processed (not pending) |
| DocumentationTask.IsProcessed | src/main/kotlin/cn/yiiguxing/plugin/translate/documentation/TranslateDocumentationTask.kt:26 | processed means the promise completed, with a value or rejected |
| DocumentationTask.Complete | src/main/kotlin/cn/yiiguxing/plugin/translate/documentation/TranslateDocumentationTask.kt:20-24 | a pending promise settles once: processed afterwards, succeeded exactly on a fetched text, and one warning more on failure; a settled promise ignores later answers |
| DocumentationTask.Delivered | src/main/kotlin/cn/yiiguxing/plugin/translate/documentation/TranslateDocumentationTask.kt:30-32 | an `onSuccess` callback receives a text exactly when the task succeeded, and that text is the promise's value |
| DocumentationTask.PolledTextIsDelivered | src/main/kotlin/cn/yiiguxing/plugin/translate/documentation/TranslateDocumentationTask.kt:30-42 | when the waits read a promise that ends in state `p`, a text returned by the wait is the text `onSuccess` receives |
| DocumentationTask.FetchedTextDelivered | src/main/kotlin/cn/yiiguxing/plugin/translate/documentation/TranslateDocumentationTask.kt:20-32 | a successful fetch leaves the task succeeded, with no warning, and `onSuccess` receives the fetched text |
| DocumentationTask.FailedFetchWarnsOnce | src/main/kotlin/cn/yiiguxing/plugin/translate/documentation/TranslateDocumentationTask.kt:20-28 | a failed fetch leaves the task processed, not succeeded, with exactly one warning and no delivered text |
| DocumentationTask.Poll | src/main/kotlin/cn/yiiguxing/plugin/translate/documentation/TranslateDocumentationTask.kt:34-52 | reference for the loop: the waits made stay within the budget, and a cancellation ends the loop before its own wait, inside the budget |
| DocumentationTask.NonBlockingGet | src/main/kotlin/cn/yiiguxing/plugin/translate/documentation/TranslateDocumentationTask.kt:34-56 | the loop agrees with the reference, makes at most 30 waits, blocks at most 3000 ms in all, and every attempt before the deciding one timed out |
| DocumentationTask.FirstSettledDecides | src/main/kotlin/cn/yiiguxing/plugin/translate/documentation/TranslateDocumentationTask.kt:38-48 | the first attempt that does not time out decides the result, and no attempt after it is made |
| DocumentationTask.AllTimeoutsGiveNothing | src/main/kotlin/cn/yiiguxing/plugin/translate/documentation/TranslateDocumentationTask.kt:38-51 | when every attempt in the budget times out, the loop uses up the budget and returns null |
| DocumentationTask.SuccessAfterTimeouts | src/main/kotlin/cn/yiiguxing/plugin/translate/documentation/TranslateDocumentationTask.kt:41-42 | attempt `k` succeeding with `v` after `k` timeouts returns `v` after `k + 1` waits |
| DocumentationTask.FailureReturnsNothing | src/main/kotlin/cn/yiiguxing/plugin/translate/documentation/TranslateDocumentationTask.kt:45-46 | a non-timeout failure returns null at once, whatever later attempts would give |
| DocumentationTask.CancellationPropagates | src/main/kotlin/cn/yiiguxing/plugin/translate/documentation/TranslateDocumentationTask.kt:40 | a cancellation before attempt `k` propagates (not null), without that attempt's wait |
| DocumentationTask.ExhaustedBudgetGivesNothing | src/main/kotlin/cn/yiiguxing/plugin/translate/documentation/TranslateDocumentationTask.kt:50-51 | thirty timeouts give null after thirty waits |
| DocumentationTask.TimeoutContinues | src/main/kotlin/cn/yiiguxing/plugin/translate/documentation/TranslateDocumentationTask.kt:43-44 | a timeout with budget left goes on to the next attempt and does not end the loop |

## Left out

- The HTTP call, the `userAgent`/`googleReferer` headers, `googleHost` and the URL template formatting are not modelled. They are I/O, and their helpers are not part of this model. So is `NetworkException.wrapIfIsNetworkException` in `onError`.
- The body of the `tk()` token hash is not modelled; it is a function parameter. `UrlBuilder` percent-encoding is also left out: the URL is the endpoint plus the ordered parameter list. `addQueryParameters("dt", ...)` is taken to add one `dt` pair per value, in order.
- Gson parsing of the response text is not modelled: the model starts from a JSON element. The reflective decode of a general-mode response is a function parameter, and `GoogleTranslation.toTranslation()` is not modelled. The general-mode payload is represented by its decoded sentences.
- GoogleResponse.DecodeSentence: the reflective binding of a sentence's fields into `GTransSentence`/`GTranslitSentence` is not modelled. Each variant keeps the object's members, and a field of the wrong type is not rejected.
- `Lang.valueOfCode` is a function parameter, and `Lang.sortedValues()` is a sequence parameter, because the enumeration's contents are not part of this model. Enumeration constants are compared by name.
- `runAsync`, `invokeLater`/`ModalityState`, `DocNotifications` and the real timing of `blockingGet` are not modelled. They are threads and UI. The worker's answer is a `Fetch` value, the warning is a counter, and the waits are a schedule of attempt outcomes.
- Logging, the icon, the settings singleton and the translator id and name constants are left out.

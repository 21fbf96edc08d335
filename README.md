# Form filler core, in Dafny

This project models the decision logic of a content script that fills in web
forms (Google Forms style) from free-text instructions. It covers these parts:

- **Field discovery** (`analyzeFormFields`). The script finds the question
  containers, then finds each container's title, its type and its
  `aria-required` flag. For choice questions it also collects the option texts.
  At each level the first selector that finds something wins.
- **Classification** (`determineQuestionType`). A fixed priority chain over the
  input markers that a container holds.
- **Instruction matching** (`createAIPrompt`, `matchInstructionsToFields`). The
  request for the language model is built from field summaries and the user's
  instructions. Each item of the model's answer is bound to the first field
  whose title equals the item's title, ignoring case and surrounding white
  space. Items that name no field are dropped.
- **The model request with retries** (`getAIResponse`). The attempt counter
  becomes a loop variable. A failure whose message mentions 429 or 500 is
  retried while attempts are left, after a pause of `2^(retryCount+1)` seconds.
  An HTTP error response never gets there: its body is read for logging, so
  reading it again as JSON fails with a message that has no status in it.
- **Writing values** (`fillFormField`):
  - text and paragraph inputs get the value;
  - date inputs get a date normalised by `parseItalianDate` and its fallbacks;
  - radio questions get a click on the first option whose label equals the
    value;
  - checkbox questions get a click on every option whose label equals one of
    the values;
  - dropdowns get the value of the first option whose text contains the value.

The page is modelled as data:

- A question container is a `Dom.Container` object. It records what each
  selector the script uses finds inside it.
- Its controls are `Dom.Control` objects whose `value` the writers assign.
- The clicks and events the script fires go to the container's `log`.
- Writers are methods that change the container and its controls. Each one is
  specified by a plan function: the status it reports, the string it writes
  and the effects it logs.
- Discovery and the retry loop are methods proved equal to reference
  functions. The properties are lemmas about those functions.

Two behaviours of the code are easy to miss:

- A date value that is neither an Italian date nor already `YYYY-MM-DD` goes to
  the platform's date parser (`new Date(value)`). The model represents that
  parser as a parameter.
- An answer that is not JSON is retried when its text happens to mention 429 or
  500. The thrown message quotes the text, and the retry test only looks at
  the message.

## Model

| member | source | states |
|---|---|---|
| Cascade.FirstNonEmpty | src/content.js:17-22 | The containers are empty exactly when every selector finds nothing; otherwise they are what one of the selectors finds. |
| Cascade.FirstNonEmptyAt | src/content.js:18-21 | When selector `i` is the first with a hit, the result is what selector `i` finds. |
| Cascade.FirstSome | src/content.js:38-45 | No title element exactly when no title selector finds one; otherwise the element one of them finds. |
| Cascade.FirstSomeAt | src/content.js:39-45 | The title element comes from the first title selector that finds one. |
| Classifier.DetermineQuestionType | src/content.js:99-138 | The returned type's marker family is present, and no family of higher priority is. `unknown` is returned exactly when no family is present. |
| Classifier.ClassifierFollowsPriority | src/content.js:99-138 | The if-chain equals a walk over the priority list date, text, paragraph, radio, checkbox, dropdown that returns the first family present. |
| Classifier.ClassifierCharacterization | src/content.js:99-138 | A container is of type `t` if and only if `t`'s family is present and no earlier family is. |
| Classifier.DateFirst | src/content.js:102-106 | A date marker wins over every other marker. |
| Classifier.TextBeforeParagraph | src/content.js:108-116 | A container with both a text input and a textarea, and no date marker, is a text question. |
| Discovery.TrimAll | src/content.js:73 | One trimmed text per element, in order. |
| Discovery.Describe | src/content.js:47-92 | A record exists exactly when a title element is found. |
| Discovery.DescribeTitled | src/content.js:52-92 | The record holds the trimmed title, the classified type, the required flag, the options and the container. |
| Discovery.FindQuestions | src/content.js:17-22 | The selector loop with `break` returns what the first selector with a hit finds. |
| Discovery.FindTitle | src/content.js:38-45 | The title loop returns the first title element found. |
| Discovery.FindOptions | src/content.js:59-84 | The option loop returns the trimmed option texts, or the dropdown's trimmed `select` texts, or nothing for other types. |
| Discovery.AnalyzeQuestion | src/content.js:26-92 | The `forEach` callback returns early for want of a title element, and otherwise builds the record that `Describe` specifies. |
| Discovery.AnalyzeAll | src/content.js:26-93 | The `forEach` with `push` yields the records of the titled containers, in container order. |
| Discovery.AnalyzeFormFields | src/content.js:1-97 | The result equals the reference definition `Discover`. |
| Discovery.Discover | src/content.js:1-97 | `analyzeFormFields` as a function: the descriptions of the containers that have a title element, in container order. |
| Discovery.OptionsOf | src/content.js:59-84 | Radio and checkbox options from the first option selector with a hit, dropdown options from the `select` element, trimmed; none for other types. |
| Discovery.DiscoveryOutput | src/content.js:26-93 | The k-th record describes the k-th titled container, and the record's element is that container. The origins increase, and every titled container has its record. |
| Discovery.DiscoveryKeepsAll | src/content.js:47-50 | There is one record per container exactly when every container has a title element. |
| Discovery.DescribeFacts | src/content.js:52-92 | The title is the trimmed title text and the type comes from the classifier. `required` holds if and only if an aria-required marker is present. Options are empty unless the type is radio, checkbox or dropdown. |
| Discovery.EmptyTitleKept | src/content.js:47-52 | A title element holding only white space still yields a record, with an empty title. |
| Discovery.UnknownStillEmitted | src/content.js:53-92 | A titled container of no known type is emitted as `unknown` without options. |
| Discovery.ChoiceOptionsTrimmed | src/content.js:60-77 | Radio and checkbox options are the trimmed texts found by the first option selector with a hit, one per element. |
| Discovery.ListboxWithoutSelectHasNoOptions | src/content.js:78-84 | A dropdown without a `select` element has no options. |
| FilterMaps.FilterMap | src/content.js:289-295 | The output is no longer than the input. |
| FilterMaps.FilterMapSpec | src/content.js:289-295 | The k-th output comes from the k-th resolved input, the origins increase, and every resolved input is kept. |
| FilterMaps.FilterMapKeepsAll | src/content.js:289-295 | Nothing is dropped exactly when every item resolves. |
| FilterMaps.Find | src/content.js:290 | `find` gives None exactly when no item satisfies the predicate; otherwise it gives the first item that does. |
| FilterMaps.FindAt | src/content.js:290 | The item at `i` is found when it satisfies the predicate and no earlier item does. |
| JsText.Lower | src/content.js:229 | `toLowerCase` keeps the length and maps each character. |
| JsText.LowerIdempotent | src/content.js:229 | Lower-casing twice is lower-casing once. |
| JsText.Trim | src/content.js:52 | `trim` keeps a slice whose removed ends are white space and whose own ends are not. |
| JsText.TrimIdempotent | src/content.js:52 | Trimming twice is trimming once. |
| JsText.Join | src/content.js:155 | Joining no items gives the empty string, and joining one item gives that item. |
| Dates.Lookup | src/content.js:185 | The lookup finds a value exactly when some entry has the key, and the value is that entry's. |
| Dates.LookupAt | src/content.js:185 | The entry at the first index holding the key gives the value. The table's keys are all distinct (`MonthTableWords`), so the first and the last entry with a key, which is the one a JavaScript object literal keeps, are the same. |
| Dates.MonthTableShape | src/content.js:168-175 | Every month number in the table has two digits. |
| Dates.MonthTableWords | src/content.js:168-175 | Every month word is one to nine lower-case letters. |
| Dates.MonthNumber | src/content.js:185 | A month found in the table has a two-digit number. |
| Dates.MonthPropertyAsWritten | src/content.js:185 | The plain-object lookup agrees with the table on table words. On `constructor` it gives the text of the Object function. |
| Dates.SpaceRun | src/content.js:182 | `\s+` takes the longest run of white space. |
| Dates.LetterRun | src/content.js:182 | `[a-z]+` takes the longest run of lower-case letters. |
| Dates.MatchWithDay | src/content.js:182 | An attempt with a `dl`-digit day yields well-formed groups, and its day is the text at the attempt's position. |
| Dates.MatchAt | src/content.js:182 | An attempt succeeds only at a digit. |
| Dates.Search | src/content.js:182 | Any match found has one or two day digits, a non-empty lower-case word and four year digits. |
| Dates.PadDay | src/content.js:187 | The padded day has two digits and ends with the day. |
| Dates.DateText | src/content.js:187 | With a two-digit month, the template yields `YYYY-MM-DD`. |
| Dates.ParseItalianDate | src/content.js:178-192 | Every date produced is `YYYY-MM-DD` and comes from a regex match. |
| Dates.ParseItalianDateAsWritten | src/content.js:178-192 | `parseItalianDate` as written: lower-case, trim, first regex match, and the template on the plain-object month lookup, `constructor` included. |
| Dates.TwoDigitLookupGivesIso | src/content.js:178-192 | Any lookup that returns only two-digit numbers makes the parse produce `YYYY-MM-DD` dates. |
| Dates.NormalizeDate | src/content.js:194-211 | The Italian parse wins when it succeeds. Otherwise a value already in `YYYY-MM-DD` form is taken as it is, and any other value goes to the platform parser. Every date not produced by the platform parser is `YYYY-MM-DD`. |
| Dates.NoSpaceNoMatch | src/content.js:182 | A text without white space holds no match. |
| Dates.NoSpaceSurvives | src/content.js:179 | Lower-casing and trimming introduce no white space. |
| Dates.NoSpaceNoItalianDate | src/content.js:178-192 | A value without white space is never an Italian date. |
| Dates.IsoDatePassesThrough | src/content.js:195-201 | A value already in `YYYY-MM-DD` form is written unchanged. |
| Dates.IsIsoDate | src/content.js:199 | The anchored test `^\d{4}-\d{2}-\d{2}$`: ten characters, digits with dashes at positions 4 and 7. |
| Dates.NoMatchAtNonDigit | src/content.js:182 | No attempt succeeds at a non-digit or at the end of the text. |
| Dates.SearchStep | src/content.js:182 | The search moves past a non-digit. |
| Dates.SearchSkipsNonDigits | src/content.js:182 | The search skips a stretch without digits. |
| Dates.MatchInContext | src/content.js:182 | In `prefix day word year suffix` with no digit in the prefix, the first match is (day, word, year). The pattern is unanchored. |
| Dates.ParseInContext | src/content.js:178-192 | For a text that is already lower case and trimmed, with only lower-case letters and spaces before the day and only digits, spaces and lower-case letters after the year, the parse gives the template on the looked-up month, and None when the lookup fails. |
| Dates.ParseFound | src/content.js:183-191 | Once the first match is found, only the month lookup decides the result. |
| Dates.AsWrittenAgreesElsewhere | src/content.js:185 | The as-written parse and the table parse agree whenever the first match's word is not `constructor`. |
| Dates.NoDigitNoMatch | src/content.js:182 | A text without digits holds no match. |
| Dates.NoDigitGoesToHost | src/content.js:194-211 | A value without digits is decided by the platform parser alone. |
| Dates.TableDateInText | src/content.js:168-192 | Every table entry gives `<year>-<number>-<padded day>`, also inside lower-case text that has only letters and spaces before the day and only digits, spaces and letters after the year. |
| Dates.UnknownWordInText | src/content.js:185-191 | In a lower-case text with only letters and spaces before the day and only digits, spaces and letters after the year, a word outside the table gives no date with the corrected lookup. With the lookup as written the same holds for every such word other than `constructor` (see Findings). |
| Dates.ExampleFirstOfMay | src/content.js:178-192 | "1 maggio 2000" becomes "2000-05-01". |
| Dates.ExampleAbbreviation | src/content.js:172-174 | "25 dic 1999" becomes "1999-12-25". |
| Dates.ExampleUnanchored | src/content.js:182 | "nato il 7 luglio 1985 a roma" becomes "1985-07-07". |
| Dates.ExampleDayNotChecked | src/content.js:187 | "99 maggio 2000" becomes "2000-05-99": the day is not range-checked. |
| Dates.ExampleFirstMatchOnly | src/content.js:182-191 | Only the first match counts: "1 mai 2000 o 2 maggio 2001" gives no date. |
| Dates.ConstructorMonthAsWritten | src/content.js:185-187 | As written, `<day> constructor <year>` yields a string that is not a date. |
| Dates.ConstructorParse | src/content.js:182-187 | The as-written parse of that text fills the template with the Object function's text. |
| Dates.ConstructorTemplate | src/content.js:187 | That filled template is not `YYYY-MM-DD`. |
| Dates.ConstructorMonthCorrected | src/content.js:185-187 | With the lookup limited to the table's own entries, the same text gives no date. |
| Matching.Summaries | src/content.js:304-309 | One summary per field. |
| Matching.CreateAIPrompt | src/content.js:303-324 | The request is for `gpt-4` with two messages: the fixed system text, then the user message. |
| Matching.PromptQuotesInput | src/content.js:320 | The user message quotes the instructions and the rendered summaries verbatim. |
| Matching.SummariesRestore | src/content.js:304-309 | A summary together with its element is the field. |
| Matching.PromptIgnoresElements | src/content.js:304-309 | Fields that differ only in their elements give the same request. |
| Matching.MatchInstructionsToFields | src/content.js:282-301 | The answer after retries is bound to the fields, and a failure is rethrown unchanged. |
| Matching.FindFieldSpec | src/content.js:290 | The field found is the first whose title agrees, and there is none exactly when no title agrees. |
| Matching.FindFieldAt | src/content.js:290 | The first field whose title agrees is the one bound. |
| Matching.EmptyTitlesNeverAgree | src/content.js:290 | An empty item title binds nothing, and a field with an empty title is never bound. |
| Matching.LowerCaseTitleAgrees | src/content.js:290 | An item naming a field by its lower-cased title finds that field. |
| Matching.LowerTrimCommute | src/content.js:290 | Trimming and lower-casing commute. |
| Matching.ResolveMatchesSpec | src/content.js:289-295 | The k-th binding comes from the k-th item that names a field, in answer order, and carries its value unchanged. Items naming no field are dropped, and every other item is kept. |
| Matching.BindingsAreFields | src/content.js:289-295 | Every binding is to one of the given fields. |
| Matching.TitlesAgree | src/content.js:290 | The `find` test: both titles non-empty and equal once trimmed and lower-cased. |
| Matching.FindField | src/content.js:290 | `fields.find(...)`: the first field whose title agrees with the item's. |
| Matching.ResolveMatches | src/content.js:289-295 | The `map` then `filter`: each item that names a field, bound to that field with its value. |
| Retry.AttemptResult | src/content.js:355-370 | A thrown error keeps its message. A response that is not ok fails with the used-body message, whatever its status. An ok response succeeds exactly when its trimmed answer text parses, with the parsed value. Otherwise it fails with the invalid-JSON prefix followed by the trimmed text. |
| Retry.AttemptResultCorrected | src/content.js:355-358 | A response that is not ok fails with a message carrying its decimal status. Every other outcome is handled as written. |
| Retry.DecimalText | src/content.js:355-358 | The status is written as a non-empty run of digits. |
| Retry.StatusMentioned | src/content.js:373 | The corrected message for a 429 or 500 response mentions 429 or 500. |
| Retry.ErrorStatusRetriedCorrected | src/content.js:355-378 | With the corrected attempt, `n` responses with status 429 or 500 and then a success give `min(n, maxRetries)` pauses, and the run succeeds if and only if `n <= maxRetries`. |
| Retry.Pow2 | src/content.js:374 | `Math.pow(2, n)` is positive; that it doubles from one retry to the next is stated by `Retry.BackoffDoubles`. |
| Retry.ShouldRetry | src/content.js:373 | A retry is allowed when attempts are left and the message contains 429 or 500. |
| Retry.BackoffDelay | src/content.js:374 | The pause before retry `retryCount + 1` is `2^(retryCount+1) * 1000` ms. |
| Retry.Responses | src/content.js:370-379 | The recursion: an attempt that fails with a retryable message is followed by its pause and the next attempt; any other result ends the run. |
| Retry.GetAIResponse | src/content.js:330-381 | The loop's result and pauses equal the recursion `Responses`. |
| Retry.BackoffDoubles | src/content.js:374 | The first pause is 2000 ms, and each pause doubles the previous one. |
| Retry.DefaultSchedule | src/content.js:330-378 | With three retries the pauses are 2000, 4000 and 8000 ms. |
| Retry.PauseSchedule | src/content.js:373-377 | The k-th pause is `BackoffDelay(retryCount + k)`. |
| Retry.PausesFollowRetryableFailures | src/content.js:373 | Every pause follows a failure that allows a retry. |
| Retry.LastAttemptDecides | src/content.js:370-379 | The result is the last attempt's, and a final failure allows no retry. |
| Retry.AttemptsBounded | src/content.js:373 | There are at most `maxRetries` pauses, so at most `maxRetries + 1` attempts. |
| Retry.TransientFailures | src/content.js:371-378 | After `n` transient failures and then a success, there are `min(n, maxRetries)` pauses. The run succeeds if and only if `n <= maxRetries`. |
| Retry.NoDigitsNoRetry | src/content.js:373 | A message without digits is never retried. |
| Retry.ErrorResponseNotRetried | src/content.js:355-379 | An HTTP error response, 429 and 500 included, makes the run fail at once with the used-body message, with no pause. |
| Retry.BodyUsedMessageDigitFree | src/content.js:360 | The used-body message has no digit, so it never mentions 429 or 500. |
| Retry.InvalidAnswerMentioning500Retried | src/content.js:366-373 | A non-JSON answer text that mentions 500 is retried. |
| Writer.FillText | src/content.js:146-157 | The input, if present, gets the value (an array joined with commas) and an input event. Otherwise nothing happens. |
| Writer.TextPlan | src/content.js:146-157 | With an input present, write the value (an array comma-joined) and dispatch input; otherwise nothing. |
| Writer.FillDate | src/content.js:159-217 | The Italian parse, then the ISO pass-through, then the platform parser. The date is written, then the input and change events fire. An unusable value leaves the input alone. |
| Writer.DatePlan | src/content.js:159-216 | With a date input and a normalised date, write it and dispatch input then change; otherwise nothing. |
| Writer.FirstIndex | src/content.js:226-234 | Gives the first index below both the option count and the label count whose label agrees; None exactly when no label there agrees. |
| Writer.FillRadio | src/content.js:219-235 | The loop clicks what `RadioPlan` says. An array value throws at the first label. |
| Writer.LabelIs | src/content.js:229 | The label's text, trimmed and lower-cased, equals the lower-cased value. |
| Writer.RadioPlan | src/content.js:219-235 | A single value clicks the first option whose label agrees; an array throws when a label is compared. |
| Writer.Clicks | src/content.js:243-250 | One click per chosen index, in order. |
| Writer.FillCheckbox | src/content.js:237-251 | The loop clicks every chosen index in increasing order. |
| Writer.CheckboxPlan | src/content.js:237-251 | One click for each option whose label agrees with one of the values, in option order. |
| Writer.FirstOption | src/content.js:261-264 | The first option whose text includes the value. A missing option text throws; no match picks nothing. |
| Writer.FirstOptionAt | src/content.js:262-264 | The option at `i` is picked when its text includes the value and no earlier text does. |
| Writer.FillDropdown | src/content.js:253-273 | The select, if present, gets the picked option's value and a change event. Otherwise nothing changes. |
| Writer.Includes | src/content.js:263 | The option text, trimmed and lower-cased, contains the lower-cased value. |
| Writer.DropdownPlan | src/content.js:253-273 | With a `select` present, write the first including option's value and dispatch change; an option without text, or an array value, throws. |
| Writer.FillFormField | src/content.js:140-280 | Dispatches on the type. Only the log and the branch's control change, and a branch's error is rethrown. |
| Writer.FillPlan | src/content.js:140-280 | The plan of the branch for the field's type, with `LabelIs` and `Includes` as comparisons; nothing for an unknown type. |
| Writer.RadioClicksFirstAgreeing | src/content.js:226-234 | At most one click, on the first option whose label agrees. There is none exactly when no label within the option count agrees. |
| Writer.PaddedValueAgreesWithNoLabel | src/content.js:229 | The value is not trimmed, so a value with white space at either end agrees with no trimmed label. |
| Writer.PaddedValueClicksNoRadio | src/content.js:226-234 | Such a value clicks no radio option. |
| Writer.ChosenSpec | src/content.js:243-250 | An option is clicked if and only if it is below the option count, has a label, and that label agrees with some value. Clicks come in increasing order. |
| Writer.CheckboxSingleIsList | src/content.js:239 | A single value behaves as a one-element list. |
| Writer.DropdownFirstNotBest | src/content.js:262-264 | With options "Iceberg" and "Ice", the value "ice" selects "Iceberg": the first match wins, not the best. |
| Writer.DropdownFirstContaining | src/content.js:262-264 | With options "Italy", "Ireland" and "Iceland", the value "ice" selects "Iceland". |
| Writer.MissingLetterNotIncluded | src/content.js:263 | A text that lacks one of the value's letters, up to case, does not include the value, whatever white space surrounds it. |
| Writer.IncludesAtStart | src/content.js:263 | A text that, once trimmed, starts with the value, up to case, includes it. |
| Writer.EmptyValuePicksFirstOption | src/content.js:262-264 | An empty value selects the first option when that option has a text, and throws when it has none. |
| Writer.DateWritesIsoOrHostDate | src/content.js:194-216 | A written date is `YYYY-MM-DD` or the platform parser's result, followed by input then change events. When nothing is written, no event fires. |
| Writer.WritesOnlyTarget | src/content.js:145-275 | Only the branch's own control is written, and an unknown type does nothing. |
| Writer.EffectsStayInBranch | src/content.js:145-275 | Clicks happen only for radio and checkbox questions, and events go only to the branch's control. |
| Writer.RadioOnlyClicks | src/content.js:226-234 | The radio branch only clicks. |
| Writer.CheckboxOnlyClicks | src/content.js:243-250 | The checkbox branch only clicks. |
| Writer.DateEvents | src/content.js:213-216 | The date branch only dispatches events, on the date input. |

## Left out

- The network request and the JSON handling are parameters. These are `fetch`, `response.json()`, the extraction of `choices[0].message.content` and `JSON.parse` (src/content.js:335-370). The model gets one `Outcome` per attempt from `network`, and a `parse` function for `JSON.parse`.
- `JSON.stringify(fieldsJson, null, 2)` is the `render` parameter of the prompt functions.
- `new Date(value)` followed by `toISOString().split('T')[0]` is the `hostParse` parameter. The platform's date parsing and time zones are not modelled.
- `sleep` is not modelled; the pauses are returned as a list of delays. `click()` and `dispatchEvent` are entries in the container's log, without event propagation.
- `getAIResponse` has a branch for a prompt that is a string or lacks `model`/`messages`. It is left out because `matchInstructionsToFields` always passes a full request. Its `fields` and `formHtml` arguments are unused and left out too.
- The error text that `response.text()` reads from a response that is not ok is only logged, so the model leaves it out. The model keeps the status.
- Retry.AttemptResult: the exact wording of the used-body TypeError depends on the browser. The model uses Chrome's message; any wording without digits gives the same behaviour.
- Dates.ParseItalianDate: runs on the corrected month lookup `MonthNumber` (the table's own entries; see Findings). For a text whose first match has the word `constructor`, it returns no date, where the code as written builds the non-ISO text that `Dates.ConstructorParse` states.
- Dates.NormalizeDate: runs on the corrected month lookup. So "1 constructor 2000" goes to the platform parser here, while the code as written takes the non-ISO Italian result.
- Writer.FillDate: runs on the corrected month lookup. On "<day> constructor <year>" the code as written assigns "<year>-function Object() { [native code] }-<day>" and fires input and change events; the model instead does what the platform parser's result decides.
- Dates.UnknownWordInText: proved for lower-case texts with only letters and spaces before the day and only digits, spaces and letters after the year; other surroundings are not covered by this lemma. With the lookup as written it excludes `constructor`, which gives a date string.
- Writer.IncludesAtStart: the condition is on the trimmed text. An untrimmed text such as "Ice " does not include the value "ice ", because the value is not trimmed.
- A real `input[type=date]` clears any assigned string that is not a valid date, such as "2000-05-99" or the `constructor` text, while the events still fire. `Dom.Control.value` keeps the string as assigned.
- Writer.DateWritesIsoOrHostDate: "`YYYY-MM-DD` or the platform parser's result" holds for the corrected lookup only. As written, a `constructor` date writes a non-ISO string.
- These parts are outside the core and left out: `submitForm`; the "simple" mode that uses selectors returned by the model; the `fillFormWithInstructions` driver; toast and UI code; `chrome.storage` and `chrome.runtime` wiring; console logging; and `src/popup.js`.
- JsText.Lower: maps ASCII and Latin-1 capitals only. Other Unicode case mappings of `toLowerCase`, including those that change length, are not modelled.
- Answer values other than a string or an array of strings (numbers, booleans, null, objects) are not modelled, and neither are answers that are valid JSON but not a list of `{fieldTitle, value}` objects.
- A container's structure is the set of what its selectors find. The model does not represent the DOM tree or CSS selector matching.
- The `select.options || querySelectorAll('[role="option"]')` choice is given as the container's option list. The model does not derive it.

## Findings

| source | as written | input that shows it | evidently intended | confidence | as-written member | corrected member |
|---|---|---|---|---|---|---|
| src/content.js:185 | `mesiItaliani[mese]` looks the month word up on a plain object, so inherited properties are found too; `constructor` is all lower-case letters and reaches `Object.prototype.constructor` | "1 constructor 2000" gives "2000-function Object() { [native code] }-01", which is then written into the date input | only the table's own 24 entries are month words, so that text gives no Italian date | not executed | Dates.ConstructorMonthAsWritten | Dates.ConstructorMonthCorrected |
| src/content.js:355-360 | a response that is not ok has its body read by `response.text()` for logging, and then `response.json()` is called on the same response; the body is already used, so that call throws a TypeError whose message has no status in it | a first response with status 429 (rate limit) or 500: the run fails at once, with no retry and no pause | an error carrying the status is thrown, so the 429/500 test at :373 retries it with the backoff | not executed | Retry.ErrorResponseNotRetried | Retry.ErrorStatusRetriedCorrected |

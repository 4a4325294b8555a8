# PriorizAI input validation, modelled in Dafny

PriorizAI is a small task-prioritisation tool. It has three parts:

- A browser client (`docs/app.js`) collects a name and up to ten tasks from a form.
- A Cloudflare Worker (`worker/index.js`) validates each request and forwards it to a completion API.
- A Streamlit prototype (`app.py`) has its own form and its own task-list validator.

This project models the part of these programs that decides what text is accepted: the input validation and sanitisation layer. The client and the Worker each have their own copy of the same string rules, so the model also proves how the two copies relate.

Modules (one file each):

- `wrappers.dfy` (`Wrappers`): `Option` and `Result`. A thrown JavaScript `Error` and a Python exception both become an error value.
- `text.dfy` (`Text`): the string primitives both JavaScript files rely on. This covers the whitespace that `trim()` removes, `trim`, ASCII `toLowerCase`, `includes` and `some`, NUL removal, `cleanText`, and how template literals print a natural number.
- `json.dfy` (`JsValue`): the values `request.json()` produces. It also holds the JavaScript coercions the validators use: truthiness, `String()`, `Number()`, `Number.isInteger` and `===` on numbers.
- `worker.dfy` (`Worker`):
  - `cleanText`, `looksLikeInjection`, `mustBeString` and `mustBeInt`;
  - readJson's body check;
  - the checks `/prioritize`, `/calmai` and `/briefai` make before calling the completion API;
  - `removeQuestionMarksDeep`.
- `client.dfy` (`Client`):
  - `normalizeBaseUrl`, and the client's own `looksLikeInjection`, `cleanText` and `requireSafeText`;
  - `getLabelByValue`;
  - the `taskCount` bookkeeping of `ensureInitialTasks` and `addTask`, as the class `TaskForm`;
  - `collectPriorizaiPayload`, as a method with a loop over the task slots.
- `prototype.dfy` (`Prototype`): `validate(tasks)` and `build_payload` of the prototype.

How the model represents each source:

- **Worker and prototype:** these are pure and are modelled as functions. The validators return a `Result`.
- **Worker errors:** an Error thrown inside a Worker handler becomes `Failure(500, message)`, because the top-level `fetch` catches it and answers 500. A handler's own `json({ error }, 400)` becomes `Failure(400, message)`.
- **Client state:** the client keeps `taskCount` in a closure variable that `ensureInitialTasks` and `addTask` update. It is the field `TaskForm.taskCount`. The slots appended to the task container are the field `TaskForm.slots`.
- **The form:** the DOM is not modelled. The page's task inputs are a sequence of `Option<Slot>`:
  - `None` stands for a slot where one of the four elements is missing.
  - `Slot(title, description, importance, timeCost)` holds the element values as strings.
- **The client loop:** `CollectPriorizaiPayload` checks the name, then runs the loop over the slots (`CollectSlots`), then checks the task count and the Worker address.
  - `CollectSlots` is written once for any per-slot step and proved against the specification function `CollectTasks(Outcomes(...))`.
  - `CollectPriorizaiPayload` applies it with `ProcessSlot`, the body of the loop.
  - Its result is proved equal to the functional `CollectPayload`. The lemmas about the payload are proved about that function.
- **Cleaned title and description:** the loop passes `cleanText` of the title and of the description to `requireSafeText`, which cleans again. `ProcessSlot` passes the raw value. `RequireSafeTextOfCleaned` proves that the two give the same result.
- **Numbers:** JavaScript numbers are modelled as exact decimals `Dec(m, k) = m / 10^k`, plus `NaN` and the infinities. The model computes `Number()`, `Number.isInteger` and `===` exactly on these decimals; the rounding to binary64 is not modelled (see "Left out").
- **Conversions that throw:** `JSON.parse` can give an object its own `toString` property, which is never callable. `String()` and `Number()` of such an object throw a TypeError, and so do they of an array holding one, through `join`. `JsValue.ToText` and `JsValue.ToNumber` return that error, and `cleanText`, `mustBeString` and `mustBeInt` pass it on as a 500.
- **Lengths:** `length` counts UTF-16 code units, so a character outside the Basic Multilingual Plane counts twice (`Text.Utf16Length`). Both `mustBeString` and `requireSafeText` compare that count with their bounds.

## Model

| member | source | states |
|---|---|---|
| Text.Trim | worker/index.js:79 | `trim()` leaves no whitespace at either end and never lengthens the string |
| Text.TrimSpec | worker/index.js:79 | `trim()` returns exactly the part of the input between a run of leading and a run of trailing whitespace |
| Text.TrimEmptyIffAllSpace | docs/app.js:34-35 | trimming gives "" exactly when every character is whitespace |
| Text.TrimOfTrimmed | docs/app.js:34 | a string with no whitespace at either end is left unchanged by `trim()` |
| Text.TrimKeepsChars | worker/index.js:154 | trimming never introduces a character that was not in the input |
| Text.TrimmedFromUnique | worker/index.js:79 | a string splits in only one way into whitespace, a part with no whitespace at either end, and whitespace |
| Text.TrimIs | worker/index.js:79 | any such split is the one `trim()` finds |
| Text.TrimPadded | worker/index.js:154 | whitespace added around a string does not change what `trim()` returns |
| Text.TrimOfTrimEnd | worker/index.js:154 | removing the trailing whitespace before `trim()` changes nothing |
| Text.Utf16Length | worker/index.js:111-112 | `length` counts between one and two code units per character |
| Text.Utf16LengthOfBmp | worker/index.js:111-112 | on text inside the Basic Multilingual Plane, `length` is the number of characters |
| Text.Utf16LengthOfAstral | worker/index.js:111-112 | each character outside the Basic Multilingual Plane counts as two code units |
| Text.RemoveAll | worker/index.js:79 | `replace(/c/g, "")` leaves no c, removes exactly the occurrences of c (multiset), and changes nothing when there is none |
| Text.RemoveAllAppend | worker/index.js:79 | removing c from a concatenation removes it from each part |
| Text.CleanText | worker/index.js:78-80 | the output of `cleanText` holds no NUL, has no whitespace at either end, and is the input with its NUL characters removed, less a run of whitespace at either end |
| Text.CleanTextFixedPoint | docs/app.js:81-83 | `cleanText` leaves a string unchanged exactly when it is already clean, so applying it twice is applying it once |
| Text.Lower | worker/index.js:83 | `toLowerCase` maps every character on its own and keeps the length |
| Text.ContainsIffOccurs | worker/index.js:86 | `t.includes(p)` holds exactly when p occurs in t at some offset |
| Text.ContainsAnyIff | worker/index.js:86 | `ps.some(p => t.includes(p))` holds exactly when some pattern of the list is included |
| Text.ContainsAnyAppend | docs/app.js:61-75 | checking one pattern list after another is checking their concatenation |
| Text.ContainsTransitive | docs/app.js:74 | a text that includes q, where q includes p, includes p |
| Text.NatToString | worker/index.js:193 | the numeral that `${idx + 1}` prints is a non-empty string of digits |
| Text.DigitsValueOfNatToString | worker/index.js:193 | reading the printed numeral back gives the number |
| Text.NatToStringInjective | worker/index.js:193-218 | distinct task numbers print differently, so every message names its task unambiguously |
| JsValue.IntValueExact | worker/index.js:118-123 | `n === v` for an integer v holds exactly when `Number.isInteger(n)` and n denotes v |
| JsValue.QuotientScaled | worker/index.js:120 | an integral decimal m / 10^k is the integer it denotes, scaled back |
| JsValue.LeadingDigits | worker/index.js:119 | the digit prefix that `Number()` reads is all digits and ends at the first non-digit |
| JsValue.Truthy | worker/index.js:79 | the truthiness test in `cleanText`: a boolean or a number is truthy exactly when it is not `== 0` (`CleanValue` states that a falsy value cleans to "") |
| JsValue.ToText | worker/index.js:79 | `String(v)` throws exactly on an object with its own `toString` property, or an array holding one, with the TypeError "Cannot convert object to primitive value"; a string converts to itself |
| JsValue.ObjectIsNaN | worker/index.js:119 | `Number()` of any other object is NaN, since its `String()` is "[object Object]" |
| JsValue.StrToNumber | worker/index.js:119 | `Number(s)` is 0 for a blank string, and the value of the digits for a non-empty string of digits |
| JsValue.ToNumber | worker/index.js:119 | `Number(v)` throws exactly where `String(v)` does, with the same TypeError; a string converts through `StrToNumber` |
| JsValue.Lookup | worker/index.js:176 | reading a property of an object without that key gives `undefined` |
| JsValue.LookupFirst | worker/index.js:176 | reading a property gives the value of the first entry with that key |
| JsValue.StrToNumberOfNatToString | docs/app.js:180-184 | the option value `String(n)` reads back through `Number()` as n |
| Worker.CleanValue | worker/index.js:78-80 | `cleanText(value)` throws (500) exactly when `String()` does, with its TypeError; otherwise it is clean, it is "" for a falsy value, and on a string it is `cleanText` of that string |
| Worker.LooksLikeInjection | worker/index.js:82-103 | only a text whose cleaned form has two or more characters can be flagged, every pattern being at least that long; when a text is flagged is stated by `LooksLikeInjectionIff` |
| Worker.LooksLikeInjectionIff | worker/index.js:82-103 | a text is flagged exactly when its cleaned, lower-cased form includes one of the nine XSS or eleven SQL patterns |
| Worker.OccurrenceFlagged | worker/index.js:82-103 | any occurrence of a pattern, anywhere in the lower-cased clean text, flags it |
| Worker.UpperCaseScriptFlagged | worker/index.js:83-86 | matching ignores case: `<SCRIPT` is flagged |
| Worker.CommentMarkerFlagged | worker/index.js:88-102 | a bare `--` inside ordinary text is flagged |
| Worker.SafeTextNotInjection | worker/index.js:110-113 | on clean text, passing the bounds and the lower-cased pattern check is exactly "within the bounds and not `looksLikeInjection`" |
| Worker.MustBeString | worker/index.js:105-116 | the value returned is `cleanText(value)`, and a value `String()` cannot convert throws its TypeError. A blank value is accepted exactly when not required. A non-blank value is accepted exactly when its length in UTF-16 code units is within [min, max] and it is not flagged. Every rejection is thrown (500) |
| Worker.MustBeInt | worker/index.js:118-123 | accepted exactly when `Number(value)` does not throw and is an integer in [min, max], and that integer is returned; a value `Number()` cannot convert throws its TypeError; every rejection is thrown (500) |
| Worker.MustBeIntOfNumeral | worker/index.js:118-123 | a number sent as its decimal numeral is accepted exactly when in range, and comes back unchanged |
| Worker.Field | worker/index.js:176 | `body.name` and the like: the value of the object's first entry with that key, and `undefined` when there is none or the value is not an object |
| Worker.ReadJson | worker/index.js:63-76 | the body passes exactly when it parses to an array or an object (`null` and primitives fail), and it is passed on unchanged; failures are thrown (500) |
| Worker.ValidateTask | worker/index.js:192-221 | an accepted task has every field validated: title 3-80, description 10-800, both labels 2-60 (all clean and not flagged), importance and time in 1..5; failures are thrown (500). When it is accepted, and with what, is in the three lemmas below |
| Worker.ValidateTaskAccepts | worker/index.js:192-221 | a task is accepted exactly when it is not null or undefined and all six field checks pass; a null or undefined task throws the TypeError of reading `title` |
| Worker.ValidateTaskAllOk | worker/index.js:192-221 | when all six field checks pass, the task is made of the six values they return |
| Worker.ValidateTaskRejects | worker/index.js:192-221 | when one of the six field checks fails, the task is refused |
| Worker.ValidateTaskFields | worker/index.js:192-221 | an accepted task holds the cleaned texts of its four text fields, and integers equal (`===`) to `Number()` of its two number fields, neither of which threw |
| Worker.AllOk | worker/index.js:192 | the values of a list of results in order, or the error of the first failing one, all before it being Ok |
| Worker.MapAll | worker/index.js:192-221 | `map` with a throwing callback: every element validated in order, or the first error thrown |
| Worker.Take | worker/index.js:187 | `slice(0, 10)`: the first min(n, length) elements |
| Worker.ValidateTaskList | worker/index.js:183-221 | `tasks` that is not an array, or has fewer than three entries, is answered with 400. An accepted list has min(length, 10) tasks, at least three, and every one valid. Acceptance and the values are in the lemmas below |
| Worker.ValidateTaskListMaps | worker/index.js:183-192 | an array of at least three entries is answered by mapping the callback over its first ten |
| Worker.ValidateTaskListAccepts | worker/index.js:183-221 | a list is accepted exactly when it is an array of at least three entries and each of its first ten passes the callback |
| Worker.ValidateTaskListValues | worker/index.js:187-221 | the i-th accepted task is what the callback made of the i-th element |
| Worker.MapAllTake | worker/index.js:187-192 | mapping over the first n elements succeeds exactly when the callback succeeds on each of them, and yields what the callback yields |
| Worker.MapAllOkIff | worker/index.js:192 | a map with a throwing callback finishes exactly when the callback throws on no element |
| Worker.ValidatedTasksValid | worker/index.js:192-221 | every task coming out of the map passed all of its checks |
| Worker.ValidateTaskListTruncates | worker/index.js:187 | only the first ten tasks matter: anything after them can neither fail the request nor appear in it |
| Worker.ValidatePrioritize | worker/index.js:173-221 | an accepted /prioritize request has a safe name of 2-60 characters, the method `impact_effort`, 3 to 10 tasks, and every task valid. Acceptance and the values are in the two lemmas below |
| Worker.PrioritizeAllOk | worker/index.js:173-221 | a body that is an object or array, whose name passes, whose method passes and is `impact_effort`, and whose task list passes is accepted, as the cleaned name, that method and the validated tasks |
| Worker.PrioritizeAcceptedChecks | worker/index.js:173-221 | conversely, an accepted body passed each of those checks; with `PrioritizeAllOk`, accepted exactly when all of them pass |
| Worker.PrioritizeRejectsOtherMethods | worker/index.js:176-181 | a name and method that pass their checks, with a method other than `impact_effort`, give 400 whatever the tasks are |
| Worker.ValidateCalmai | worker/index.js:314-318 | /calmai is accepted exactly when the body, the name (2-60) and the text (10-500) all pass; the request is then the cleaned name and the cleaned text, both safe |
| Worker.UnprintableNameRefused | worker/index.js:176 | a name `String()` cannot convert makes /prioritize, /calmai and /briefai all answer 500 with the TypeError |
| Worker.ToStringObjectRefused | worker/index.js:105-123 | `{"toString": d}` is refused by both `mustBeString` and `mustBeInt` with the TypeError |
| Worker.ValidateBriefai | worker/index.js:352-356 | /briefai is accepted exactly when the body, the name (2-60) and the text (20-1500) all pass; the request is then the cleaned name and the cleaned text, both safe |
| Worker.Strip | worker/index.js:154 | the strip helper's output is `trim()` of the input with its NUL characters and every `?` removed, so it holds no `?`, no NUL and no whitespace at either end |
| Worker.StripContent | worker/index.js:154 | cleaning, removing `?`, dropping trailing whitespace and trimming is trimming the input with its NUL characters and `?` removed |
| Worker.OwnEntries | worker/index.js:160-163 | the entries the copy receives are exactly those of the input whose key is not `__proto__`, whose assignment sets the prototype instead of adding a key |
| Worker.OwnEntriesAppend | worker/index.js:160-163 | the copy keeps the order of the entries: filtering a concatenation concatenates the filtered parts |
| Worker.OwnEntriesAll | worker/index.js:160-163 | without a `__proto__` key every entry is copied |
| Worker.RemoveQuestionMarksDeep | worker/index.js:153-168 | the result is a copy of the tree in which every string s became the strip of s: arrays keep their length, objects keep their keys in order except `__proto__`, which is dropped, and other values are unchanged; every string in the result is scrubbed |
| Worker.StripScrubbed | worker/index.js:154 | a string that is already clean and free of `?` is left unchanged |
| Worker.RemoveQuestionMarksDeepScrubbed | worker/index.js:153-168 | a tree that is already scrubbed is left unchanged |
| Worker.RemoveQuestionMarksDeepIdempotent | worker/index.js:153-168 | applying the scrub twice is applying it once |
| Client.HasSchemeStartsWithH | docs/app.js:36 | an address that passes `/^https?:\/\//i` has at least seven characters and starts with h or H |
| Client.StripTrailingSlashes | docs/app.js:37 | `replace(/\/+$/, "")` removes exactly the run of trailing slashes: a prefix of the input, not ending in `/`, followed only by slashes |
| Client.NormalizeBaseUrl | docs/app.js:33-38 | the result is "" exactly when the address is blank, and otherwise never ends in `/` |
| Client.NormalizeKeepsScheme | docs/app.js:36-37 | an address that already has http:// or https://, in any case, only loses surrounding whitespace and trailing slashes |
| Client.NormalizeAddsScheme | docs/app.js:36-37 | any other non-blank address gets `https://` in front |
| Client.NormalizeOfNormal | docs/app.js:33-38 | an already normal address is a fixed point |
| Client.BaseIsWorkerUrl | docs/app.js:40 | BASE equals the configured Worker address and is not empty |
| Client.LooksLikeInjection | docs/app.js:44-79 | only a text of two or more characters can be flagged, every pattern being at least that long; when a text is flagged is stated by `LooksLikeInjectionAgrees` |
| Client.LooksLikeInjectionAgrees | docs/app.js:44-79 | the client flags exactly what the Worker's pattern check flags on the same lower-cased text: the extra `;--` cannot match unless `--` does |
| Client.ClientSafeIsWorkerSafe | docs/app.js:85-98 | on clean text the client's bounds-and-pattern test and the Worker's are the same |
| Client.RequireSafeText | docs/app.js:85-98 | accepted exactly when the cleaned value is empty and not required, or its length in UTF-16 code units is within [min, max] and it is not flagged; the accepted value is the cleaned one |
| Client.RequireSafeTextOfCleaned | docs/app.js:332-340 | giving `requireSafeText` text that was already cleaned changes nothing |
| Client.RequireSafeTextAgrees | docs/app.js:85-98 | the client's `requireSafeText` accepts exactly what the Worker's `mustBeString` with the same bounds accepts, and both keep the same text |
| Client.GetLabelByValue | docs/app.js:314-318 | the label is "" or the caption of an entry whose value is `===` n; which entry is stated by `GetLabelByValueFirstMatch` |
| Client.GetLabelByValueFirstMatch | docs/app.js:314-318 | the label found is that of the first entry whose value is `===` n, and "" when there is none |
| Client.ScalesLabelled | docs/app.js:14-28 | each value 1..5 of both scales has its own non-empty label |
| Client.ProcessSlot | docs/app.js:326-352 | a slot is skipped exactly when it is missing or blank. A kept task has the cleaned title and description, and both pass the checks. When a slot is kept, the message when it throws, and the numbers and labels are in `ProcessSlotOutcome` |
| Client.ProcessSlotOutcome | docs/app.js:326-352 | a slot is kept exactly when it is present, not blank, and both `requireSafeText` calls pass; otherwise it throws the message of the first that fails. A kept task holds `Number()` of both selects and the labels `getLabelByValue` gives them |
| Client.KeptSlotScales | docs/app.js:180-184 | a kept slot whose selects hold the option values of scale values a and b carries the numbers a and b and their labels |
| Client.Outcomes | docs/app.js:324 | slots 1..n give one outcome each |
| Client.OutcomesAt | docs/app.js:324-353 | outcome k is that of slot k + 1, whatever follows |
| Client.OutcomesPrefix | docs/app.js:324-353 | the outcomes of the first m slots do not depend on later slots |
| Client.OutcomesAgree | docs/app.js:324-353 | forms whose slots give the same outcomes give the same outcome list |
| Client.Filled | docs/app.js:324-353 | the positions of the non-skipped slots, increasing, and all of them |
| Client.CollectTasks | docs/app.js:324-353 | the tasks pushed are, in order, exactly those of the non-skipped slots |
| Client.CollectTasksErrorSticks | docs/app.js:339-340 | once a slot throws, later slots change nothing |
| Client.CollectTasksSucceeds | docs/app.js:324-353 | the loop finishes exactly when no slot throws |
| Client.CollectTasksFirstError | docs/app.js:339-340 | an error is the message of the first slot that throws |
| Client.CollectTasksStep | docs/app.js:324-353 | one more slot: the tasks so far, one more task, or that slot's error |
| Client.CollectTasksStops | docs/app.js:339-340 | after the first error the remaining slots are irrelevant |
| Client.KeptTaskPassesWorker | docs/app.js:339-340 | a kept task's title and description pass the Worker's checks |
| Client.CollectedTasksPassWorker | docs/app.js:324-353 | every collected task passes the Worker's text checks |
| Client.CollectPayload | docs/app.js:320-363 | an accepted payload has the cleaned, safe name, the method `impact_effort`, 3 to taskCount tasks and a non-empty BASE, and its tasks are what the loop collects |
| Client.CollectPayloadAfterLoop | docs/app.js:355-362 | after the loop: too few tasks, then an empty BASE, are refused in that order; otherwise the payload is returned |
| Client.KeptTasksSafe | docs/app.js:339-340 | every kept outcome's task text is clean and safe |
| Client.PayloadPassesWorkerText | docs/app.js:320-363 | the name and every title and description of an accepted payload pass the Worker's checks |
| Client.BlankSlotIgnored | docs/app.js:336-337 | a blank slot gives the same outcomes as a missing one, whatever its selects hold |
| Client.CollectPayloadErrors | docs/app.js:321-360 | a bad name is reported first; with a good name, an error of the loop is reported as such; then fewer than three tasks; and an empty BASE always refuses |
| Client.CollectSlots | docs/app.js:323-353 | the loop returns exactly the tasks `CollectTasks` specifies, or the first error |
| Client.TaskForm.constructor | docs/app.js:178 | the page starts with taskCount 0 and no slots |
| Client.TaskForm.EnsureInitialTasks | docs/app.js:294-304 | taskCount becomes 3 with slots 1, 2, 3 |
| Client.TaskForm.AddTask | docs/app.js:306-312 | at ten tasks nothing changes; below ten, one more slot numbered taskCount is appended; slots stay 1..taskCount and at most ten |
| Client.TaskForm.CollectPriorizaiPayload | docs/app.js:320-363 | the method's result is `CollectPayload` of the name, the form, taskCount and BASE |
| Prototype.PyStrip | app.py:89 | `strip()` is empty exactly when the string is all whitespace, and otherwise has none at either end |
| Prototype.FilledTasks | app.py:89 | the comprehension keeps no more tasks than it is given |
| Prototype.FilledTasksSpec | app.py:89 | the comprehension raises exactly when a title is missing or not a string, and keeps exactly the tasks whose title is not blank |
| Prototype.FilledTasksAppend | app.py:89 | the comprehension over a concatenation is the concatenation of the comprehensions |
| Prototype.MissingKey | app.py:98-105 | the first required key that is absent or None is reported with a non-empty reason; none is reported exactly when all are present and not None |
| Prototype.TaskCheckPasses | app.py:94-105 | a filled task lets the loop go on exactly when its description is not blank and every required key is set; otherwise it raises or gives a non-empty reason |
| Prototype.CheckFromFirstFailure | app.py:94-106 | the loop returns (True, "") exactly when every filled task is complete; otherwise it reports the first filled task that is not, numbered by its position among the filled tasks |
| Prototype.Validate | app.py:87-106 | validate says ok only when the comprehension did not raise and at least three titles are filled; when exactly is stated by `ValidateOkIff` |
| Prototype.ValidateOkIff | app.py:87-106 | validate returns (True, "") exactly when no title raises, at least three titles are filled and every filled task is complete |
| Prototype.ValidateReasonEmptyIffOk | app.py:87-106 | when validate returns, its reason is empty exactly when it says ok |
| Prototype.ValidateTooFew | app.py:89-91 | fewer than three filled titles gives (False, "Você precisa preencher pelo menos 3 tarefas."), whatever the filled tasks hold |
| Prototype.BlankTitleIgnored | app.py:89-105 | a task with a blank title is ignored wherever it sits: its other fields are never read and the numbers in messages do not move |
| Prototype.FormTaskFromForm | app.py:228-239 | every dictionary the form appends has string title and description and all eight required keys set |
| Prototype.FormTaskComplete | app.py:228-239 | a form-built task is complete exactly when its description is filled |
| Prototype.FormTaskCheckReturns | app.py:98-105 | checking a form-built task never raises |
| Prototype.ValidateFormTasks | app.py:87-106 | on the tasks the form builds validate never raises, and accepts exactly when at least three titles are filled and each of them has a description |
| Prototype.TaskList | app.py:82 | the task list has one element per task |
| Prototype.BuildPayload | app.py:78-85 | the payload has exactly the keys user_name, method, tasks, scales and note, with the two fixed notes |
| Prototype.TasksOfTaskList | app.py:82 | the task dictionaries read back from the payload list are the tasks |
| Prototype.ReadBuildPayload | app.py:78-85 | name, method and tasks come back out of the payload unchanged |

## Left out

- Rate limiting: the Worker has none. Each handler reads the body and validates it straight away, so there is nothing to model.
- Network and foreign calls are not modelled: `openaiChat`, every `fetch`, `callWorkerPrioritize` / `callWorkerCalmai`, and the OpenAI client of the prototype. Neither are the prompts, response schemas, answer parsing, routing and CORS headers. These are I/O; the model stops at the validated request each handler would send.
- `request.json()` is a parameter: `None` when parsing fails, otherwise the parsed value.
- The DOM is not modelled: element creation, the counter text, tabs, method cards and rendering. The form is a sequence of slot values, and a missing element becomes a `None` slot.
- The Streamlit UI and session state are not modelled. The prototype's task list is built from the values the form widgets return.
- Worker.MustBeInt: floating point is not modelled. Numbers are exact decimals, so `Number()` and `JSON.parse` are not rounded to binary64. A value that binary64 rounds to an integer is accepted by the Worker and refused by the model: the JSON number `1.0000000000000000001`, for instance, parses to 1. `String()` of a number that would print in exponent notation (magnitude at least 1e21 or below 1e-6) is written out in full.
- Worker.MustBeString: a Dafny string is a sequence of Unicode scalar values, so a lone surrogate, which a JavaScript string can hold (`JSON.parse` produces one from `"\ud800"`), cannot be represented. Every other string has its length counted in UTF-16 code units.
- Client.RequireSafeText: the same limit on lone surrogates applies.
- Text.Lower: `toLowerCase` is modelled on ASCII letters only. The only non-ASCII characters whose lower case contains an ASCII letter are U+0130 (which gives "i" plus a combining dot) and U+212A (which gives "k"). Neither can complete one of the patterns, because no pattern contains "k" and every "i" in a pattern is followed by another ASCII letter.
- Object keys are a sequence of (key, value) pairs in enumeration order, the order of `Object.keys`. The model does not enforce key uniqueness or `JSON.parse`'s "last duplicate key wins" rule; `Lookup` returns the first match.
- Worker.Field: reading a property of an array or a primitive gives `undefined`. None of the keys the handlers read (`name`, `method`, `tasks`, `text`, task fields) is a property of those values.
- Prototype: the dictionary values are limited to str, int, None, list and dict. The prototype's `Method` literal type is a datatype, so a value outside the four names cannot be passed.
- Prototype.Validate: a list element that is not a dictionary is not modelled.
- Worker.RemoveQuestionMarksDeep: the copy of an object with a `__proto__` key has its prototype replaced by that entry's scrubbed value. The model drops the entry and does not model prototypes; the copy's own keys, which `JSON.stringify` and `Object.keys` see, are what it states.

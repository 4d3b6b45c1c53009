# Training-plan pipeline of the badminton recommendation service

This project models the deterministic data path of the service's
training-plan endpoint in Dafny, together with the reply cleaning of its
chat endpoint, and proves properties of that model. The service asks a
generative model for weekly badminton training plans and stores them as
nested documents. The modelled parts are:

- **Goal normaliser** (`Goal`). A user's stored `goal` may be absent, a
  string, a list of strings or something else. It becomes one non-empty
  display string. A string loses brackets, quotes and spaces at both ends.
  A list becomes the `", "`-join of its non-empty items, each with
  surrounding whitespace removed. Anything else, and any goal that cleans
  to the empty string, becomes the fixed Vietnamese default
  "Cải thiện kỹ năng cầu lông".
- **Catalog builder** (`Catalog`). The stored training records become the
  list shown to the generative model and the title-to-id map. Records
  whose title is missing, `null` or empty are skipped. When two records
  share a title, the later one's id wins.
- **Plan materialiser** (`Plan`). This is `save_plan_to_db` up to the
  insert. One parsed plan becomes a weekly, active plan document.
  - Every parsed day becomes one stored day and every parsed workout one
    stored workout, in order.
  - Field defaults are applied exactly as `dict.get` applies them: the
    default is used only for a missing key, and a key holding `null` is
    copied as `null`.
  - Each workout's exercise name is resolved through the title map to an
    id, or to `null`.
  - Every day and every workout receives a fresh id.
- **Parse-and-persist step** (`Endpoint`). The model output is parsed.
  - Text that is not JSON yields a 400 reply carrying the raw text.
  - JSON that is not an object is a server error, because `.get` fails
    on it.
  - For an object, every plan under `plans` (none when the key is
    absent) is saved in order, one insert and one returned id per plan.
  - A plan whose `days`, or one of whose days' `workouts`, is `null`
    raises inside the list comprehension. The reply is then a server
    error, and the plans saved before it stay in the collection.
- **Chat reply cleaning** (`Chat`). `**`, then `*`, then triple
  backticks are removed from the model's answer.

The Python string operations these rely on are modelled in `Text`:
`str.strip(chars)`, `str.strip()`, `sep.join` and
`str.replace(pattern, "")`. `Base` holds the shared vocabulary:
- `Field` is a JSON key that is missing, `null` or holds a value.
- `Option` is a value that may be `null`.
- `Outcome` is a result or a raised exception.
- The helpers for runs of consecutive ids also live there.

Document ids are `Oid(n)`: the n-th id the generator hands out. The
collection is an append-only sequence of stored plans plus the generator's
position. Freshness is the invariant that no id occurs twice in the
collection and that the generator is past all of them. `json.loads` is a
parameter of the handler.

Some behaviour of the code is worth stating plainly, because it is easy
to assume otherwise:
- The catalog is read whole. The code has no goal filter and no
  fallback for a catalog smaller than ten records.
- A `null` field is stored as `null` and is not replaced by the default.
- A `null` list of days, workouts or plans is a server error. The plans
  inserted before it are kept.
- The success message always says three plans were saved, whatever the
  number of plans.

## Model

| member | source | states |
|---|---|---|
| Goal.Truthy | app.py:69 | the kept list items are all non-empty, never more than the items, and none is kept exactly when every item is empty |
| Goal.TruthySnoc | app.py:69 | the kept items of a list with one more item at the end are the earlier kept items followed by that item when it is non-empty: the filter keeps exactly the non-empty items, in list order |
| Goal.StripEach | app.py:69 | each item, in order, with surrounding whitespace removed |
| Goal.Clean | app.py:66-73 | an absent goal or a goal of another type cleans to the default; a cleaned string goal is empty or has no strip character at either end (that it is the stripped input is stated by Goal.StringGoalEnds); a list goal cleans to the empty string exactly when it has no non-empty item, or a single one that is all whitespace |
| Goal.Normalise | app.py:66-75 | the goal is never empty; an absent goal or a goal of another type gives the default; a string or list goal that cleans to a non-empty string gives that string; otherwise the default |
| Goal.DefaultIff | app.py:66-75 | the default comes out exactly when the goal is absent, of another type, cleans to the empty string, or cleans to the default text itself |
| Goal.DefaultIsClean | app.py:66-71 | the default text neither starts nor ends with a strip character, so an absent goal passes the string branch unchanged |
| Goal.StringGoalEnds | app.py:70-75 | a string goal is `s.strip("[]'\" ")` whenever that is non-empty and the default otherwise; either way it neither starts nor ends with `[`, `]`, a quote or a space, and stripping it again changes nothing |
| Goal.ListGoal | app.py:68-69 | a list goal is the ", "-join of its non-empty items, each stripped of whitespace; it is empty exactly when there is no such item, or a single one that is all whitespace |
| Goal.ListGoalAppend | app.py:69 | when the list already has a non-empty item, appending a non-empty item extends the goal by ", " and that item, stripped, in list order |
| Goal.ListGoalSkipsEmpty | app.py:69 | an empty list item is skipped |
| Goal.TwoItems | app.py:68-75 | a list of two non-empty items that need no stripping normalises to "first, second" |
| Goal.TwoItemList | app.py:68-75 | the goals "improve endurance" and "improve smashes" stored as a list become "improve endurance, improve smashes" |
| Base.GetOr | app.py:29-32 | `dict.get` with a default: the default only for a missing key, `None` exactly for a key holding `null`, the value otherwise |
| Base.Get | app.py:166-167 | `dict.get` without a default: a value exactly when the key holds one, `None` for a missing key and for `null` alike |
| Text.Strip | app.py:71 | the stripped string is a contiguous slice of the input; only characters of the set are removed, from each end; its ends lie outside the set; it is empty exactly when every character is in the set |
| Text.StripUnchanged | app.py:71 | a string whose ends are outside the set strips to itself |
| Text.StripIdempotent | app.py:71 | stripping twice is stripping once |
| Text.Join | app.py:69 | joining no pieces gives the empty string; the length is the pieces' total length plus one separator between neighbours; the first piece comes first |
| Text.JoinSnoc | app.py:69 | appending a piece appends the separator and that piece to the earlier join |
| Text.JoinEmptyIff | app.py:69 | with a non-empty separator the join is empty exactly when there is no piece or one empty piece |
| Text.RemoveAll | app.py:348 | removing a pattern never lengthens the text and never adds a character |
| Text.RemoveAbsent | app.py:348 | removing a pattern that does not occur changes nothing |
| Text.RemoveCharAll | app.py:348 | removing a one-character pattern leaves no occurrence of that character |
| Text.RemoveKeepsOthers | app.py:348 | removing a pattern made of characters in a set keeps, in order, every character outside the set |
| Text.RemoveCharIsWithout | app.py:348 | removing a one-character pattern is filtering that character out |
| Text.RemoveTripleLeavesNone | app.py:348 | after the triple-backtick removal no three backticks in a row remain |
| Catalog.Entry | app.py:164-169 | a listed record's entry has its title, its goal and level copied (`null` when missing), and its description defaulting to "" only when missing |
| Catalog.Project | app.py:159-169 | the projected list is no longer than the catalog and holds only entries of records with a truthy title |
| Catalog.ProjectContains | app.py:159-169 | every record with a truthy title has its entry in the projected list |
| Catalog.BuildCatalog | app.py:155-171 | the loop yields the projected list; every listed title is a key of the map; every key maps to the id of a record with that title; the last record with a title supplies its id; the map's keys are exactly the titles in the list |
| Catalog.KeysAreListedTitles | app.py:164-171 | the map's keys are exactly the titles in the projected list |
| Plan.ListOr | app.py:38 | a list-valued key reads as the empty list when missing, as its value when present, and fails only when it holds `null` |
| Plan.Resolve | app.py:46-50 | an exercise reference is present exactly when the name is present, is a key of the map and maps to a non-empty id, and is then that id |
| Plan.MaterialiseWorkout | app.py:49-55 | a stored workout carries the resolved exercise, its time and note defaulting to "" and its order defaulting to 0, and the next fresh id |
| Plan.MaterialiseWorkouts | app.py:45-55 | one stored workout per parsed workout, in order, with consecutive fresh ids |
| Plan.MaterialiseDay | app.py:39-57 | a day raises exactly when its `workouts` is `null`; otherwise it carries a fresh id, its ordinal defaulting to 1 and its matching workouts, with consecutive ids |
| Plan.MaterialiseDays | app.py:38-57 | the day loop raises exactly when some day's `workouts` is `null`; otherwise one matching stored day per parsed day, in order, with consecutive ids |
| Plan.Materialise | app.py:27-57 | a plan raises exactly when its `days`, or a day's `workouts`, is `null`; otherwise it becomes a weekly, active document with the name defaulting to "Lộ trình tập luyện", description, goal and level defaulting to "", one matching day per parsed day, and a run of consecutive fresh ids |
| Plan.ExerciseResolution | app.py:46-50 | every workout is kept; its exercise reference is `null` exactly when the name is missing or does not resolve, and is the mapped id otherwise |
| Plan.MaterialisedIdsDistinct | app.py:38-57 | the ids inside one materialised plan are pairwise distinct |
| Plan.UnknownDrill | app.py:45-55 | a workout naming an exercise the catalog lacks is stored with a `null` exercise and its time and order copied, its note defaulting to "" |
| Endpoint.Status | app.py:175-190 | a success is 200 and a parse failure is 400, and no other reply has either code |
| Endpoint.Insert | app.py:59-60 | an insert appends the document under the next generated id and advances the generator; it never fails (see "## Left out") |
| Endpoint.SavePlan | app.py:27-60 | with the insert taken never to fail, saving raises exactly when the plan does not materialise; otherwise the collection grows by one matching document under the returned id, and freshness is kept |
| Endpoint.InsertKeepsFresh | app.py:59 | appending a document whose ids follow the generator keeps the collection's ids fresh |
| Endpoint.SaveAll | app.py:185 | with the insert taken never to fail, the comprehension completes exactly when every plan materialises, giving one id per plan; otherwise it stops at the first plan that does not; the plans saved so far are stored in order under their ids |
| Endpoint.SaveAllKeepsFresh | app.py:185 | however far the comprehension gets, the collection's ids stay fresh |
| Endpoint.Handle | app.py:175-190 | a 400 comes exactly when the text is not JSON, carrying the raw text and the fixed message, with nothing inserted; with the insert taken never to fail, a success comes exactly when the output is an object whose `plans` is absent or a list of plans that all materialise, and carries those plans, one id per plan, stored in order; for an object with a list of plans the collection afterwards is the one the comprehension left, also after a failure; otherwise nothing is inserted; the collection is only appended to and stays fresh |
| Endpoint.NoPlansKey | app.py:183-185 | output without a `plans` key succeeds with no ids and inserts nothing |
| Endpoint.ReturnedIdsFresh | app.py:185-189 | the returned ids are pairwise distinct and none occurs anywhere in the collection as it was before the request, neither as a plan's `_id` nor as a day's or workout's `_id` |
| Endpoint.SavedIdsNew | app.py:40-59 | documents saved into a collection with distinct ids carry pairwise distinct ids that are new to the collection before them |
| Endpoint.LaterIdNew | app.py:59 | with distinct ids, a document's `_id` is not among the ids of the documents inserted before it |
| Endpoint.StoredIdsDistinct | app.py:38-59 | fresh collections have pairwise distinct document ids |
| Chat.CleanReply | app.py:348 | the cleaned reply has no `*` and no triple backtick; it keeps every other character in order and adds none |
| Chat.CleanReplyDropsStars | app.py:348 | removing `**` before `*` makes no difference: the result is the reply without its stars, then without its code fences |
| Chat.CleanReplyIdempotent | app.py:348 | cleaning a cleaned reply changes nothing |
| Chat.PlainReplyUnchanged | app.py:348 | a reply without `*` or backticks comes back unchanged |

## Left out

- Flask routing, CORS, the HTTP plumbing and `app.run`: framework I/O. Only the status codes of the modelled step are kept.
- The user lookup and its 404 reply, and every MongoDB read and write. The trainings collection is a sequence of records. The plans collection is an append-only sequence with an id generator.
- Endpoint.Insert: the insert is modelled as never failing. `insert_one` raises when the document cannot be encoded: for example a day's `day` or a workout's `order` outside the signed 64-bit range -2^63..2^63-1 (the model's integers are unbounded), or a document over the 16 MB size limit. The comprehension then stops, the request ends in a 500, and the plans saved before stay stored. Because of this, the "exactly when every plan materialises" statements of `Endpoint.SavePlan`, `Endpoint.SaveAll` and `Endpoint.Handle` hold only for documents the store accepts.
- The Gemini configuration and calls, and the prompt text: network I/O and natural-language templates.
- `json.dumps`; `json.loads` is a parameter of the handler, whose result is failure, an object (of which only `plans` is read) or another JSON value.
- `ObjectId(training_id)` on a string that is not an ObjectId: the model assumes every training record's `_id` is an ObjectId, so that the string the catalog loop stores converts back. A record with a string or integer `_id` would make the conversion raise and the request end in a 500; that case is not modelled. The stored reference is kept as the id string.
- `str()` of the inserted id: the model returns the `Oid` itself.
- The reply's `message` text: it is a fixed string that does not depend on the input.
- `get_training_list`, `get_meal_list` and the rest of the chat endpoint: database reads and a network call around the modelled reply cleaning.
- The goal filter on the catalog and the fallback to the whole catalog below ten records: the code reads the whole catalog and has neither.
- Goal.Normalise: list items are modelled as strings only; `str(item)` of a number, list or object item is not modelled, because it is Python's general value-to-text conversion.
- Catalog.BuildCatalog: titles are modelled as strings; a truthy title of another JSON type is not modelled. A record's `goal`, `level` and `description` are likewise modelled as strings (or missing, or `null`), while the code copies any JSON value, for example a list-valued goal.
- Plan.Materialise: JSON type mismatches are not modelled beyond a `null` value of `days` or `workouts`. A `days` that is a string, a workout that is not an object, and a `null` element of the `days` or `workouts` list are outside the input types. Such a `null` element makes `.get` raise, so the code answers 500 and keeps the plans saved before.
- Endpoint.Handle: a `plans` value that is neither a list nor `null` is not modelled (a JSON type mismatch, as for `Plan.Materialise`). Nor is a `null` element of the `plans` list, which makes `.get` raise: the code then answers 500 and keeps the plans saved before it.

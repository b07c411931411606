# React ToDo App: a Dafny model of its state and validation

The repository is one React component, `App` (`src/App.js`). It is a task list backed by a
remote `/todos` resource. This project models the part of that component that is logic rather
than HTTP and markup:

- **The component state.** That is the draft `title` and `time` strings, the local `todos` list
  and the `loading` flag. The model is the class `TodoApp.App`, with one method per handler:
  `handleSubmit`, `handleDelete`, `handleEdit`, the two `onChange` handlers, and the two halves
  of `loadData` on either side of its `await`. `Render` states what the component shows.
- **The three list updaters given to `setTodos`.** These are the spread-append on create
  (`Tasks.Append`), the `filter` by id on delete (`Tasks.WithoutId`) and the `map` by id on edit
  (`Tasks.ReplaceById`). Each is a pure function over the list in module `Tasks`, with lemmas
  about order, idempotence and how they combine; the handlers of `TodoApp.App` apply them.
- **The task record.** `Tasks.Task` is a class, not a value. `handleEdit` flips `done` on the
  object that the state list also holds, so the model has to keep that aliasing. `id`, `title`
  and `time` are never reassigned, so they are `const`; `done` is the one mutable field.
- **The two input validators.** These are the `pattern` attributes of the title and time inputs
  and the `required` attribute of the time input. Module `Patterns` gives their regular
  expressions a full-match meaning. Module `FormValidation` applies them as the WHATWG HTML
  Living Standard's constraint validation does (section 4.10.5.3.6, `pattern`: checked only on a
  non-empty value; section 4.10.5.3.4, `required`). Lemmas then state in plain terms what each
  field accepts. The time field is also tied to an independent reference: the decimal numerals
  of the natural numbers.

The server is not modelled. Whatever it would have supplied is a parameter instead: the loaded
list (or a failed fetch), the record an edit's response stands for, and the new task's
identifier (the source draws it from `Math.random()`).

Where the code's own comments say less than the code does, the model follows the code:

- The comment beside the title pattern (src/App.js:107) speaks of letters, digits and spaces
  only. The pattern also allows underscores and demands at least one letter or digit in a
  non-empty title. The title input is not `required`, so the browser accepts an empty title
  (`TitleExamples`).
- The comment beside the time pattern (src/App.js:118) speaks of digits only. The pattern
  `^(0|[1-9][0-9]*)$` also refuses leading zeros, so `"007"` is refused.
- On a failed initial fetch, the `.catch` handler's `undefined` (src/App.js:27) is stored as the
  list (src/App.js:31), and the next render then fails on `todos.length` (src/App.js:131). The
  model has an explicit `Crashed` screen for this, not an empty list.

## Model

| member | source | states |
|---|---|---|
| `Patterns.StarOfCharsMatches` | src/App.js:107 | a starred character class such as `[A-Za-z0-9 _]*` matches exactly the strings all of whose characters lie in the class |
| `FormValidation.TitlePatternSound` | src/App.js:107 | every string the title pattern matches uses only letters, digits, space and underscore, and holds at least one letter or digit |
| `FormValidation.TitlePatternComplete` | src/App.js:107 | the title pattern matches every string of letters, digits, spaces and underscores that holds a letter or digit at some position |
| `FormValidation.TitlePatternMeaning` | src/App.js:107 | the title pattern matches a string if and only if all its characters are in `[A-Za-z0-9 _]` and at least one is in `[A-Za-z0-9]` |
| `FormValidation.TitleFieldAccepts` | src/App.js:101-108 | the title input (pattern, not required) accepts a value if and only if it is empty or meets the pattern's character condition |
| `FormValidation.TitleExamples` | src/App.js:107 | `"Buy milk"` and `""` are accepted; `"Buy@milk"`, `"   "` and `"__"` are refused |
| `FormValidation.TimePatternMeaning` | src/App.js:118 | the time pattern matches a string if and only if it is `"0"` or a digit string whose first digit is 1-9 |
| `FormValidation.DecimalIsCanonical` | src/App.js:118 | the decimal numeral of every natural number is canonical: `"0"`, or digits with a first digit of 1-9 |
| `FormValidation.DigitsRoundTrip` | src/App.js:118 | a non-empty digit string with a first digit of 1-9 has a positive value, and that value's decimal numeral is the string again |
| `FormValidation.TimePatternIsDecimal` | src/App.js:118 | the time pattern matches exactly the decimal numerals of the natural numbers |
| `FormValidation.TimeFieldAccepts` | src/App.js:112-120 | the time input (pattern, required) accepts a value if and only if it is the decimal numeral of some natural number, so the empty value is refused |
| `FormValidation.TimeExamples` | src/App.js:118-119 | `"0"` and `"12"` are accepted; `"007"`, `"1.5"` and `""` are refused |
| `FormValidation.TitlePattern` | src/App.js:107 | the regular expression of the title input: any run of `[A-Za-z0-9 _]`, one `[A-Za-z0-9]`, any run of `[A-Za-z0-9 _]` |
| `FormValidation.TimePattern` | src/App.js:118 | the regular expression of the time input: `0`, or one `[1-9]` followed by any run of `[0-9]` |
| `FormValidation.TitleFieldValid` | src/App.js:101-108 | the title input passes constraint validation: it carries the title pattern and is not required |
| `FormValidation.TimeFieldValid` | src/App.js:112-120 | the time input passes constraint validation: it carries the time pattern and is required |
| `FormValidation.FormValid` | src/App.js:98-126 | the browser submits the form only when both inputs pass constraint validation |
| `Tasks.Task.constructor` | src/App.js:40-45 | a task record holds exactly the id, title, time and done flag it is built from |
| `Tasks.Append` | src/App.js:56 | the create updater makes the list exactly one longer, keeps the old entries unchanged and in order, and puts the new record last |
| `Tasks.WithoutId` | src/App.js:67 | the delete updater never grows the list; what it keeps are entries of the old list whose id differs from the given one, and it keeps every such entry |
| `Tasks.WithoutIdKeepsOrder` | src/App.js:67 | the delete updater's result is a subsequence of the old list, so the kept entries stay in their original relative order |
| `Tasks.WithoutIdConcat` | src/App.js:67 | deleting from a concatenation is deleting from each part and concatenating the results |
| `Tasks.WithoutIdUnchanged` | src/App.js:67 | the delete updater leaves the list as it was if and only if no entry carries the given id |
| `Tasks.DeleteIdempotent` | src/App.js:67 | deleting the same id twice gives the same list as deleting it once |
| `Tasks.DeleteUndoesCreate` | src/App.js:56-67 | appending (with the create updater) a record whose id no older entry carries, then deleting that id, gives back the list from before the append |
| `Tasks.ReplaceById` | src/App.js:81-83 | the edit updater keeps the length and every entry's id; each entry whose id equals the response's id becomes the response, and every other entry is untouched |
| `Tasks.ReplaceAbsentIsIdentity` | src/App.js:73-83 | an edit response whose id no entry carries replaces nothing |
| `Tasks.ReplaceIdempotent` | src/App.js:81-83 | applying the same edit response twice gives the same list as applying it once |
| `Tasks.DeleteAfterEdit` | src/App.js:62-83 | deleting the id of an edit response after that edit gives the same list as deleting it without the edit |
| `TodoApp.RowsOf` | src/App.js:132-135 | the list view shows one row per task, in list order, with that task's title, duration and done flag |
| `TodoApp.App.constructor` | src/App.js:13-16 | the component starts with empty drafts, an empty list and `loading` false |
| `TodoApp.App.ChangeTitle` | src/App.js:105 | the draft title becomes the input's value and nothing else changes |
| `TodoApp.App.ChangeTime` | src/App.js:116 | the draft time becomes the input's value and nothing else changes |
| `TodoApp.App.BeginLoad` | src/App.js:22 | `loading` is true while the initial fetch is outstanding |
| `TodoApp.App.FinishLoad` | src/App.js:27-31 | once the fetch settles, `loading` is false; a fetched list becomes the collection, and a failed fetch stores `undefined` |
| `TodoApp.App.LoadData` | src/App.js:20-32 | while the fetch is outstanding, the component shows the placeholder; afterwards `loading` is false and the collection is what was fetched |
| `TodoApp.App.HandleSubmit` | src/App.js:37-60 | the list grows by one fresh record, appended last, with the given id, the draft title and time, and `done` false; the old entries are kept in order; both drafts become empty |
| `TodoApp.App.SubmitForm` | src/App.js:98-126 | the submit goes through if and only if both inputs pass validation; then it is `handleSubmit`'s step; otherwise nothing changes |
| `TodoApp.App.HandleDelete` | src/App.js:62-68 | the collection becomes the delete updater's result, so no entry with that id remains and the list does not grow |
| `TodoApp.App.HandleEdit` | src/App.js:70-84 | the clicked record's `done` is flipped in place; the list becomes the edit updater's result; if the response's id matches no entry, the only visible change is the flipped `done`, at every position that holds the clicked record |
| `TodoApp.App.Render` | src/App.js:86-135 | the placeholder alone exactly while loading; otherwise a failed load crashes the render; otherwise the page shows one row per task, and shows the "no tasks" message exactly when the list is empty |
| `TodoApp.ToggleTwice` | src/App.js:70-84 | clicking the toggle at one list position twice, with responses whose ids match no listed task (the unparsed responses of src/App.js:73), leaves the rendered page exactly as it was |
| `TodoApp.EndToEnd` | src/App.js:22-83 | loading an empty list shows the "no tasks" message; creating "Test" taking "1" hour shows one row, not done; toggling it (with the server echoing the record) shows it done; deleting it empties the list again |

## Left out

- Network I/O: every `fetch`, its method, headers and JSON bodies (src/App.js:24-27, 48-54, 63-65, 73-79). The loaded list, the edit response and the load failure are parameters instead.
- The edit response's type: the source passes the unparsed `Response` object, whose `id` is `undefined` and so equals no task's id. The model takes a task record as the response. The source's case is the one where no entry carries the response's id (`ReplaceAbsentIsIdentity`, and the last `ensures` of `HandleEdit`).
- `Math.random()` (src/App.js:41): the new task's id is a parameter. Nothing prevents two tasks from sharing an id.
- Identifiers are modelled as real numbers compared by equality. The JavaScript number quirks of `===` (NaN, signed zero) never arise for these ids and are not modelled.
- React machinery: hook scheduling and `useEffect` (src/App.js:18-35), the first render before the effect runs, `e.preventDefault()`, JSX markup, CSS classes, icons and the `key` prop (src/App.js:90-147). `Render` keeps only the content that the component's state decides.
- `console.log` of a failed fetch (src/App.js:27): a diagnostic only, with no effect on state.
- Interleaving of overlapping asynchronous handlers: each handler is modelled as one step. The part of a handler before its `await` (building the record from the drafts, src/App.js:40-45; flipping `done`, src/App.js:71) and the part after it run with no other handler in between.
- Failed requests in `HandleSubmit`, `HandleDelete` and `HandleEdit`: a rejected `fetch` (src/App.js:48, 63, 73) throws out of the handler before its `setTodos`. `handleSubmit` then neither appends the record nor clears the drafts; `handleDelete` removes nothing; `handleEdit` keeps the in-place flip of `done` but never calls `setTodos`, so nothing re-renders. The model has no failure outcome for these handlers. The first two states are the state with no call at all; the third matches `HandleEdit` with a response whose id no entry carries, except that the model shows the flip at once rather than at the next re-render.
- Handlers after a failed load: `HandleSubmit`, `SubmitForm`, `HandleDelete` and `HandleEdit` require that the list is defined. A failed load crashes the render, so no control that calls them is on screen.
- Strings are sequences of characters. JavaScript's UTF-16 code units and the regular-expression flags a browser compiles a `pattern` with are not modelled; the two patterns use only ASCII ranges.

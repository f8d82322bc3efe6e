# Contact form and list filters of a React portfolio, modelled in Dafny

This project models the only components of the portfolio site that hold
logic, and proves what they promise.

- **The contact form** (`src/components/Contact.tsx`), in `contact.dfy`:
  - the field validator `validateField`, with its six closed error texts;
  - the whole-form check `validateForm`, as a loop over the form's keys;
  - the component state (`formData`, `errors`, `touched`, `status`), as the
    class `ContactForm`. Its methods are the change, blur and submit
    handlers, the settling of the e-mail send, the reset effect and the
    3-second timer.

  The validator relies on three helpers:
  - JavaScript's `trim` and `.length` (`js_text.dfy`), where `.length`
    counts UTF-16 code units;
  - the address pattern `^[A-Z0-9._%+-]+@[A-Z0-9.-]+\.[A-Z]{2,}$` with the
    `i` flag (`email_pattern.dfy`). It is given twice, as the language of the
    pattern and as a scanner, and the two are proved equal.
- **The project gallery** (`src/components/Projects.tsx`), in
  `projects.dfy`: the tag filter and the list of tag buttons, which is
  "all" followed by the de-duplicated tags.
- **The technology list** (`src/components/Eperience2.tsx`), in
  `about_me.dfy`: the category filter, the three category buttons and their
  capitalised captions.
- **Sequence operations** (`sequences.dfy`): the JavaScript built-ins
  `filter` and `[...new Set(s)]`, which the components call, and two helpers
  of this model, `IndexOf` and `LastIndexOf`. The address scanner uses the
  helpers, and so does the statement of first-occurrence order.

The model follows the code where a plain reading of the form would differ:
- The length checks look at the value as typed, not the trimmed value, so
  `" a"` is an acceptable name. The address pattern is also applied to the
  untrimmed value.
- A submit that fails validation marks no field as touched. The red border
  of a field depends on its error alone; its error text also needs the field
  to be touched.
- The reset after a successful send empties the values and the touched set,
  but keeps `errors`.
- "One send at a time" is only the submit button's `disabled` flag. The
  model folds the flag into `Submit`: while the status is `Loading`, a
  submit does nothing.
- `ContactForm.TouchedErrorsCurrent` is an invariant of every reachable
  state: for each touched field, the recorded error is the validator's
  verdict on its current value. The constructor establishes it, and every
  method preserves it. `Blur` preserves it when it is given the field's
  stored value, as a controlled input does.
- `validateForm` drops keys that pass from `errors`. `handleChange` and
  `handleBlur` store `""` for them. Both readings agree through `ErrorOf`,
  which reads a missing key as `""`.

## Model

| member | source | states |
|---|---|---|
| Contact.ValidateField | src/components/Contact.tsx:40-59 | the result is "" or one of the two texts belonging to the field |
| Contact.NameRule | src/components/Contact.tsx:42-45 | "Name is required" iff the value is all whitespace; otherwise "at least 2 characters" iff it has fewer than 2 UTF-16 code units; otherwise "" |
| Contact.EmailRule | src/components/Contact.tsx:46-51 | "Email is required" iff the value is all whitespace; "valid email address" iff it is not blank and does not match the pattern; "" iff it matches |
| Contact.MessageRule | src/components/Contact.tsx:52-55 | "Message is required" iff blank; otherwise "at least 10 characters" iff fewer than 10 code units; otherwise "" |
| EmailPattern.Matches | src/components/Contact.tsx:48 | the language of the pattern: some `@` and some later `.` split the value into one or more local characters, one or more domain characters, and two or more ASCII letters to the end |
| EmailPattern.MatchesEmail | src/components/Contact.tsx:48 | `.test(value)`: the scanner takes the first `@` and the last `.` and checks the three parts' character classes and lengths |
| EmailPattern.MatchesEmailIff | src/components/Contact.tsx:48 | the scanner (first `@`, last `.`) accepts exactly the strings the regular expression matches |
| EmailPattern.SplitIsFirstAtLastDot | src/components/Contact.tsx:48 | in any match, the `@` is the first `@` and the split `.` is the last `.` |
| EmailPattern.AcceptedShape | src/components/Contact.tsx:46-51 | an accepted address has exactly one `@`, a non-empty local part, no whitespace, and ends with `.` and at least two ASCII letters |
| EmailPattern.MatchIsNotBlank | src/components/Contact.tsx:47-48 | a matching address is never blank, so it never gets "Email is required" |
| JsText.IsWhitespace | src/components/Contact.tsx:43 | the characters `trim` removes: ECMAScript's WhiteSpace and LineTerminator code points |
| JsText.Trim | src/components/Contact.tsx:43 | `trim` gives "" exactly for all-whitespace input; otherwise its first and last characters are not whitespace |
| JsText.TrimKeepsMiddle | src/components/Contact.tsx:43 | `trim` keeps a middle slice of its input, with only whitespace cut on either side |
| JsText.Utf16Length | src/components/Contact.tsx:44 | `.length` lies between the number of characters and twice it, and equals it iff no character lies outside the Basic Multilingual Plane |
| Contact.FormErrorsUnfolded | src/components/Contact.tsx:61-71 | the errors object is built key by key in the order name, email, message |
| Contact.FormErrorsExact | src/components/Contact.tsx:61-75 | the errors object has a key exactly for each failing field, holding its text, and is empty iff every field passes |
| Contact.CollectErrors | src/components/Contact.tsx:62-71 | the `forEach` loop builds exactly the errors object, and `isValid` holds iff it is empty |
| Contact.ContactForm.ValidateForm | src/components/Contact.tsx:61-75 | `errors` becomes the errors object of the current values; the result is true iff every field passes; the touched-errors invariant is kept |
| Contact.ContactForm.constructor | src/components/Contact.tsx:19-26 | empty values, no errors, nothing touched, status idle; the touched-errors invariant holds |
| Contact.ContactForm.Submit | src/components/Contact.tsx:77-81 | no-op while loading (button disabled, line 244); otherwise the errors are recomputed; a send starts, carrying the current values and entering loading, iff the form is valid; an invalid form keeps status, values and touched set |
| Contact.ContactForm.Settle | src/components/Contact.tsx:83-96 | status becomes success when the send reports success, else error; errors are kept |
| Contact.ContactForm.ResetOnSuccess | src/components/Contact.tsx:29-38 | on success the values are emptied and nothing is touched; otherwise nothing changes; the touched-errors invariant is kept |
| Contact.ContactForm.SubmitDisabled | src/components/Contact.tsx:244 | the submit button is disabled exactly while the status is loading |
| Contact.ContactForm.HasErrorBorder | src/components/Contact.tsx:161-165 | a field has the red border exactly when its recorded error is non-empty, touched or not |
| Contact.ContactForm.ShowsErrorText | src/components/Contact.tsx:170 | a field's error text shows exactly when its recorded error is non-empty and the field is touched (also lines 202 and 234) |
| Contact.ContactForm.Tick | src/components/Contact.tsx:97-98 | the timer returns the status to idle; the touched-errors invariant is kept |
| Contact.ContactForm.Change | src/components/Contact.tsx:102-111 | only the changed field's value is replaced; its error is recomputed iff it is touched; other values and errors are unchanged |
| Contact.ContactForm.Blur | src/components/Contact.tsx:113-118 | the field becomes touched and its error is the validator's text for the value; other errors are unchanged |
| Contact.FillAndSubmit | src/components/Contact.tsx:77-100 | a send starts iff the typed form is valid and carries the typed values; a delivered send empties the form, a failed one keeps it; status ends idle |
| Contact.TypeThenBlur | src/components/Contact.tsx:102-118 | typing into an untouched field shows no error text; leaving it shows text iff the value fails |
| Contact.SubmitUntouched | src/components/Contact.tsx:162-170 | after a failed submit of untouched fields, no error text shows, and exactly the failing fields have a red border |
| Contact.EmptyFormErrors | src/components/Contact.tsx:61-75 | an empty form gets the three "required" texts |
| Contact.BadAddressErrors | src/components/Contact.tsx:46-51 | a bad address next to an acceptable name and message yields only the address error |
| Contact.WellFormedFormIsValid | src/components/Contact.tsx:40-59 | a two-letter name, a well-formed address and a long enough message pass |
| Contact.LengthsCountUntrimmedCodeUnits | src/components/Contact.tsx:44-54 | the length tests count the untrimmed value in code units: " a", "a" followed by nine spaces, and one astral character all pass |
| Contact.ExampleAddressMatches | src/components/Contact.tsx:48 | "al@example.com" matches the address pattern |
| Contact.AddressWithoutAtFails | src/components/Contact.tsx:48 | every address without `@` fails the pattern |
| Projects.FilteredProjects | src/components/Projects.tsx:47-49 | with "all", every project in order; otherwise exactly the projects listing the tag, in order, with the same multiplicity |
| Projects.AllTags | src/components/Projects.tsx:51 | the flattened tag list holds exactly the tags some project lists |
| Projects.TagButtons | src/components/Projects.tsx:51 | starts with "all"; the rest are pairwise distinct, are exactly the tags used, and follow first-occurrence order |
| Projects.TagButtonSelectsSome | src/components/Projects.tsx:71-74 | every tag button other than "all" selects at least one project |
| Projects.InitialViewShowsAll | src/components/Projects.tsx:16 | the initial filter shows every project in order |
| Sequences.Filter | src/components/Projects.tsx:47 | `filter` keeps exactly the kept elements, in order and with their multiplicities |
| Sequences.FilterConcat | src/components/Eperience2.tsx:43 | filtering a concatenation concatenates the filtered parts |
| Sequences.Distinct | src/components/Projects.tsx:51 | `[...new Set(s)]` holds each element of `s` once, in order of first occurrence |
| AboutMe.ActiveAfter | src/components/Eperience2.tsx:15 | the active category starts as "all" and is always one of the three buttons' categories |
| AboutMe.Highlighted | src/components/Eperience2.tsx:106 | a button is highlighted when its category equals the active category |
| AboutMe.HighlightedIsLastClicked | src/components/Eperience2.tsx:101-109 | a button is highlighted iff it is the last one clicked, or the "all" button before any click; so exactly one is |
| AboutMe.FilteredTechnologies | src/components/Eperience2.tsx:41-43 | with "all", every technology; otherwise exactly those of the category, in order, with the same multiplicity |
| AboutMe.CategoriesDisjoint | src/components/Eperience2.tsx:43 | two different categories never show the same technology |
| AboutMe.FrontendBackendPartition | src/components/Eperience2.tsx:17-24 | when every technology is front- or back-end, the two buttons together show each one exactly as often as "all" |
| AboutMe.TechnologiesDeclared | src/components/Eperience2.tsx:9 | every listed technology has a declared category, front-end or back-end |
| AboutMe.ButtonCounts | src/components/Eperience2.tsx:17-24 | "frontend" shows the first three technologies, "backend" the last three |
| AboutMe.SelectsMatchingBlock | src/components/Eperience2.tsx:43 | a block of the active category next to a block without it filters down to the first block |
| AboutMe.ButtonLabel | src/components/Eperience2.tsx:111 | the caption has the category's length; its first character is the upper-case form of the category's first character (a lower-case ASCII letter becomes its capital, anything else is kept, so the caption equals the category); the rest is unchanged |
| JsText.UpperAscii | src/components/Eperience2.tsx:111 | `toUpperCase` restricted to ASCII: a lower-case ASCII letter becomes the capital 32 code points below it; every other character is kept as it is |
| AboutMe.ButtonLabelIdempotent | src/components/Eperience2.tsx:111 | capitalising a caption again changes nothing |
| AboutMe.ButtonCaptions | src/components/Eperience2.tsx:101-111 | the captions are "All", "Frontend" and "Backend" |

## Left out

- `sendEmail` (`src/components/email.tsx`) and the EmailJS network call: the outcome is the `delivered` parameter of `Settle`. A send that throws is folded into `delivered == false`, as the `catch` does.
- Asynchrony: the real 3000 ms `setTimeout` is the event `Tick`, and React's batched `setState` is a sequence of assignments. A timer from an earlier send that fires during a later one is not modelled.
- `formRef.current.reset()` resets the DOM inputs. The model has no DOM, so the controlled values in `formData` stand for them.
- The `default` branch of `validateField` is left out because no call reaches it: the three inputs' `name` attributes are the three keys, so `Field` has exactly three values.
- JavaScript strings are sequences of UTF-16 code units and may hold unpaired surrogates; a Dafny `char` is a Unicode scalar value, so such input cannot be expressed. To JavaScript a lone surrogate counts one code unit, is not whitespace and fails the address pattern.
- JsText.UpperAscii: keeps non-ASCII lower-case letters unchanged (`toUpperCase` turns "é" into "É"), and does not model mappings to several characters such as "ß" to "SS".
- AboutMe.ButtonLabel: upper-cases ASCII letters only. The three categories are ASCII, and full Unicode case mapping is not modelled.
- AboutMe.ActiveAfter: clicks are given as button positions, so the active category can only be one of the buttons' categories.
- Projects.FilteredProjects: the `filter` state is an input. The click handler that sets it (`src/components/Projects.tsx:74`) is left out, because it only assigns the clicked button's tag.
- Rendering, animation and styling: `framer-motion` props, icons, colours and images are kept only as data fields.
- `useDarkMode`, the scroll listeners of the header, hero and back-to-top button, the hero loading timer, the static sections (`Skills`, `About`, `Experience`, `ProjectCard`, `LoadingSpinner`, `App`) and `vite.config.js` are not part of this model. They are browser plumbing or static content.

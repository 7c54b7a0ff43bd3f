# Lucira Strategy site scripts — a verified model

This project models in Dafny the parts of the marketing site's
client-side scripts that have behaviour you can state precisely:

- **The contact-form controller** (`initContactForm`, src/main.js). It
  checks the honeypot field `hp`, the required fields and the e-mail shape.
  It then locks the form and posts the field map to `/api/contact`. It
  classifies the response and writes a status text. It always unlocks the
  form again. Module `ContactForm`, with the wire types in `ContactApi`.
- **The older controller** in public/scripts/main.js. It makes only the
  required-field check and has a stricter success rule. Module
  `LegacyContactForm`, which also proves how the two controllers differ.
- **The services tab widget** (`initServicesTabs`). It has a keyboard
  handler that picks the next tab and `activateTab`, which updates the
  buttons' and panels' flags in place. Module `ServicesTabs`.
- **The mobile navigation drawer** (`initMobileNav`). This is one `is-open`
  flag, the `aria-expanded` and body `overflow` values derived from it, and
  four event handlers. Module `MobileNav`.

The model follows the form of the code:

- The checks, the e-mail pattern, the success rule and the next-index
  computation are expressions, so they are functions.
- The submit handlers, `activateTab` and the drawer handlers change state
  step by step, so they are class methods with `modifies` clauses.
- `activateTab` keeps its loops over arrays of flags.
- The network is an input. A `Response` is either a thrown transport error
  or a received response. A received response has `res.ok` and a body. The
  body is unparseable, JSON `null`, or a payload whose `ok` is absent,
  `false` or some other value (only its truthiness matters) and whose
  `error` is an optional string.
- Each `fetch` the handler issues is recorded in a `requests` field.
  "No request" is stated as `requests == old(requests)`.
- An `await` splits a handler in two. `BeginSubmit` runs up to the request.
  `Complete` runs after it. `Submit` runs one after the other.

Details of the code the model keeps, which a reader of the page might expect otherwise:

- The required-field check uses JavaScript truthiness. A missing key or ""
  fails it. A whitespace-only value passes, because nothing trims.
- The current controller shows "Sending..." with three dots. The older one
  shows "Sending…" with an ellipsis character. The two thank-you texts also
  differ in their dash and apostrophe.
- A response whose body is JSON `null` reaches neither the success branch
  nor the failure branch. Reading `payload.ok`, or `payload.error` when
  `res.ok` is false, throws a TypeError inside the `try`. The status then
  becomes the network-error text, in both controllers.
- `form.reset()` restores the inputs' default values, which the markup
  sets. These need not be empty.

## Model

| member | source | states |
|---|---|---|
| `ContactForm.IsValidEmailMatchesPattern` | src/main.js:193-194 | The scan accepts a string exactly when it splits as run "@" run "." run, every run a non-empty sequence of characters that are neither `\s` nor "@" (the regular expression's meaning) |
| `ContactForm.ScanImpliesPattern` | src/main.js:193-194 | Every string the scan accepts has such a split |
| `ContactForm.PatternImpliesScan` | src/main.js:193-194 | Every string with such a split is accepted by the scan |
| `ContactForm.FirstAtIs` | src/main.js:193 | An "@" preceded only by run characters is the first "@" of the string |
| `ContactForm.WhitespaceEmailRejected` | src/main.js:193-198 | An address containing any JavaScript whitespace character anywhere is rejected |
| `ContactForm.MissingAtOrDotRejected` | src/main.js:193-198 | An address without "@" or without "." is rejected |
| `ContactForm.LeadingAtRejected` | src/main.js:193-198 | An address starting with "@" (empty local part) is rejected |
| `ContactForm.EmailExamples` | src/main.js:192-198 | "not-an-email", "a@b" and "@b.com" are rejected; "a@b.c.d" (dots inside the runs) is accepted |
| `ContactForm.Validate` | src/main.js:174-198 | Drop iff `hp` is truthy; MissingFields iff not Drop and one of name/email/message is missing or ""; BadEmail iff those pass and the address does not match the pattern; Proceed iff all three checks pass, in that order |
| `ContactForm.WhitespaceOnlyFieldsPass` | src/main.js:185-198 | Any non-empty whitespace-only name, email and message pass the required check, because it does not trim; such an address then fails the e-mail check unless the honeypot drops the submission |
| `ContactForm.Classify` | src/main.js:206-228 | Success iff a response arrived with `res.ok`, a readable payload and `ok !== false`; network failure iff the request threw or the body was JSON null; a rejection shows the server's `error` when that is a non-empty string and otherwise "Something went wrong. Please try again." |
| `ContactForm.AbsentOkIsSuccess` | src/main.js:214-219 | A payload without `ok`, including the `{}` used for an unparseable body, succeeds exactly when the HTTP status does; otherwise the generic text |
| `ContactForm.Controller.ShowStatus` | src/main.js:187 | The status element shows the given text |
| `ContactForm.Controller.Lock` | src/main.js:200-204 | Button disabled, `is-submitting` set, status "Sending..." |
| `ContactForm.Controller.Post` | src/main.js:208-212 | Exactly one request is appended: POST to `/api/contact`, JSON, body the extracted field map |
| `ContactForm.Controller.Reset` | src/main.js:219 | The fields return to their default values |
| `ContactForm.Controller.Settle` | src/main.js:214-228 | Status is the outcome's text; fields are reset on success only |
| `ContactForm.Controller.Unlock` | src/main.js:229-232 | Button enabled and `is-submitting` cleared |
| `ContactForm.Controller.BeginSubmit` | src/main.js:168-212 | Drop changes nothing; MissingFields and BadEmail set their fixed text and neither lock nor post; Proceed leaves the form locked with "Sending..." and exactly one request carrying the fields |
| `ContactForm.Controller.Complete` | src/main.js:214-232 | Whatever the response, the form ends unlocked, no further request is made, the status is the outcome's text and the fields are reset only on success |
| `ContactForm.Controller.Submit` | src/main.js:168-233 | The verdict is `Validate` of the fields; a request is issued only on Proceed, and then exactly one with the fields as body; no path leaves the form locked; only success resets the fields |
| `LegacyContactForm.Classify` | public/scripts/main.js:37-46 | Success iff `res.ok` and a truthy `payload.ok` (absent `ok` fails); network failure iff the request threw or the body was JSON null; a rejection shows the server's `error` when that is a non-empty string and otherwise "Something went wrong. Please try again." |
| `LegacyContactForm.Controller.ShowStatus` | public/scripts/main.js:21 | The status element shows the given text |
| `LegacyContactForm.Controller.Lock` | public/scripts/main.js:25-28 | Button disabled, `is-submitting` set, status "Sending…" |
| `LegacyContactForm.Controller.Post` | public/scripts/main.js:31-35 | Exactly one request is appended, whose body is the whole field map (honeypot included) |
| `LegacyContactForm.Controller.Reset` | public/scripts/main.js:41 | The fields return to their default values |
| `LegacyContactForm.Controller.Settle` | public/scripts/main.js:37-46 | Status is the outcome's text; fields are reset on success only |
| `LegacyContactForm.Controller.Unlock` | public/scripts/main.js:47-50 | Button enabled and `is-submitting` cleared |
| `LegacyContactForm.Controller.BeginSubmit` | public/scripts/main.js:15-35 | Missing fields set the fixed text and neither lock nor post; otherwise the form is locked with "Sending…" and exactly one request carries the unfiltered fields |
| `LegacyContactForm.Controller.Complete` | public/scripts/main.js:37-50 | Whatever the response, the form ends unlocked, the status is the outcome's text and only success resets the fields |
| `LegacyContactForm.Controller.Submit` | public/scripts/main.js:15-51 | One submission: a request only when all required fields are filled, exactly one, with the unfiltered field map; the form always ends unlocked |
| `LegacyContactForm.CurrentValidationIsStricter` | public/scripts/main.js:18-23 | Whatever the current handler lets through, this one does too; both reject missing fields unless the current one drops the submission first |
| `LegacyContactForm.OnlyCurrentHandlerFilters` | public/scripts/main.js:18-35 | A filled honeypot and a malformed address are posted by this handler but stopped by the current one |
| `LegacyContactForm.LegacySuccessImpliesCurrentSuccess` | public/scripts/main.js:39 | A success here is a success in the current handler; both call the same responses network failures |
| `LegacyContactForm.SuccessRulesDiverge` | public/scripts/main.js:37-39 | The two success rules differ exactly on an HTTP success whose payload has no `ok` or a falsy non-`false` one; an unparseable body succeeds in the current handler and fails in this one |
| `ServicesTabs.NextIndex` | src/main.js:99-114 | Only ArrowRight, ArrowLeft, Home and End produce a next index, and it is always a valid tab index |
| `ServicesTabs.ArrowKeysAreModular` | src/main.js:102-107 | ArrowRight is `(i + 1) mod n` and ArrowLeft is `(i + n - 1) mod n` |
| `ServicesTabs.ArrowLeftUndoesArrowRight` | src/main.js:102-107 | ArrowRight then ArrowLeft returns to the starting tab |
| `ServicesTabs.ArrowRightUndoesArrowLeft` | src/main.js:102-107 | ArrowLeft then ArrowRight returns to the starting tab |
| `ServicesTabs.SuccessorModulo` | src/main.js:104 | `(i + 1) mod n` wraps to 0 only at the last tab |
| `ServicesTabs.PredecessorModulo` | src/main.js:107 | `(i + n - 1) mod n` wraps to `n - 1` only at the first tab, and is `i - 1` elsewhere |
| `ServicesTabs.HomeAndEndAreEnds` | src/main.js:108-114 | Home gives the first tab and End the last, from any tab |
| `Lookup.FirstIndex` | src/main.js:68-70 | The first position holding the value looked up (the panel `getElementById` finds; the "@" the e-mail scan splits at); none exactly when the value does not occur |
| `ServicesTabs.TabWidget.constructor` | src/main.js:59-65 | The widget exists only with at least one button and one panel |
| `ServicesTabs.TabWidget.ActivateTab` | src/main.js:67-82 | If the button's panel exists, exactly that button is active and `aria-selected="true"` (all others "false") and exactly that panel is active; if not, nothing changes |
| `ServicesTabs.TabWidget.KeyDown` | src/main.js:98-120 | A navigation key activates and focuses the next tab as `activateTab` does; any other key changes nothing |
| `MobileNav.OpenAfter` | src/main.js:420-473 | Only the toggle can open the drawer, and the toggle always flips it |
| `MobileNav.OnlyToggleOpens` | src/main.js:446-473 | A link click, an outside click and Escape close an open drawer and never open a closed one |
| `MobileNav.ToggleIsInvolution` | src/main.js:420-421 | Two toggle clicks restore the state |
| `MobileNav.BubblingKeepsHandlerEffect` | src/main.js:446-464 | The bubbled document click does not undo a toggle click, and a link click leaves the drawer closed |
| `MobileNav.Drawer.SetOpen` | src/main.js:449-451 | `is-open`, `aria-expanded` and body overflow are set together and agree |
| `MobileNav.Drawer.OnToggleClick` | src/main.js:420-429 | The state flips, and `aria-expanded` and overflow ("hidden" iff open) agree with it |
| `MobileNav.Drawer.OnLinkClick` | src/main.js:447-453 | The drawer is closed, with the attributes agreeing |
| `MobileNav.Drawer.OnDocumentClick` | src/main.js:456-464 | An open drawer clicked outside navbar and toggle closes with the attributes agreeing; otherwise nothing changes |
| `MobileNav.Drawer.OnKeyDown` | src/main.js:467-473 | Escape closes an open drawer with the attributes agreeing; otherwise nothing changes |

## Left out

- Element lookups and their null early returns are not modelled: the form, button, status element, tab buttons and panels, navbar and toggle are taken as present. In public/scripts/main.js a missing status element or button would throw inside the handler.
- `e.preventDefault()`, the status colours, `console.log` and `console.error` have no state the model tracks.
- `JSON.stringify`, the request headers and `fetch` itself are not modelled beyond the recorded request. `res.json()` is abstracted to the three body cases.
- The model does not cover interleaving during the `await`. Other events may run between `BeginSubmit` and `Complete`, and the model says nothing about them.
- A form with two inputs of the same name, or with a file input, is not modelled. The extracted data is taken as a map from names to strings.
- A non-string `payload.error`, such as a number or an object, is not modelled. The page would show its string conversion.
- A `data-tab` attribute that is missing is not modelled. The page would look up `panel-null`; the model takes each button's `data-tab` as a given string.
- An element with the looked-up id that is not one of the `.tab-panel`s is not modelled. The model searches only the panels.
- The cluster animation restart in `activateTab` is not modelled because it runs on timers.
- The drawer's staggered link animation is not modelled for the same reason.
- Scroll animations, smooth anchor scrolling, the hero parallax, the navbar scroll effect, the cursor trail, lazy images, `debounce` and `ready` are not modelled. They are browser callbacks, timers and floating-point effects, and several are switched off in the initialisation.
- vite.config.js is build configuration and is not part of this model.

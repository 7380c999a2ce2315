# Portfolio page: contact form and scroll-spy navigation

A model of the two pieces of state behind the single-page portfolio site
(`src/App.jsx`): the contact form, which collects a name, an email address
and a message, posts them to a form relay, relabels and dims its button while
`sending` (App.jsx:590-593), shows a `success` or `error` overlay
(App.jsx:542-555) and then returns to `idle`; and the navigation bar's active
tab, which follows explicit jumps and the viewport observer's reports.

Three modules:

- `ContactForm` (form.dfy) holds the values: the `formData` record, the
  status, the relay's possible outcomes, the input-change updater, the submit
  guard, the `_subject` line and request body, and a reference state machine
  (`Step`, `Run`) of the form handlers, about which the trace properties are
  proved.
- `Navigation` (navigation.dfy) holds the navigation sections and `Settle`,
  the active tab left behind by one observer batch.
- `Portfolio` (app.dfy) holds the class `App` with the component's state
  hooks `activeTab`, `formData` and `formStatus` as fields, and the handlers
  as methods. Each form handler is proved to do exactly what `Step` does, so
  the lemmas about `Step` and `Run` hold of the class. Two ghost counters
  keep track of the environment: requests posted and not yet answered
  (`inFlight`), and status resets scheduled and not yet fired
  (`pendingResets`). `CompleteSubmit` may only run for a posted request and
  `TimerReset` only for a scheduled reset, which is all the event loop ever
  does. Two client methods, `DoubleSubmission` and `IndependentControllers`,
  show what callers can conclude from the contracts alone.

The submit handler is `async`: it sets `sending`, awaits the relay's answer,
then sets the outcome. The model splits it at the `await` into `BeginSubmit`
(guard, status, request) and `CompleteSubmit(outcome)`. The relay's answer
is an input: `Ok` (a response with `ok` set), `NotOk` (any other response)
or `Exception` (the request threw). The five-second timer is the explicit
event `TimerReset`.

Nothing stops a second submission while one is in flight. The handler never
looks at the status, and the `disabled` prop that the submit button is given
(App.jsx:591) is dropped by `ActionButton`, which only destructures
`children`, `primary`, `onClick` and `className` (App.jsx:207). The model
keeps this behaviour: `ResubmitWhileSending` and `DoubleSubmission` show it.
App.jsx:591 shows that the button was meant to be disabled while sending;
the model follows what the code does.

## Model

| member | source | states |
|---|---|---|
| `Portfolio.App.constructor` | src/App.jsx:20-23 | the tab starts on `home`, all three fields empty, status `idle`, nothing in flight and no reset pending |
| `Portfolio.App.ScrollToSection` | src/App.jsx:141-144 | the active tab is the requested id straight away, and nothing else changes |
| `Portfolio.App.OnIntersections` | src/App.jsx:147-149 | walking a batch leaves the tab `Settle` gives for the old tab and the batch; the form is untouched |
| `Portfolio.App.HandleInputChange` | src/App.jsx:157-160 | the named field takes the new value, the other two fields, the status and the tab keep theirs |
| `Portfolio.App.BeginSubmit` | src/App.jsx:162-177 | a request is posted exactly when email and message are non-empty, whatever the status; it then carries `RequestBody` of the fields and the status is `sending`; otherwise nothing changes |
| `Portfolio.App.CompleteSubmit` | src/App.jsx:179-190 | `Ok` gives `success` and empty fields; `NotOk` and `Exception` give `error` with the fields as they were; each schedules exactly one reset |
| `Portfolio.App.TimerReset` | src/App.jsx:182-189 | a fired reset sets `idle` whatever the status is, and consumes one scheduled reset |
| `ContactForm.UpdateField` | src/App.jsx:159 | the updater sets the named field to the value and leaves the other two fields equal to the old ones |
| `ContactForm.UpdatesToDistinctFieldsCommute` | src/App.jsx:157-160 | updates of two different fields give the same record in either order |
| `ContactForm.LaterUpdateOfFieldWins` | src/App.jsx:157-160 | a second update of the same field overrides the first |
| `ContactForm.ApplyUpdatesLastWins` | src/App.jsx:157-160 | after any sequence of keystrokes each field holds the last value written to it, or its old value if none was |
| `ContactForm.ApplyUpdatesOrderIndependent` | src/App.jsx:157-160 | two keystroke sequences that agree on the last value of every field leave the same record |
| `ContactForm.CanSubmit` | src/App.jsx:164 | the handler's guard: email and message both non-empty, the name not consulted; its meaning is proved in `SubmitGuard`, `EmptyNameSubmits` and `ResubmitWhileSending` |
| `ContactForm.RequestBody` | src/App.jsx:173-176 | the fields in `formData`'s key order, then `_subject`; its properties are proved in `RequestBodyRoundTrip` |
| `ContactForm.Step` | src/App.jsx:157-190 | the reference definition of one handler call, which every `App` form method is proved to follow; its properties are proved in `EditChangesOneField`, `SubmitGuard`, `RespondOutcome` and `ResetIsUnconditional` |
| `ContactForm.Subject` | src/App.jsx:175 | the subject line reads back, by `SubjectName`, as the sender's name |
| `ContactForm.SubjectNameInverse` | src/App.jsx:175 | any line that reads back as a name is that name's subject line |
| `ContactForm.SubjectInjective` | src/App.jsx:175 | different names give different subject lines |
| `ContactForm.RequestBodyRoundTrip` | src/App.jsx:173-176 | the posted body decodes to the unchanged form, its `_subject` is `"Portfolio Message from " + name`, and no member name repeats |
| `ContactForm.RequestBodySubjectNamesSender` | src/App.jsx:175 | the subject found in a body names the sender of that body |
| `ContactForm.EditChangesOneField` | src/App.jsx:157-160 | a keystroke changes exactly its own field and never the status |
| `ContactForm.SubmitGuard` | src/App.jsx:164-166 | a request is posted if and only if email and message are non-empty; if not, the state is unchanged; if so, the status becomes `sending` from any prior status |
| `ContactForm.EmptyNameSubmits` | src/App.jsx:164 | an empty name does not block a submission |
| `ContactForm.ResubmitWhileSending` | src/App.jsx:164 | a filled form submitted while already `sending` posts another request |
| `ContactForm.RespondOutcome` | src/App.jsx:179-190 | the status is `success` if and only if the response was ok and `error` otherwise; success empties the fields, failure keeps them |
| `ContactForm.ResetIsUnconditional` | src/App.jsx:182-189 | the reset sets `idle` from every status and keeps the fields |
| `ContactForm.RunKeepsUnwrittenField` | src/App.jsx:157-190 | over any history, a field that no keystroke writes and no success clears keeps its value |
| `ContactForm.RunStatusOrigin` | src/App.jsx:162-190 | over any history the final status is the initial one or was produced by one of its events |
| `ContactForm.SuccessNeedsOkResponse` | src/App.jsx:179-182 | `success` is reached only through an ok response |
| `ContactForm.AdaAccepted` | src/App.jsx:157-182 | Ada's form against an accepting relay goes `idle`, `sending` with subject `Portfolio Message from Ada`, `success` with cleared fields, then `idle` |
| `ContactForm.AdaRejected` | src/App.jsx:183-186 | the same form against a relay answering with a server error ends in `error` with the fields kept, then `idle` |
| `Navigation.Settle` | src/App.jsx:147-149 | the tab after a batch is the old tab or the id of one of its intersecting entries |
| `Navigation.SettleWithoutIntersecting` | src/App.jsx:148 | a batch without an intersecting entry leaves the tab unchanged |
| `Navigation.SettleLastIntersectingWins` | src/App.jsx:148 | the tab after a batch is the id of its last intersecting entry |
| `Navigation.SettleConcat` | src/App.jsx:147-149 | two batches in a row act like one concatenated batch |
| `Navigation.SettleStaysOnSections` | src/App.jsx:25-30 | starting on a navigation section, with only watched sections reported, the tab stays on a navigation section |
| `Navigation.SectionCrossingThreshold` | src/App.jsx:148 | an entry for a section crossing the threshold makes that section active whatever the tab was |

## Left out

- `e.preventDefault()` (App.jsx:163): a DOM effect on the submit event, which runs before the guard and so also on a blocked submit; the model has no event object.
- The `fetch` call to the relay (network I/O): its result is the `Outcome` argument of `CompleteSubmit`. The endpoint, the method and the headers are not modelled.
- `JSON.stringify`: the body is modelled as its members in order, as key/value pairs; the escaping of strings into JSON text is not modelled.
- `setTimeout` and real time: the five-second delay is not modelled; a reset is the explicit call `TimerReset`.
- Interleaving of overlapping submissions and stale timers (concurrency): each handler runs to completion. The ghost counters record how many answers and resets are still to come, not in which order they arrive.
- The IntersectionObserver's construction, `observe` and `disconnect` calls (App.jsx:147-154), `scrollIntoView`, and `getElementById`: these are DOM APIs. `ScrollToSection` sets the tab even for an id with no section, as the code does.
- The observer's 0.3 visibility threshold: floating-point viewport geometry. `isIntersecting` is an input of each entry.
- The browser's own `required` and `type="email"` validation of the inputs (App.jsx:565-585), which can stop a submit before the handler runs; the model covers the handler's own guard only.
- The input-change handler reads the field name from the event target; the model restricts it to the three inputs the form has, so `formData` keeps exactly three keys.
- The theme (`isDark`, the `theme` classes), `ActionButton`'s styling, the sidebars, the marquee and the static content arrays: presentation and data only.

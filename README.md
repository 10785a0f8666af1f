# Upload form of the art-sharing front end

This project models the one piece of logic in the front end: the upload
page's form (`src/pages/Upload.tsx`). The page keeps five pieces of state —
title, description, language, rights confirmation and the chosen file — and
one handler per control overwrites its field. The submit handler checks that
title, description and language are non-empty and the rights are confirmed.
If anything is missing it shows the "Missing Information" error toast and
changes nothing; otherwise it shows the success toast and resets all five
fields. The submit button is disabled while the rights are unconfirmed.

Two modules:

- `UploadForm` (upload_form.dfy) describes the form as values. `FormState` holds
  the five fields, and `Event` is one user action. `Step` says what an event does
  to the state and which notification it shows. `Run` applies a sequence of
  events. The lemmas state what the handler promises for one event and for any
  sequence of events.
- `UploadPage` (upload_page.dfy) is the page as an object. The class `Upload`
  holds the five fields. Each handler is a method that overwrites them in place,
  and each method is proved to do exactly what `Step` says of its event. The
  submit handler returns the `Notification` it would show instead of calling
  the toast hook.

A toast is modelled as the `Notification` value (`MissingInfo` or `Success`)
and the text it shows (`Notification.Toast`). The checkbox's reported value is
`CheckedState` (checked, unchecked or indeterminate). The file input's list is
`Option<seq<FileRef>>`: a missing list or a list of files, of which only the
name matters.

## Model

| member | source | states |
|---|---|---|
| UploadForm.Initial | src/pages/Upload.tsx:14-18 | a fresh form has no file, a language that is valid (empty), and cannot be submitted successfully |
| UploadForm.Notification.Toast | src/pages/Upload.tsx:30-41 | only the missing-information toast is destructive; both toasts carry a title and a description |
| UploadForm.RightsFromChecked | src/pages/Upload.tsx:180 | the rights are confirmed exactly when the checkbox reports checked; indeterminate gives false |
| UploadForm.ChosenFile | src/pages/Upload.tsx:21-25 | a non-empty selection replaces the file with its first entry; a missing or empty selection keeps the previous file |
| UploadForm.Submit | src/pages/Upload.tsx:27-49 | exactly one notification; success exactly when title, description and language are non-empty and the rights are confirmed; on failure the state is unchanged, on success it equals the initial state |
| UploadForm.Step | src/pages/Upload.tsx:21-180 | only a submit shows a notification; every other handler leaves every field but its own unchanged |
| UploadForm.SubmitIgnoresFile | src/pages/Upload.tsx:29 | the outcome of a submit does not depend on the file |
| UploadForm.RepeatedSubmitFailsAfterSuccess | src/pages/Upload.tsx:38-48 | after a successful submit, an immediate second submit fails and leaves the initial state |
| UploadForm.DisabledSubmitWouldFail | src/pages/Upload.tsx:199 | a disabled submit button only blocks submits that would fail and change nothing |
| UploadForm.EnabledSubmitCanFail | src/pages/Upload.tsx:199 | an enabled button is not enough: a form with an empty title still fails |
| UploadForm.BlankTitleIsPresent | src/pages/Upload.tsx:29 | a title of blanks is present; only the empty string counts as missing |
| UploadForm.CompleteFormIsReset | src/pages/Upload.tsx:38-48 | the form "My Song" / "A demo" / en / rights confirmed / no file submits successfully and is reset |
| UploadForm.RunPreservesValid | src/pages/Upload.tsx:152-168 | over any sequence of events whose language events carry values the picker reports (one of its ten item codes), the language stays empty or one of those codes |
| UploadForm.OneNotificationPerSubmit | src/pages/Upload.tsx:27-49 | over any sequence of events, the number of notifications shown equals the number of submits |
| UploadForm.FieldChangesOnlyThroughItsHandler | src/pages/Upload.tsx:14-48 | a field changes only through its own handler or a successful submit |
| UploadForm.NoSuccessWithoutConfirmingRights | src/pages/Upload.tsx:29 | starting unconfirmed, a run without a "checked" event never shows success and stays unconfirmed |
| UploadForm.ConfirmedSinceLastCheck | src/pages/Upload.tsx:29-47 | from a fresh form, whenever the rights are confirmed some earlier event checked the box and no submit has succeeded since |
| UploadForm.SuccessNeedsRightsCheckbox | src/pages/Upload.tsx:29-47 | from a fresh form, each successful submit is preceded by a check of the rights box with no other success in between, because every success clears the flag |
| UploadPage.Upload.constructor | src/pages/Upload.tsx:14-18 | the mounted page starts in the initial state |
| UploadPage.Upload.SetTitle | src/pages/Upload.tsx:95 | overwrites the title and nothing else |
| UploadPage.Upload.SetDescription | src/pages/Upload.tsx:110 | overwrites the description and nothing else |
| UploadPage.Upload.SetLanguage | src/pages/Upload.tsx:152 | overwrites the language with a picker code and nothing else |
| UploadPage.Upload.HandleRightsChange | src/pages/Upload.tsx:180 | sets the rights flag to whether the box is checked and nothing else |
| UploadPage.Upload.HandleFileChange | src/pages/Upload.tsx:21-25 | keeps the first selected file when there is one, otherwise changes nothing |
| UploadPage.Upload.HandleSubmit | src/pages/Upload.tsx:27-49 | returns success exactly when the four required fields are present, then resets all five fields; otherwise returns the error and changes nothing |
| UploadPage.Upload.SubmitButtonDisabled | src/pages/Upload.tsx:199 | when the button is disabled, a submit would fail and change nothing |

## Left out

- Rendering, styling, icons and layout of the page: presentation only.
- The language picker is assumed to report only the values of its ten items (src/pages/Upload.tsx:157-166); the picker component's source is not part of this model, so `SetLanguage` and `RunPreservesValid` require it rather than prove it.
- The toast hook itself: its source is not part of this model, so a notification is the returned value and its text.
- React's batching of state updates and re-render timing: the handlers are modelled as running to completion one after another, each reading the current fields.
- The browser's own form mechanics: the `required` attributes and the blocking of submission through a disabled button. The submit handler is modelled as reachable in every state; `SubmitDisabled` is a separate predicate, with lemmas relating it to the handler.
- The file's contents: the page never reads or sends the file, so a file is its name.
- The landing page (`src/pages/Index.tsx`): its five options are static data and every card only navigates to the upload route through the router library.
- The card component (`src/components/ContributionCard.tsx`): it only forwards its click callback.
- The named form phases (idle, editing) have no variable in the code; the initial state `Initial()` plays the part of the idle form.

# Event registration site: verified model of the event lifecycle and the registration flow

The site runs registration for one event at a time. An admin dashboard creates events and decides
which one is active. It opens and closes registration and records past events. The public page
shows the active event, generates its registration form and handles the form's submission.
Submitting stores one document in a collection named after the event, and one mail record in an
outbox collection that a mailer consumes.

This project models two parts in Dafny and proves properties of them.

- The event lifecycle of the dashboard (`admin/admin-dashboard.js`):
  - activating an event in one all-or-nothing write batch;
  - toggling an event's status;
  - the defaults and the question filter applied when an event is created;
  - the loop over the three past-event slots.
- The public page (`Assets/Scripts/public-script.js`):
  - what the page shows for the active event;
  - the registration form it synthesises;
  - everything the submit handler derives and writes: the document, the collection names and the
    mail record.

The modules are:

- `Wrappers`: `Option`.
- `Text`: the JavaScript string operations the pages rely on:
  - the `\s` character class;
  - `replace(/\s+/g, rep)`, including removing whitespace;
  - `replace(/literal/g, rep)`;
  - `join`;
  - `split`, used only as the reference definition that literal replacement is proved against;
  - decimal numerals.
- `Store`: the document database as a class `Database`.
  - Its fields are the `events` map, the `pastEvents` list and the collections named after events.
  - Its methods are single-document writes and an all-or-nothing batch commit.
  - Whether the backend accepts a write is a boolean parameter.
  - Automatically generated ids come from a counter, so they are never reused.
- `AdminDashboard`: the dashboard's operations and the invariant "at most one event is active".
- `RegistrationForm`: the form as a sequence of blocks of field descriptors (name, widget,
  required, constraint), not markup.
- `PublicPage`: page loading and the submit handler.

## Model

| member | source | states |
|---|---|---|
| AdminDashboard.SetActiveEvent | admin/admin-dashboard.js:59-70 | The loop queues `isActive = false` for every active event, then `isActive = true` for the target, and commits once. The commit succeeds exactly when the backend accepts it and the target exists. The collection is then `Activated(old, target)` and the target is the only active event. Otherwise the collection is unchanged. Nothing else in the store changes. |
| AdminDashboard.QueueDeactivations | admin/admin-dashboard.js:62-65 | The loop queues one `isActive = false` update per active event. Every update names an existing document, and applying the batch switches exactly the active events off. |
| AdminDashboard.ActivatedLeavesOnlyTarget | admin/admin-dashboard.js:62-68 | After activation the set of active events is exactly `{target}`, whatever was active before. |
| AdminDashboard.ActivatedChangesOnlyIsActive | admin/admin-dashboard.js:63-67 | Activation keeps every id and changes no field other than `isActive`. An event that was neither active nor the target is untouched. |
| AdminDashboard.DeactivateAllThenTarget | admin/admin-dashboard.js:63-67 | Switching all active events off and then the target on yields exactly the intended activation. |
| AdminDashboard.ApplyBatchAppend | admin/admin-dashboard.js:63-67 | Queuing one more write into a batch applies it after the earlier ones. |
| AdminDashboard.DeactivateOneMore | admin/admin-dashboard.js:63-65 | Queuing `isActive = false` for one more event extends the set of events switched off. |
| Store.ApplyBatchTouchesOnlyIsActive | admin/admin-dashboard.js:61-68 | A batch of `isActive` updates keeps the key set and every other field. |
| Store.Database.Commit | admin/admin-dashboard.js:68 | All queued writes take effect, or none do. A write to a missing document fails the whole batch. |
| Store.Database.QueryActive | Assets/Scripts/public-script.js:34 | The active-event query returns none exactly when no event is active, and otherwise an active event. |
| AdminDashboard.AfterActivationsKeepsIds | admin/admin-dashboard.js:59-70 | No sequence of activations adds or removes an event. |
| AdminDashboard.ActivationsKeepAtMostOneActive | admin/admin-dashboard.js:59-70 | Starting from at most one active event, every sequence of activation attempts, failed commits included, keeps at most one active. |
| AdminDashboard.ActivationRepairsInvariant | admin/admin-dashboard.js:62-68 | Starting from any state, even one with several active events, once an activation of an existing event has committed, exactly one event is active from then on. |
| AdminDashboard.FlippedStatus | admin/admin-dashboard.js:76 | The new status is `'closed'` exactly when the old one was `'open'`, and `'open'` exactly when it was not. |
| AdminDashboard.FlippedStatusTwice | admin/admin-dashboard.js:76 | Two toggles restore the status exactly when it was `'open'` or `'closed'`. Any status other than `'open'` ends up `'closed'`. |
| AdminDashboard.ToggledKeepsActiveIds | admin/admin-dashboard.js:75-77 | Toggling changes no event other than the toggled one, keeps the key set, and keeps the set of active events. It therefore preserves at most one active. |
| AdminDashboard.ToggleEventStatus | admin/admin-dashboard.js:72-80 | A missing id or a refused update changes nothing. Otherwise only that event's status is flipped. The active events stay the same. |
| AdminDashboard.LabelledQuestions | admin/admin-dashboard.js:172-175 | The kept questions are a subset of the form's questions, none of them with an empty label. |
| AdminDashboard.LabelledQuestionsSplit | admin/admin-dashboard.js:172-175 | The filter works piecewise, so the kept questions keep their original order. |
| AdminDashboard.LabelledQuestionsKeepsLabelled | admin/admin-dashboard.js:172-175 | Every question with a non-empty label is kept. When every label is filled in, the filter changes nothing. |
| AdminDashboard.AddingInactiveEventKeepsActiveIds | admin/admin-dashboard.js:193-198 | Adding an inactive event under a fresh id keeps the set of active events, and with it at most one active. |
| AdminDashboard.CreateEvent | admin/admin-dashboard.js:165-198 | Nothing is written without a poster or when the add is refused. Otherwise a fresh id receives the form's fields, the poster URL, the filtered questions, `status = 'closed'` and `isActive = false`. The set of active events is unchanged. |
| AdminDashboard.SavedPastEventsSplit | admin/admin-dashboard.js:223-235 | Slots are handled independently and in order, so a failing slot does not change what a later slot saves. Each slot yields at most one record. |
| AdminDashboard.SavedPastEventsComeFromFilledSlots | admin/admin-dashboard.js:227-232 | Every saved record comes from a slot with a title, a date and a poster, and carries that slot's uploaded URL. |
| AdminDashboard.SavePastEvents | admin/admin-dashboard.js:223-235 | Slots 1 to 3 are processed in ascending order. The past events grow by exactly the records of the filled, successful slots, and by at most 3. |
| RegistrationForm.GenerateRegistrationForm | Assets/Scripts/public-script.js:89-142 | The loops build exactly `RegistrationFormOf(e)`: the participant blocks, then the questions block. |
| RegistrationForm.BuildRatingOptions | Assets/Scripts/public-script.js:131 | The rating loop yields the rating scale. |
| RegistrationForm.RatingScaleIsOneToTen | Assets/Scripts/public-script.js:129-132 | A rating question offers `1` to `10` in ascending order. |
| RegistrationForm.FormLayout | Assets/Scripts/public-script.js:90-136 | There is one block per participant: `teamSize` of them for a team event, otherwise 1 regardless of `teamSize`. Block i has heading `Participant i:` when there are several participants, else `Participant Details:`, and holds participant i's fields. The blocks run in ascending order. A questions block follows exactly when the event has questions. Its prompt k carries question k's label and input, in stored order. |
| RegistrationForm.QuestionInputByKind | Assets/Scripts/public-script.js:123-133 | A `text` question gets a required free-text input, `yesno` a required select of exactly Yes and No, and `rating` a required select of exactly 1 to 10. Each input is named `custom_q_` plus the rewritten label. Any other type gets no input. |
| RegistrationForm.ParticipantFieldsShape | Assets/Scripts/public-script.js:99-114 | Each block has the ten fields `p{i}_name` … `p{i}_ieee_id` in order. All are required except `p{i}_ieee_id`. |
| RegistrationForm.ParticipantFieldNamesDistinct | Assets/Scripts/public-script.js:99-114 | Two participant field names are equal only for the same participant and the same suffix. |
| RegistrationForm.RollNumberAccepts | Assets/Scripts/public-script.js:108 | The roll field accepts exactly ten characters from `[a-zA-Z0-9]`. |
| RegistrationForm.ParticipantChoices | Assets/Scripts/public-script.js:103-114 | The year field accepts exactly 2, 3 or 4. IEEE membership accepts exactly Yes or No. The IEEE id may be empty. |
| RegistrationForm.CustomFieldNameHasNoWhitespace | Assets/Scripts/public-script.js:123 | A question's field name contains no whitespace. |
| RegistrationForm.TwoWordFieldName | Assets/Scripts/public-script.js:123 | Two words separated by any whitespace run give `custom_q_<first>_<second>`. Labels differing only in that run collide on one name. |
| RegistrationForm.CustomNamesAvoidParticipantNames | Assets/Scripts/public-script.js:99-123 | A question's field name is never a participant field name. |
| Text.ReplaceRunsLeavesNoWhitespace | Assets/Scripts/public-script.js:123 | Replacing every whitespace run by whitespace-free text leaves no whitespace. |
| Text.ReplaceRunsIdempotent | Assets/Scripts/public-script.js:123 | Rewriting the whitespace runs a second time changes nothing. |
| Text.ReplaceRunsFixesWhitespaceFree | Assets/Scripts/public-script.js:123 | A label without whitespace is kept as is. |
| Text.ReplaceRunsSplitsAfterWordChar | Assets/Scripts/public-script.js:123 | The rewrite works piecewise at any boundary after a non-whitespace character. |
| Text.ReplaceRunsBetweenWords | Assets/Scripts/public-script.js:123 | A whitespace run of any length or kind between two words becomes one replacement. |
| Text.ReplaceRunsByNothingRemovesWhitespace | Assets/Scripts/public-script.js:168-169 | Replacing runs by the empty string equals removing every whitespace character. |
| Text.ReplaceAllIsSplitJoin | Assets/Scripts/public-script.js:182 | Global literal replacement equals splitting at the pattern and joining with the replacement. |
| Text.ReplaceAllWithoutOccurrence | Assets/Scripts/public-script.js:182 | Text without the pattern is left unchanged by the replacement. |
| Text.JoinAppend | Assets/Scripts/public-script.js:182 | Joining one more element appends the separator and that element. |
| Text.NatToStringInjective | Assets/Scripts/public-script.js:99-114 | Distinct participant numbers have distinct decimal numerals. |
| Text.DecimalValueOfNatToString | Assets/Scripts/public-script.js:99-114 | A numeral denotes the number it was written from. |
| PublicPage.LoadActiveEvent | Assets/Scripts/public-script.js:31-56 | A failed query shows the error message. Otherwise the no-event message appears exactly when no event is active. An active event is shown as `ViewOf(event)`: with its generated form when its status is exactly `open`, with the closed notice otherwise. |
| PublicPage.OpenViewShowsForm | Assets/Scripts/public-script.js:41-46 | The view of an event offers a form exactly when its status is `open`, and that form is the event's registration form. |
| PublicPage.FormDataMap | Assets/Scripts/public-script.js:160-162 | A key is in the copied data exactly when some form entry has it. Every copied value is text. |
| PublicPage.FormDataMapLastWins | Assets/Scripts/public-script.js:162 | For a repeated key the last entry's value wins. |
| PublicPage.CopyEntries | Assets/Scripts/public-script.js:160-162 | The copy loop produces `FormDataMap(entries)`. |
| PublicPage.RegistrationDocument | Assets/Scripts/public-script.js:160-166 | The document holds every form key plus `timeStamp` and `participantCount`. `timeStamp` is the server time and overrides any same-named entry. `participantCount` comes from the event fetched at submit time. Every other key keeps its entry's value. |
| PublicPage.ParticipantNamesAreNotReserved | Assets/Scripts/public-script.js:164-166 | No participant field is named `timeStamp` or `participantCount`, so no participant's value is overridden. |
| PublicPage.CollectionNamesStripWhitespace | Assets/Scripts/public-script.js:168-169 | The registration collection is the event name with all whitespace removed, plus `Teams` for a team event or `Participants` otherwise. The mail collection is the same stripped name plus `Mails`. |
| PublicPage.SameStrippedNameSameCollections | Assets/Scripts/public-script.js:168-169 | Events whose names differ only in whitespace share their collections. |
| PublicPage.RegistrationsNeverInMailCollection | Assets/Scripts/public-script.js:168-169 | No event's registration collection is any event's mail collection. |
| PublicPage.GatherParticipants | Assets/Scripts/public-script.js:174-179 | The loop collects participant 1's to participant N's email and name, in index order. |
| PublicPage.RecipientFromEntry | Assets/Scripts/public-script.js:174-183 | The mail has exactly N recipients. Recipient i is the value of participant i's email field (its last entry). |
| PublicPage.MissingEmailIsUndefined | Assets/Scripts/public-script.js:177 | A participant without an email entry contributes an `undefined` recipient. |
| PublicPage.MailRecipients | Assets/Scripts/public-script.js:174-183 | The mail's recipients are participant 1's to participant N's email values, one per block. |
| PublicPage.ParticipantEntryInDocument | Assets/Scripts/public-script.js:160-166 | The stored document keeps the last value entered for every participant field. |
| PublicPage.RecipientDefinedIffEmailEntry | Assets/Scripts/public-script.js:177 | Recipient i is defined exactly when the form had an entry for participant i's email field. |
| PublicPage.MailStorableIffAllEmails | Assets/Scripts/public-script.js:174-183 | The mail record can be stored exactly when every participant's email field was submitted. |
| Store.Database.AddDocument | Assets/Scripts/public-script.js:172-183 | A document is appended to its collection exactly when the backend accepts it and no field is `undefined`. Otherwise nothing changes. |
| PublicPage.SingleNameJoined | Assets/Scripts/public-script.js:182 | One name is inserted as is. An `undefined` name renders as the empty string. |
| PublicPage.JoinedNamesAppend | Assets/Scripts/public-script.js:182 | Names are separated by ` & `, in index order. |
| PublicPage.MailBodyWithoutPlaceholders | Assets/Scripts/public-script.js:182 | A template without `{name}` and `{eventName}` is sent as written. |
| PublicPage.NamesExpandedBeforeEventName | Assets/Scripts/public-script.js:182 | The substitutions are sequential with `{name}` first, so an `{eventName}` inside the names is expanded too. |
| PublicPage.SubmitWrites | Assets/Scripts/public-script.js:171-183 | A submit appends at most one registration to the event's collection and at most one mail to its outbox. The mail is added only when the registration was added and every recipient is defined. No other collection is touched. |
| PublicPage.Submit | Assets/Scripts/public-script.js:145-200 | When no event is active, the store is unchanged. Otherwise the writes are exactly `AfterSubmit` for the event the query returned. The outcome is `RegistrationFailed` when the registration write fails, `MailFailed` when the mail write is refused or a recipient is `undefined`, and `Registered` otherwise. The event's `status` is never consulted. |

## Left out

- Authentication, the login redirect and page initialisation are calls into external services and
  are not modelled.
- Rendering is not modelled: markup, the preloader fade and its timer, badges, loaders and
  dialogs. The form is a list of field descriptors.
- Poster uploads to blob storage are not modelled. The download URL is a parameter, and `None`
  means no file or a failed upload.
- Server timestamps are an opaque `nat` parameter.
- Ordering by `createdAt` is not modelled, and neither is the order in which the database returns
  query results. The active-event query returns some active event, chosen nondeterministically.
- Backend failures are boolean parameters. The query in the submit handler sits outside its
  try/catch, so a failure there is an unhandled rejection that writes nothing. The model does not
  give that case a parameter.
- Concurrency is not modelled: races between two activations, or between rendering the page and
  submitting it. Each handler runs as one sequential step.
- `teamSize` is stored as the string the form produced, and the page compares it with a loop
  counter by JavaScript coercion. The model takes it as a `nat`. Negative, non-numeric or absent
  values are not validated by the source either, and are not modelled.
- RegistrationForm.Accepts: the browser's format check of `type="email"` and `type="tel"` inputs is
  not modelled. Only `required`, select options and the roll-number pattern are.
- The past-event list display and deletion are plain pass-through to the database and are not
  modelled.
- PublicPage.MailBody: the replacement strings are inserted literally. JavaScript's `replace` would
  expand `$&`, `$$`, `` $` `` and `$'` inside a participant's name or the event name.
- Status, participation type and question type are the stored strings, compared as the source
  does. A label made only of whitespace passes the dashboard's filter and gives the field name
  `custom_q__`, as in the source.

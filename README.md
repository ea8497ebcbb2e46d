# Selection-process portal: a Dafny model of its core

The portal lets a graduate programme publish selection processes and post
news items for them. Candidates apply through a form built from each
process's registration fields. The data lives in a document database: a
"processes" collection and, under every process, an "applications" and a
"news" sub-collection, each seeded with an empty "placeholder" document.

This project models:

- the repository module over that database: its reads and its writes;
- the rules of the pages that change a process's registration fields
  (create and edit);
- the candidate's application form;
- the account-creation form's validation;
- the route guard.

It proves what these pieces promise. Highlights:

- a process is active or inactive on a given day, never both;
- the inactive listing repeats nothing when every process's start is not after its end;
- the news listing is a permutation of the stored items with the latest first;
- deletion is refused while applications exist;
- the field list keeps distinct names under add, import and delete;
- the hand-written email test accepts exactly what the email pattern matches;
- the stored field list decodes back to itself.

Module layout, following the source:

- `Wrappers`: `Option`, `Result` and `Outcome`.
- `StringOrder`: code-point order on strings. It is the order the
  database's range queries and the `YYYY-MM-DD` date strings use.
- `Documents`:
  - field values and documents;
  - collections, whose ids are kept in ascending order (the order a scan returns);
  - `setDoc`/`deleteDoc` as `Put`/`Delete`;
  - the two record shapes, `{...data, id}` and `{id, ...data}`.
- `Processes`: `getProcess`, `getProcesses` and the two lifecycle queries.
- `Applications`: `processHasApplications`, `getApplications`,
  `userHasApplication`, `getUserApplication` and the application record.
- `News`: `getProcessNews` (filter, then a stable sort by `date`),
  `getSpecificProcessNews` and the news records.
- `Repository`: the writes. `Store` is a class whose fields are the three
  collections, and each write method states the whole new state.
- `FieldList`:
  - the registration-field list both process pages edit;
  - `mapFieldType`;
  - the fields table.
- `CreateProcessPage` and `EditProcessPage`: the two page states as
  classes, with their handlers.
- `ApplicationForm`: `validateFile`, the submit normalisation, the
  validation rules and the visibility rule.
- `Signin`: the name, email and password rules, and the sign-up error message.
- `AuthGuard`: the decision of the route guard.

Inputs the code takes from its environment are parameters of the model:

- a `serverTimestamp()` value is a `stamp: nat`;
- "today" is a `YYYY-MM-DD` string;
- the id that `addDoc` generates is an `AutoId` (20 alphanumerics) that
  no document of the collection has yet;
- a date picked on the create page is a day number.

The SDK throws when a document id is empty, or when it holds `/` in a
way that leaves a path with an odd number of segments or an empty
segment. The model reports every id that is empty or holds a `/` as
`InvalidId`: each document id is a single path segment.

## Model

| member | source | states |
|---|---|---|
| StringOrder.BelowTransitive | services/firebase/firebase-firestore.js:69-72 | the string order used by the date range filters is transitive |
| StringOrder.BelowTotal | services/firebase/firebase-firestore.js:99-103 | any two different strings are ordered one way or the other |
| StringOrder.AtMostIffNotBelow | services/firebase/firebase-firestore.js:101-102 | `a <= b` holds exactly when `b < a` does not |
| Documents.StoreError.Message | services/firebase/firebase-firestore.js:147-149 | the SDK's own failures have no repository message; each thrown repository error has its text |
| Documents.InsertId | services/firebase/firebase-firestore.js:152 | writing a new key keeps the scan order ascending and adds exactly that key |
| Documents.Filter | services/firebase/firebase-firestore.js:245 | a filter keeps exactly the accepted ids, in their order |
| Documents.Collection.Put | services/firebase/firebase-firestore.js:152 | `setDoc` writes one document and keeps the collection well formed |
| Documents.Collection.Delete | services/firebase/firebase-firestore.js:233 | `deleteDoc` removes exactly that document, and a missing one is no error |
| Documents.WithKey | services/firebase/firebase-firestore.js:43-46 | `{...data, id}`: the document key overrides a stored `id`, and other fields are kept |
| Documents.KeyThenData | services/firebase/firebase-firestore.js:108-111 | `{id, ...data}`: a stored `id` field overrides the document key |
| Documents.QueryRecordsMembers | services/firebase/firebase-firestore.js:82-83 | a query result holds the record of every matched key and no other document |
| Processes.GetProcess | services/firebase/firebase-firestore.js:32-47 | found exactly when the key exists, with `id` equal to the key and the stored fields kept |
| Processes.GetProcesses | services/firebase/firebase-firestore.js:50-61 | one record per stored process, in key order, each with `id` equal to its key and every other stored field kept |
| Processes.ActiveKeys | services/firebase/firebase-firestore.js:99-103 | exactly the processes with `startDate <= today <= endDate`, in key order |
| Processes.EndedKeys | services/firebase/firebase-firestore.js:69 | exactly the processes with `endDate < today` |
| Processes.NotStartedKeys | services/firebase/firebase-firestore.js:72 | exactly the processes with `startDate > today` |
| Processes.InactiveKeys | services/firebase/firebase-firestore.js:81-84 | exactly the processes that have ended or not yet started |
| Processes.GetActiveProcesses | services/firebase/firebase-firestore.js:94-118 | lists the record of every process open today and nothing else |
| Processes.GetInactiveProcesses | services/firebase/firebase-firestore.js:64-91 | lists every ended or not-started process and nothing else; its length is the sum of the two query results |
| Processes.InactiveEndedFirst | services/firebase/firebase-firestore.js:80-83 | the ended processes' records come first, in the first query's order, then the not-started ones', in the second's |
| Processes.ActiveIsNeitherEndedNorNotStarted | services/firebase/firebase-firestore.js:69-72 | a process open today matches neither inactive query |
| Processes.ActiveAndInactiveDisjoint | services/firebase/firebase-firestore.js:64-118 | no process is both active and inactive, whatever its dates |
| Processes.EndedIsStarted | services/firebase/firebase-firestore.js:69-72 | with the start not after the end, an ended process has started |
| Processes.InactiveHasNoDuplicates | services/firebase/firebase-firestore.js:81-84 | when every start is not after its end, the concatenated inactive listing repeats no process |
| Processes.DatedIsClassified | services/firebase/firebase-firestore.js:64-118 | a process with both dates is active or inactive |
| Processes.ProcessesArePartitioned | services/firebase/firebase-firestore.js:64-118 | with well-ordered dates, each process is in exactly one of the two listings |
| Processes.MisorderedProcessListedTwice | services/firebase/firebase-firestore.js:81-84 | a process whose start is after its end appears twice in the inactive listing between the two dates |
| Processes.MisorderedDatesExample | services/firebase/firebase-firestore.js:66 | concrete `YYYY-MM-DD` dates meet the previous lemma's premise |
| Applications.HasApplications | services/firebase/firebase-firestore.js:303-316 | true exactly when the sub-collection holds a document other than the placeholder |
| Documents.ListedKeys | services/firebase/firebase-firestore.js:245 | every key of a sub-collection but the placeholder's, in scan order (the application and news listings share it) |
| Applications.GetApplications | services/firebase/firebase-firestore.js:241-251 | the data of each non-placeholder application, in key order, without ids |
| Applications.ListingEmptyIffNoApplications | services/firebase/firebase-firestore.js:241-316 | the application listing is empty exactly when processHasApplications is false |
| Applications.UserHasApplication | services/firebase/firebase-firestore.js:255-272 | true exactly when a document named `uid` exists; an unusable uid fails |
| Applications.UserProcessKeys | services/firebase/firebase-firestore.js:285-293 | exactly the processes whose applications hold a document named `uid`, in scan order |
| Applications.GetUserApplication | services/firebase/firebase-firestore.js:320-337 | the application with `id` equal to `uid`, or "Inscrição não encontrada." when missing |
| Applications.ApplicationRecord | services/firebase/firebase-firestore.js:211 | the six stored fields, with status "Não analisada" and `uid` as given |
| Applications.AddedApplicationIsFound | services/firebase/firebase-firestore.js:202-216 | after addApplication, userHasApplication is true, and the process appears in the user's list |
| Applications.AddApplicationIsLocal | services/firebase/firebase-firestore.js:208 | an application written to one process changes no other process's applications or listing |
| Applications.PlaceholderDoesNotCount | services/firebase/firebase-firestore.js:313 | writing or deleting the placeholder leaves "has applications" as it was |
| News.DateOf | services/firebase/firebase-firestore.js:405 | the item's `date`, when it is a string |
| News.NotLaterStep | services/firebase/firebase-firestore.js:405 | the comparator's "later" relation composes, which is what the ordering proof needs |
| News.InsertPermutes | services/firebase/firebase-firestore.js:405 | insertion adds exactly the one item |
| News.InsertKeepsLatestFirst | services/firebase/firebase-firestore.js:405 | inserting into a latest-first list keeps it latest first |
| News.SortPermutes | services/firebase/firebase-firestore.js:405 | the sort returns a permutation of its input |
| News.SortIsLatestFirst | services/firebase/firebase-firestore.js:405 | no item of the sorted list is behind one with a later date |
| News.SortedByDateDescending | services/firebase/firebase-firestore.js:405 | when every item is dated, the dates run from the latest to the earliest |
| News.UndatedKeepScanOrder | services/firebase/firebase-firestore.js:405 | when no item is dated, the listing keeps the scan order |
| News.GetProcessNews | services/firebase/firebase-firestore.js:393-411 | a permutation of the non-placeholder items as `{...data, id}`, sorted latest first |
| News.GetSpecificProcessNews | services/firebase/firebase-firestore.js:373-388 | the item with `id` equal to its key, or "Aviso não encontrados" when missing |
| News.NewsRecord | services/firebase/firebase-firestore.js:343 | `{...data, publisherName, createdAt}` |
| News.UpdatedNews | services/firebase/firebase-firestore.js:354 | the old fields merged with the new data and a fresh `updatedAt` |
| News.AutoIdIsNotPlaceholder | services/firebase/firebase-firestore.js:343 | an id generated by addDoc is usable and never the placeholder |
| Repository.ProcessKey | services/firebase/firebase-firestore.js:142 | the process key is `data.name`, when that is a usable document id |
| Repository.ProcessRecord | services/firebase/firebase-firestore.js:152 | `{...data, id, createdAt}` |
| Repository.CreatedProcessIsFound | services/firebase/firebase-firestore.js:139-170 | a created process is found under its name, with `id` equal to the name |
| Repository.DeletionEmptiesApplications | services/firebase/firebase-firestore.js:181-199 | once deletion is allowed, removing the placeholder leaves no application |
| Repository.DeletionKeepsNews | services/firebase/firebase-firestore.js:191-195 | deleting the news placeholder keeps every real news item |
| Repository.Store.constructor | services/firebase/firebase-firestore.js:29 | an empty, well-formed database |
| Repository.Store.CreateProcess | services/firebase/firebase-firestore.js:139-170 | refuses an existing name and writes nothing; otherwise writes the process and the two placeholders |
| Repository.Store.UpdateProcess | services/firebase/firebase-firestore.js:173-178 | merges the data into an existing process and fails on a missing one |
| Repository.Store.DeleteProcess | services/firebase/firebase-firestore.js:181-199 | refused while the process has applications; otherwise deletes the process and both placeholders |
| Repository.Store.AddApplication | services/firebase/firebase-firestore.js:202-216 | writes the application under `uid`, replacing an earlier one, and nothing else |
| Repository.Store.UpdateApplicationStatus | services/firebase/firebase-firestore.js:219-227 | sets only `status` on an existing application and fails on a missing one |
| Repository.Store.DeleteApplication | services/firebase/firebase-firestore.js:230-238 | removes the one application and nothing else |
| Repository.Store.AddProcessNews | services/firebase/firebase-firestore.js:340-348 | adds the item under a fresh generated id and leaves the placeholder as it was |
| Repository.Store.UpdateProcessNews | services/firebase/firebase-firestore.js:351-359 | merges into an existing item with a new `updatedAt`, and fails on a missing one |
| Repository.Store.DeleteProcessNews | services/firebase/firebase-firestore.js:362-370 | removes the one news item and nothing else |
| Repository.Store.GetProcessesWithUserApplications | services/firebase/firebase-firestore.js:275-300 | the loop returns, in scan order, exactly the processes holding the user's application |
| FieldList.AddField | src/pages/CreateProcess.jsx:276-289 | refuses a name already in the list with the alert; otherwise appends the field |
| FieldList.NewFields | src/pages/CreateProcess.jsx:294-296 | keeps the imported fields whose names are new and drops the others, as an in-order subsequence |
| FieldList.NewFieldsCounts | src/pages/CreateProcess.jsx:294-296 | every copy of an imported field with a new name is kept, repeats included, and no copy of any other |
| FieldList.ImportFields | src/pages/CreateProcess.jsx:292-312 | appends the new fields, and the alert shows exactly when some imported name was already taken |
| FieldList.AddKeepsNamesDistinct | src/pages/CreateProcess.jsx:278-283 | adding keeps the names distinct |
| FieldList.NewFieldsDistinct | src/pages/CreateProcess.jsx:294-296 | the fields kept from an import with distinct names have distinct names |
| FieldList.ImportKeepsNamesDistinct | src/pages/CreateProcess.jsx:304-310 | importing a list with distinct names keeps the names distinct |
| FieldList.ImportKeepsRepeatsOfTheImportedList | src/pages/CreateProcess.jsx:294-296 | names repeated within the imported list itself are not filtered |
| FieldList.KeepOthers | src/pages/CreateProcess.jsx:319 | the filter never lengthens the list |
| FieldList.DeleteField | src/pages/CreateProcess.jsx:315-321 | deletion never lengthens the list |
| FieldList.DeleteRemovesOnlyThatRow | src/pages/CreateProcess.jsx:319 | deleting row `index` removes exactly that row; an index outside the list changes nothing |
| FieldList.DeleteKeepsNamesDistinct | src/pages/CreateProcess.jsx:315-321 | deleting keeps the names distinct |
| FieldList.ReplaceField | src/pages/CreateProcess.jsx:333-340 | the copied array has the edited field at its row and every other row unchanged |
| FieldList.EditCanRepeatAName | src/pages/CreateProcess.jsx:331-342 | saving an edit does not check names, so two rows can end up sharing a name |
| FieldList.MapFieldType | src/pages/CreateProcess.jsx:131-146 | text, number, date, email and file are shown as Texto, Número, Data, Email and Arquivo; any other string as it is |
| FieldList.TypeLabelCoversKnownTypes | src/pages/EditProcess.jsx:103-118 | the label table has exactly the five known types as keys and the five labels as values |
| FieldList.KnownTypesGetDistinctLabels | src/pages/EditProcess.jsx:103-118 | the five known types get five different labels |
| FieldList.RequiredLabel | src/pages/CreateProcess.jsx:470-474 | "Sim" exactly for a required field, "Não" otherwise |
| FieldList.TableRows | src/pages/CreateProcess.jsx:470-474 | one row per field in list order: its name, the label of a known type (or the type itself), and "Sim" exactly for a required field, "Não" otherwise |
| CreateProcessPage.MinEndDate | src/pages/CreateProcess.jsx:181-185 | the day after the start date, when one is set |
| CreateProcessPage.AnalysisDeadline | src/pages/CreateProcess.jsx:191-193 | ten days after the end date |
| CreateProcessPage.ChangeAlert | src/pages/CreateProcess.jsx:256-266 | alerts exactly for an end date on or before the start, or a start on or after the end |
| CreateProcessPage.ApplyChange | src/pages/CreateProcess.jsx:268-272 | each text input sets its own field to its value and the checkbox sets `researchFieldRequired`; every other field is kept |
| CreateProcessPage.SyncAnalysisDeadline | src/pages/CreateProcess.jsx:189-199 | a set end date fixes the deadline; clearing the end date leaves the deadline as it was |
| CreateProcessPage.EndDateGuardIsMinEndDate | src/pages/CreateProcess.jsx:257 | with a start date set, an end date passes exactly when it is on or after minEndDate |
| CreateProcessPage.StartDateGuardIsBeforeEnd | src/pages/CreateProcess.jsx:263 | with an end date set, a start date passes exactly when it is before the end |
| CreateProcessPage.AcceptedChangeKeepsInvariants | src/pages/CreateProcess.jsx:252-273 | every accepted change keeps the start before the end and the deadline ten days after the end |
| CreateProcessPage.EndDateDrivesDeadline | src/pages/CreateProcess.jsx:189-199 | setting the end date moves the deadline to ten days later |
| CreateProcessPage.CreateProcessForm.constructor | src/pages/CreateProcess.jsx:151-161 | the initial form state |
| CreateProcessPage.CreateProcessForm.HandleChange | src/pages/CreateProcess.jsx:252-273 | an alerted change leaves the state; an accepted one applies the change and the deadline effect |
| CreateProcessPage.CreateProcessForm.HandleAddField | src/pages/CreateProcess.jsx:276-289 | the add handler as AddField, with the rest of the state unchanged |
| CreateProcessPage.CreateProcessForm.HandleImportFields | src/pages/CreateProcess.jsx:292-312 | the import handler as ImportFields |
| CreateProcessPage.CreateProcessForm.HandleDeleteField | src/pages/CreateProcess.jsx:315-321 | the delete handler as DeleteField |
| CreateProcessPage.CreateProcessForm.HandleSaveEditedField | src/pages/CreateProcess.jsx:331-342 | replaces the edited row only |
| EditProcessPage.InputName | src/pages/EditProcess.jsx:167-173 | no input writes `id` or the field list |
| EditProcessPage.InputNamesDistinct | src/pages/EditProcess.jsx:167-173 | different inputs write different fields |
| EditProcessPage.SetInput | src/pages/EditProcess.jsx:167-173 | sets the input's field to its value, or to `checked` for the checkbox, and keeps every other field |
| EditProcessPage.MisorderedDatesAccepted | src/pages/EditProcess.jsx:167-173 | the edit page takes an end date before the start date |
| EditProcessPage.EncodeField | src/pages/EditProcess.jsx:218-228 | a stored field descriptor has exactly `name`, `type` and `required` |
| EditProcessPage.EncodeFields | src/pages/EditProcess.jsx:159-160 | the stored list has one descriptor per field, in order |
| EditProcessPage.DecodeFields | src/pages/EditProcess.jsx:138-147 | a decoded list has one field per stored element |
| EditProcessPage.DecodeEncodeFields | src/pages/EditProcess.jsx:138-160 | a field list saved by submit and loaded again is the same list |
| EditProcessPage.SubmitRequest | src/pages/EditProcess.jsx:154-165 | sends the record's `id` and the record without `id`; a record without a string `id` sends nothing |
| EditProcessPage.SubmittedFieldsLoadBack | src/pages/EditProcess.jsx:154-165 | the field list an update stores decodes back, on the next load, to the page's list |
| EditProcessPage.EditProcessForm.constructor | src/pages/EditProcess.jsx:138-147 | the loaded record without its field list, the stored field list decoded, and processHasApplications |
| EditProcessPage.EditProcessForm.ResearchFieldDisabled | src/pages/EditProcess.jsx:293 | the checkbox is disabled exactly when the process has applications |
| EditProcessPage.EditProcessForm.DisabledNotice | src/pages/EditProcess.jsx:297-301 | the notice shows exactly when the checkbox is disabled |
| EditProcessPage.EditProcessForm.HandleChange | src/pages/EditProcess.jsx:167-173 | applies the change without a date check; the disabled checkbox changes nothing |
| EditProcessPage.EditProcessForm.HandleAddField | src/pages/EditProcess.jsx:175-185 | the add handler as AddField |
| EditProcessPage.EditProcessForm.HandleImportFields | src/pages/EditProcess.jsx:187-204 | the import handler as ImportFields |
| EditProcessPage.EditProcessForm.HandleDeleteField | src/pages/EditProcess.jsx:206-211 | the delete handler as DeleteField |
| EditProcessPage.EditProcessForm.HandleSaveEditedField | src/pages/EditProcess.jsx:218-228 | replaces the edited row only |
| EditProcessPage.EditProcessForm.HandleSubmit | src/pages/EditProcess.jsx:154-165 | updateProcess with the record minus `id`; it succeeds exactly when that process exists, and only that process document changes |
| ApplicationForm.ValidateFile | src/pages/Application.jsx:42-57 | no file passes; otherwise a wrong type, then a size over 2 MiB, is reported |
| ApplicationForm.SizeLimitIsInclusive | src/pages/Application.jsx:52 | a file of exactly 2 MiB passes, and one byte more is refused |
| ApplicationForm.TypeErrorComesFirst | src/pages/Application.jsx:48-54 | with both a wrong type and a wrong size, the type is reported |
| ApplicationForm.FirstFile | src/pages/Application.jsx:90-92 | a FileList becomes its first file, and other values are kept |
| ApplicationForm.ReplaceFileLists | src/pages/Application.jsx:88-93 | the loop replaces every FileList by its first file and keeps the keys |
| ApplicationForm.DropUndefined | src/pages/Application.jsx:95-97 | keeps exactly the defined values |
| ApplicationForm.SubmittedData | src/pages/Application.jsx:86-106 | no FileList is left, empty FileLists and undefined values are dropped, and other values are kept |
| ApplicationForm.RulesFor | src/pages/Application.jsx:114-119 | required exactly when the field is, with its message; validateFile exactly for file inputs |
| ApplicationForm.IsResearchAreaSelected | src/pages/Application.jsx:74-76 | false only for the empty selection |
| ApplicationForm.VisibleForm | src/pages/Application.jsx:165-167 | the fields and the submit button show exactly when a research area is selected |
| Signin.TrimStart | src/pages/Signin.jsx:147 | removes exactly the leading whitespace |
| Signin.TrimEnd | src/pages/Signin.jsx:147 | removes exactly the trailing whitespace |
| Signin.Trim | src/pages/Signin.jsx:147 | the result neither starts nor ends with whitespace |
| Signin.SplitSpacesCount | src/pages/Signin.jsx:147 | `split(" ")` gives one piece more than there are spaces |
| Signin.SplitSpacesHaveNoSpace | src/pages/Signin.jsx:147 | no piece of `split(" ")` holds a space |
| Signin.JoinSplitSpaces | src/pages/Signin.jsx:147 | joining the pieces with spaces gives the string back |
| Signin.FullNameRule | src/pages/Signin.jsx:147 | passes exactly when the trimmed name holds a space |
| Signin.SingleWordRefused | src/pages/Signin.jsx:147 | a single word, padded or not, and padding alone are refused |
| Signin.NameError | src/pages/Signin.jsx:145-147 | required first, then the full-name rule |
| Signin.EmailPatternIsValidEmail | src/pages/Signin.jsx:162 | the hand-written test accepts exactly the strings the pattern matches |
| Signin.EmailError | src/pages/Signin.jsx:159-164 | required first, then the pattern, with their messages |
| Signin.PasswordError | src/pages/Signin.jsx:176 | refuses exactly the empty password |
| Signin.PasswordsMatch | src/pages/Signin.jsx:105-109 | a message exactly when the confirmation differs |
| Signin.ConfirmationError | src/pages/Signin.jsx:187-190 | required first, then validatePasswordsMatch |
| Signin.PasswordFieldsPass | src/pages/Signin.jsx:176-190 | both password fields pass exactly when the password is set and repeated |
| Signin.SignupErrorMessage | src/pages/Signin.jsx:119-123 | the email-in-use message exactly for that error code, and the generic message otherwise |
| AuthGuard.Guard | src/components/AuthRequired.jsx:11-23 | loading while the login state is unknown, then home for a logged-out user, then not-authorized on a role mismatch, else allow |
| AuthGuard.RolesMatterOnlyWhenLoggedIn | src/components/AuthRequired.jsx:11-17 | before login, the roles make no difference |
| AuthGuard.NoRoleAllowsEveryUser | src/components/AuthRequired.jsx:19-23 | a route without a role lets every logged-in user through |

## Left out

- Network transport, SDK initialisation, `async`/`await` and the order in
  which concurrent requests finish. Every call is one atomic step.
- The repository's `console` logging and its catch-and-rethrow wrappers.
  A failure is a returned error value.
- `serverTimestamp()`, `new Date()` and the id `addDoc` generates are
  inputs; clocks and randomness are not modelled.
- JavaScript `Date` arithmetic on the create page: time zones, daylight
  saving and `toISOString`. A date is a day number, and "ten days later"
  is `+ 10`.
- minEndDate is computed on the create page, but no input uses it. The
  model keeps it only to relate it to the end-date guard.
- `validateProcessForm` and `sanitizeInput` are not part of this model:
  the modules that define them are not among the modelled files.
- The create page's `handleSubmit` is not modelled beyond the
  createProcess call it ends in (Repository.Store.CreateProcess). It
  first validates and sanitizes the form with the two functions above.
- The create page's `today` reads the clock (`new Date()`). It feeds
  only `validateProcessForm`, so it is not modelled either.
- The edit page imports `hasApplications` from the repository module,
  which exports no such name (its function is `processHasApplications`),
  so the page's call to it is broken. The model takes the value that
  processHasApplications returns, which is evidently what is meant.
- The edit page's state holds the field list inside the record; the model
  keeps the two apart, with the list decoded from the record on load.
- EditProcessPage.EditProcessForm.constructor requires a loaded record
  whose field list is stored as a list of `{name, type, required}`
  descriptors. A process missing from the store (getProcess returning
  null), or a record without such a list, breaks the page and is not
  modelled.
- Documents.IsDocId treats a document id as one path segment, so
  Repository.ProcessKey refuses every name that holds a `/`. The SDK
  accepts a name such as `a/b/c`, which makes a valid path with an even
  number of segments; createProcess then writes a nested document that
  the model cannot name. The other way round, the model accepts the ids
  `.`, `..` and ids of the form `__x__`, which Firestore refuses.
- handleEditField and the `index` property it adds to the edited field
  are not modelled.
- CreateProcessPage.CreateProcessForm.HandleSaveEditedField and
  EditProcessPage.EditProcessForm.HandleSaveEditedField require a row
  index inside the list; the source's out-of-range write, which lengthens
  the array, is not modelled.
- FieldList.ReplaceField requires an index inside the list for the same
  reason.
- The pure reads do not fail on an unusable document id; they treat it
  as a missing key. These are GetProcess, GetApplications and
  GetProcessNews. HasApplications, UserHasApplication, GetUserApplication
  and GetSpecificProcessNews take the process's sub-collection itself,
  so the SDK's throw on an unusable `processId` in the path
  `processes/${processId}/…` is not modelled for them.
- News.SortIsLatestFirst and the sort behind it fix one stable order for a mix of dated and undated news
  items. With NaN comparisons, JavaScript leaves that order to the
  engine.
- News.Later compares `date` strings in code-point order, which matches
  `new Date` only for `YYYY-MM-DD` strings. Other date formats are not
  modelled.
- Repository.Store.AddApplication takes `userEmail` as a parameter. The
  application page passes no e-mail, and what the SDK does with an
  undefined field is not modelled.
- The lifecycle queries list their results in key order. The database
  orders the results of a range filter by the filtered field first; that
  order is not modelled. Processes.InactiveEndedFirst states only that
  the ended query's records come before the not-started query's.
- Firestore's own limits (document size, batch size, reserved field
  names) are not modelled.
- The rendering of the pages (React components, modals, styling,
  navigation) is left out. Only the state and the values the handlers
  compute are modelled.
- Signin.jsx's call into the authentication service and its
  redirect effect are not modelled, nor is the auth listener that
  produces `isLoggedIn` and `userRole`.

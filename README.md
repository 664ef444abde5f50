# ColdConnect core, modelled in Dafny

ColdConnect helps a job seeker write cold emails. A user signs in, finishes an onboarding form (name, e-mail, GitHub and portfolio links, a PDF resume) and records projects. Each project is ingested as six labelled text chunks for similarity search. For a job description the backend matches the user's own projects: it averages the chunk scores per project, ranks the projects by that mean and keeps those above 0.5. The generated emails are stored per sender, listed newest first on the dashboard, edited in a dialog, exported as plain text and sent through Gmail as a base64url-encoded message.

This project models that core as Dafny:

- the Convex mutations and queries on the `users`, `resumeFiles`, `emails` and `projects` tables;
- the project ingestion and matching actions;
- the preparation of a Gmail send request;
- the state handlers of the dashboard, email dialog, onboarding form and resume picker.

Tables and component state that the source updates in place are classes with `modifies` clauses. Every such method is proved against a function of the old state. The derived views (filtering, grouping, ranking, encoding, validation) are functions. Lemmas state what those views mean.

Modules, one per source file, plus shared helpers:

- `Wrappers` (Option, Result) and `Seqs` (small facts about concatenation and slicing);
- `Text`: join and split, trimming, the whitespace-to-dash slug, lowercasing and decimal rendering;
- `Ranking`: a stable descending sort by a real key, with its ordering and permutation lemmas;
- `Projects`, `Users`, `UploadResume`, `ResumeDelete`, `Emails`;
- `Utf8`, `Base64` and `SendEmail`;
- `Dashboard`, `EmailDialog`, `EmailExport`, `Onboarding` and `FileUpload`.

## Model

| member | source | states |
|---|---|---|
| Projects.ProjectsTable.AddProject | convex/projects.js:8-25 | appends exactly one row holding the given fields and the insertion time; the returned id is new in the table |
| Projects.Ingest | convex/projects.js:39-69 | fails with "GEMINI_API_KEY missing." exactly when the key is unset or empty; otherwise the six chunk texts of ChunkTexts, each with the same metadata record (project id, owner, name, category, domain or "General", source "project"), and the reply `Embedded project "<name>" with category "<category>".` |
| Projects.ChunkTexts | convex/projects.js:49-56 | six texts, the i-th starting with the i-th facet label (Project Name, Category, Domain, Description, Skills, Summary) |
| Projects.IngestShape | convex/projects.js:49-65 | every ingestion yields six chunks, whatever the field values, and all six carry equal metadata |
| Projects.IngestSkills | convex/projects.js:54-55 | the skills chunk is the skills joined by ", ", and the summary ends with " using " and the same rendering |
| Projects.IngestDefaultDomain | convex/projects.js:52-63 | without a domain the Domain chunk is "Domain: General", every metadata domain is "General", and the summary mentions "general applications" |
| Projects.MatchProjects | convex/projects.js:80-142 | the grouping loop over a map with invariants, then the average, sort and threshold, yields exactly the reference result `Match`; it fails exactly when the key is missing |
| Projects.OwnedOnly | convex/projects.js:111 | keeps exactly the results whose metadata owner is the caller |
| Projects.AboveThreshold | convex/projects.js:138 | keeps exactly the entries whose mean is strictly above 0.5 |
| Projects.AboveThresholdKeeps | convex/projects.js:133-138 | filtering keeps the descending order and keeps one entry per project |
| Projects.GroupedMeaning | convex/projects.js:108-124 | a project has a map entry iff some owned result names it; the entry's total and count are the sum and number of its owned scores, and its name is the first one seen |
| Projects.FirstSeenMeaning | convex/projects.js:127 | the map's insertion order lists every key exactly once, and every entry has a positive count |
| Projects.AveragedMeaning | convex/projects.js:127-132 | one entry per project; an entry is present iff the project has owned results, and its score is the mean of those scores |
| Projects.RankedMeaning | convex/projects.js:127-142 | the reply is sorted by mean (highest first) with one entry per project; an entry is in it iff the project has owned results and a mean above 0.5 |
| Projects.RankedMember | convex/projects.js:127-142 | membership in the reply, stated directly on scores, names and the threshold |
| Projects.RankedOrder | convex/projects.js:133 | the reply is in non-increasing order of mean, with distinct project ids |
| Projects.OwnerIsolation | convex/projects.js:111 | the reply is the same whether or not other users' chunks are in the results, and every reported project has an owned chunk |
| Projects.ScoresWitness | convex/projects.js:110-116 | a project with owned scores has a result of the caller's that names it |
| Projects.ThreeChunkScores | convex/projects.js:110-124 | chunk scores 0.9, 0.9 and 0.3 of one project are grouped with total 2.1 and count 3 |
| Projects.MeanOfThreeChunks | convex/projects.js:127-138 | those three chunks give one reported project with mean 0.7 |
| Projects.ThresholdExcluded | convex/projects.js:138 | a project whose mean is exactly 0.5 is not reported |
| Projects.JustAboveThresholdIncluded | convex/projects.js:138 | a project whose mean is above 0.5 is reported |
| Projects.HigherMeanFirst | convex/projects.js:133 | of two reported projects, the one with the strictly higher mean comes first |
| Projects.OtherOwnerNeverReported | convex/projects.js:111 | a higher-scoring chunk of another user is never reported |
| Ranking.SortDesc | convex/projects.js:133 | the result is sorted by key, highest first, and is a permutation of the input |
| Ranking.InsertDesc | convex/projects.js:133 | inserting into a sorted sequence keeps it sorted and adds exactly the one element |
| Ranking.SortDescDistinctBy | convex/projects.js:127-133 | sorting keeps distinct projections distinct |
| Ranking.SortedPrefixDominates | components/Dashboard/DashboardPage.jsx:194-200 | in a sorted sequence no element after the first n outranks one of the first n |
| Users.FindByEmail | convex/users.js:14-17 | the index lookup with `.first()` returns the earliest row with that email, or None when no row has it |
| Users.Patch | convex/users.js:19-26 | an existing user's name is replaced, and their email, portfolio and LinkedIn links are kept |
| Users.NewUser | convex/users.js:30-37 | the inserted user has the given name and email, no portfolio or LinkedIn link, and is onboarded iff true was supplied |
| Users.OnboardingStatus | convex/users.js:47-60 | true iff a user with that email exists and is onboarded; false for an unknown email |
| Users.OnboardingStatusRows | convex/users.js:47-60 | the status is true exactly when the earliest row holding the email exists and its flag is set |
| Users.UsersTable.UpdateUser | convex/users.js:12-40 | the table and returned id are those of the reference upsert; the table invariant (ids below the next id, one user per email) is kept |
| Users.UpsertSelf | convex/users.js:19-39 | afterwards the email's user is the patched old user, or the new user when there was none |
| Users.UpsertOthers | convex/users.js:19-39 | every other email's user is unchanged |
| Users.UpsertStatus | convex/users.js:25-60 | the onboarding status afterwards is the supplied flag, else the previous status (false for a new user) |
| Users.UpsertUniqueEmails | convex/users.js:14-39 | when updateUser is the only writer there is at most one user per email |
| Users.PatchSuppliedOnly | convex/users.js:21-26 | an argument that is not supplied leaves its field alone; a supplied false is still written |
| Users.UpsertIdempotent | convex/users.js:12-40 | a second identical call, after the first, leaves the table as the first call left it and returns the same id |
| UploadResume.FindByStorageId | convex/uploadResume.js:37-40 | the index lookup with `.first()`: the earliest row for that storage id, or None when there is none |
| UploadResume.ResumeFilesTable.AddFile | convex/uploadResume.js:18-26 | appends exactly one row with the given file and replies "File added successfully" |
| UploadResume.ResumeFilesTable.UpdateFileName | convex/uploadResume.js:36-50 | an unknown storage id fails with "File not found for the given storageId." and changes nothing; otherwise only the found row's name changes, and the reply is success |
| UploadResume.RenameOnlyName | convex/uploadResume.js:46-48 | a rename changes the found row's name and no other field or row |
| UploadResume.AddedFileFound | convex/uploadResume.js:19-40 | a file added under a new storage id is the row a later rename of that id reaches |
| ResumeDelete.DeleteById | convex/resumeDelete.js:8-36 | a storage failure fails with "Failed to delete file from Convex storage." and changes nothing; otherwise the blob is gone, the first matching record is removed (none removed if none matches), and the reply is success |
| ResumeDelete.RemoveAt | convex/resumeDelete.js:25-28 | removing the row at i keeps the rows before it and shifts the rows after it |
| ResumeDelete.RemoveFirstCounts | convex/resumeDelete.js:20-28 | deleting the found record lowers that storage id's record count by one and leaves every other id's count alone |
| ResumeDelete.CountForNone | convex/resumeDelete.js:25 | when no record matches, the count is zero |
| ResumeDelete.RemoveAtKeepsOthers | convex/resumeDelete.js:25-28 | every other record survives the deletion |
| Emails.EmailsTable.CreateEmail | convex/emails.js:4-25 | appends exactly one row holding the email, stamped with the clock, and returns a fresh id; creation times stay strictly increasing |
| Emails.EmailsByUser | convex/emails.js:27-49 | lists only that sender's emails, never more than the table holds |
| Emails.NewestFirst | convex/emails.js:30-34 | a new email heads its sender's list, and every other sender's list is unchanged |
| Emails.EmailsByUserMembers | convex/emails.js:30-47 | a view is listed iff a row of that sender produced it |
| Emails.EmailsByUserCount | convex/emails.js:30-34 | the list has one entry per email of the sender |
| Emails.EmailsByUserFrom | convex/emails.js:37-47 | every listed view comes from a stored row |
| Emails.EmailsByUserDescending | convex/emails.js:33 | for a table stamped in order, the list runs by strictly decreasing creation time |
| Base64.Char | lib/sendEmail.js:43-46 | a sextet maps to a character of the URL-safe alphabet (in URL mode) and never to the pad |
| Base64.UrlIndex | lib/sendEmail.js:43-46 | a character has an index iff it is in the URL-safe alphabet, and the index maps back to it |
| Base64.EncodeLength | lib/sendEmail.js:43-44 | padded base64 has four characters per started three-byte group |
| Base64.UrlSafeEncode | lib/sendEmail.js:45-46 | replacing '+' and '/' is the same as encoding with the URL-safe alphabet |
| Base64.EncodeRawIsUnpaddedUrl | lib/sendEmail.js:43-47 | the encoded message is the URL-safe encoding with its trailing pads removed |
| Base64.EncodeRawAlphabet | lib/sendEmail.js:43-47 | the encoded message uses only the URL-safe alphabet, with no '+', '/' or '=' |
| Base64.EncodeRawLength | lib/sendEmail.js:43-47 | the encoded length is the ceiling of 4n/3 |
| Base64.DecodeEncode | lib/sendEmail.js:43-44 | decoding the padded encoding gives back the bytes |
| Base64.RoundTrip | lib/sendEmail.js:43-47 | re-padding the raw encoding and decoding it gives back the message bytes |
| Utf8.EncodeChar | lib/sendEmail.js:43 | one to four bytes per code point, one iff ASCII, with continuation bytes after the first |
| Utf8.DecodeEncode | lib/sendEmail.js:43 | decoding the UTF-8 encoding of a string gives the string back |
| Utf8.EncodeConcat | lib/sendEmail.js:43 | encoding distributes over concatenation |
| SendEmail.PrepareSend | lib/sendEmail.js:9-47 | fails with "User not authenticated" for a missing or empty user id; then fails with the no-token message when there are no tokens; otherwise uses the first token and "me", and sends as raw the unpadded URL-safe Base64 of the UTF-8 bytes of the six-line message, a string of URL-safe characters that decodes back to those bytes |
| SendEmail.MessageLines | lib/sendEmail.js:34-41 | when the recipient and subject have no line feed, the first five lines of the message are the four headers and the blank line, and the remaining lines join back into the body |
| Text.SplitJoin | lib/sendEmail.js:41 | splitting a join on a separator that no part contains gives the parts back |
| Text.JoinSplit | components/Dashboard/EmailDialog.jsx:84 | joining the pieces of a split on the same separator gives the text back |
| Text.Trim | components/FileUpload.jsx:127-132 | a non-empty trimmed name neither starts nor ends with whitespace |
| Text.TrimEmpty | components/FileUpload.jsx:127-132 | the trimmed name is empty exactly when the name is all whitespace |
| Text.TrimTrim | components/FileUpload.jsx:127-132 | trimming is idempotent, and the trimmed name is a substring of the name |
| Text.DashSpaceRunsClean | components/Dashboard/DashboardPage.jsx:178 | replacing whitespace runs by dashes leaves no whitespace |
| Text.DashSpaceRunsNoSpace | components/Dashboard/DashboardPage.jsx:178 | a text without whitespace is left unchanged |
| Text.DashSpaceRunsSplit | components/Dashboard/DashboardPage.jsx:178 | a whitespace run between two non-whitespace characters becomes exactly one dash |
| Text.DashSpaceRunsChars | components/Dashboard/DashboardPage.jsx:178 | every character of the result is a dash or a character of the input |
| Text.NatToStringValue | components/FileUpload.jsx:47 | the decimal rendering of the limit consists of digits that read back as the limit |
| EmailExport.DownloadFileName | components/Dashboard/DashboardPage.jsx:178 | the file name is the company slug followed by "-cold-email.txt" |
| EmailExport.SlugShape | components/Dashboard/DashboardPage.jsx:178 | the slug has no whitespace and no upper-case letter; for a name without whitespace it is the lowercased name |
| EmailExport.SlugOfTwoWords | components/Dashboard/DashboardPage.jsx:178 | two words separated by any run of whitespace are joined by exactly one dash |
| EmailExport.PlainTextSubjectInjective | components/Dashboard/EmailDialog.jsx:84 | exports of the same content are equal exactly when their subjects are |
| EmailExport.PlainTextParts | components/Dashboard/DashboardPage.jsx:174 | the exported text is the subject line, a blank line, then the stripped content unchanged |
| Dashboard.SaveEdits | components/Dashboard/DashboardPage.jsx:121-126 | the list keeps its length |
| Dashboard.SaveEditsEffect | components/Dashboard/DashboardPage.jsx:121-126 | the entry with the saved id gets the five edited fields and keeps its id, date and status; every other entry is unchanged |
| Dashboard.SaveUnchangedIsNoOp | components/Dashboard/DashboardPage.jsx:113-128 | saving an entry's own fields leaves the list unchanged when ids are unique |
| Dashboard.RemoveById | components/Dashboard/DashboardPage.jsx:667-669 | deleting never lengthens the list |
| Dashboard.RemoveByIdMembers | components/Dashboard/DashboardPage.jsx:667-669 | the delete keeps exactly the entries with another id |
| Dashboard.RemoveByIdConcat | components/Dashboard/DashboardPage.jsx:667-669 | the delete keeps the order of what remains |
| Dashboard.StatusCounts | components/Dashboard/DashboardPage.jsx:68-75 | sent plus draft never exceed the total |
| Dashboard.DashboardPage.constructor | components/Dashboard/DashboardPage.jsx:46-63 | no emails, no profile and no edited copy, and the profile is not being edited |
| Dashboard.DashboardPage.HandleEmailSave | components/Dashboard/DashboardPage.jsx:113-128 | the list becomes the saved list; the profile state is unchanged |
| Dashboard.DashboardPage.DeleteEmail | components/Dashboard/DashboardPage.jsx:665-669 | the list becomes the list without that id; the profile state is unchanged |
| Dashboard.DashboardPage.GetRecentEmails | components/Dashboard/DashboardPage.jsx:194-201 | sorts the list in place by creation time, newest first, and returns its first min(3, n) entries |
| Dashboard.RecentAreNewest | components/Dashboard/DashboardPage.jsx:194-201 | the returned emails are newest first, are drawn from the list, and none left out is newer than any returned one |
| Dashboard.DashboardPage.HandleProfileEdit | components/Dashboard/DashboardPage.jsx:77-80 | editing starts with the edited copy equal to the profile |
| Dashboard.DashboardPage.HandleProfileSave | components/Dashboard/DashboardPage.jsx:82-86 | the edited copy becomes the profile and editing ends |
| Dashboard.DashboardPage.HandleProfileCancel | components/Dashboard/DashboardPage.jsx:88-91 | the edited copy is reset to the profile and editing ends |
| Dashboard.PreviewShape | components/Dashboard/DashboardPage.jsx:616-619 | content of at most 300 characters is shown whole; longer content is cut at 300 characters and followed by "..." |
| Dashboard.PreviewIdempotent | components/Dashboard/DashboardPage.jsx:616-619 | previewing a preview changes nothing |
| EmailDialog.Dialog.constructor | components/Dashboard/EmailDialog.jsx:8-13 | no email, not editing, and every edited field empty |
| EmailDialog.Dialog.Load | components/Dashboard/EmailDialog.jsx:16-25 | a present email fills the five fields from it and sets edit mode from the prop; an absent one changes nothing |
| EmailDialog.Dialog.HandleEdit | components/Dashboard/EmailDialog.jsx:27-29 | editing starts; nothing else changes |
| EmailDialog.Dialog.HandleSave | components/Dashboard/EmailDialog.jsx:31-36 | editing ends; `onSave` is called iff there is an email and a callback, with the email's id and the current edits |
| EmailDialog.Dialog.ExportText | components/Dashboard/EmailDialog.jsx:84 | the plain text (also copied at line 56) starts with "Subject: " and the edited subject, and ends with the stripped edited content, after a blank line |
| EmailDialog.Dialog.DownloadName | components/Dashboard/EmailDialog.jsx:81-88 | the file name is the slug of the loaded email's company followed by "-cold-email.txt" |
| EmailDialog.DownloadNameIgnoresEdits | components/Dashboard/EmailDialog.jsx:88 | two dialogs showing the same email give the same file name, whatever company each has typed in |
| EmailDialog.ExportUsesEditedSubject | components/Dashboard/EmailDialog.jsx:84 | the export equals that of the email's own subject iff the edited subject is that subject; equal edited subjects give equal exports |
| EmailDialog.Dialog.HandleCancel | components/Dashboard/EmailDialog.jsx:38-47 | editing ends and the fields are reset to the email's own values |
| FileUpload.Uploader.constructor | components/FileUpload.jsx:18-31 | the maxSize prop is kept; no file, no error, not editing, an empty edited name, not saving, and no call to `onFileSelect` yet |
| FileUpload.SpreadLosesPickedFile | components/FileUpload.jsx:90 | as written, the stored and reported object lacks the picked file's name, type and size, so it differs from the intended merge and its size shows as NaN |
| FileUpload.MergeKeepsPickedFile | components/FileUpload.jsx:90 | the intended merge keeps the picked name, type and size and the upload's storage id and URL, and shows the size in megabytes |
| FileUpload.FileCheckPasses | components/FileUpload.jsx:41-52 | a file passes iff its type mentions application/pdf and its size is at most maxSize megabytes |
| FileUpload.TypeCheckedFirst | components/FileUpload.jsx:42-45 | a file of another type is refused for its type, however large it is |
| FileUpload.DefaultLimitBoundary | components/FileUpload.jsx:21-49 | with the default limit, a PDF of exactly 5 MB passes and one byte more is refused with the size message |
| FileUpload.SizeErrorStatesLimit | components/FileUpload.jsx:47 | the size message states the limit in decimal between its prefix and "MB" |
| FileUpload.Uploader.ValidateFile | components/FileUpload.jsx:41-52 | sets the error to the check's verdict and returns true iff there is none; nothing else changes |
| FileUpload.Uploader.HandleFile | components/FileUpload.jsx:86-96 | a refused file only sets the error; a failed upload sets the upload error; a successful one stores the merged file data, sets the edited name and reports the file to the parent |
| FileUpload.Uploader.RemoveFile | components/FileUpload.jsx:110-124 | asks to delete the stored file iff there is one; the file and error are cleared and the parent is told null |
| FileUpload.Uploader.SaveNewName | components/FileUpload.jsx:126-143 | without a stored file or with a blank name nothing happens; otherwise the trimmed name is sent; on success it becomes the file's name and editing ends, on failure the rename error is shown |
| Onboarding.GithubUrlAccepted | components/Onboarding/Onboarding.jsx:95-99 | every http(s) URL of github.com or www.github.com with a user name of letters, digits, '_' or '-' and an optional final slash is accepted |
| Onboarding.GithubUrlOnlyAccepted | components/Onboarding/Onboarding.jsx:95-99 | every accepted non-empty URL has exactly that shape |
| Onboarding.PortfolioUrlShape | components/Onboarding/Onboarding.jsx:101-106 | an accepted non-empty portfolio URL starts with http:// or https:// followed by a letter or digit |
| Onboarding.GithubUrlIsPortfolioUrl | components/Onboarding/Onboarding.jsx:95-106 | a valid GitHub URL is also a valid portfolio URL |
| Onboarding.FormErrorsMeaning | components/Onboarding/Onboarding.jsx:108-125 | GitHub, portfolio and resume errors are set exactly when those checks fail, each with its message; name, email and LinkedIn never err; the form is valid iff all three checks pass |
| Onboarding.OnboardingForm.constructor | components/Onboarding/Onboarding.jsx:28-36 | every text field empty, no resume, and no errors |
| Onboarding.OnboardingForm.ValidateForm | components/Onboarding/Onboarding.jsx:108-125 | builds the errors field by field, matching the reference map, and returns true iff the map is empty |
| Onboarding.OnboardingForm.HandleInputChange | components/Onboarding/Onboarding.jsx:127-132 | sets one text field and clears only that field's error |
| Onboarding.WithTextOnly | components/Onboarding/Onboarding.jsx:127-130 | changing one text field leaves the other fields and the resume alone |
| Onboarding.OnboardingForm.HandleResumeUpload | components/Onboarding/Onboarding.jsx:134-139 | sets the resume and clears only the resume error |
| Onboarding.IsDifferentIff | components/Onboarding/Onboarding.jsx:55-75 | a saved draft is offered iff some form key holds a value that is set, non-empty and different from the default form |
| Onboarding.DefaultDraftNotOffered | components/Onboarding/Onboarding.jsx:55-75 | a draft holding only default or empty values is not offered |
| Onboarding.GithubDraftOffered | components/Onboarding/Onboarding.jsx:55-75 | a draft with a non-empty GitHub URL is offered |

## Left out

- The embedding provider, the vector store and the similarity search are not modelled. Ingestion returns the texts and metadata it would store. Matching takes the store's scored results (at most 15) as input. The enriched job text, which only feeds the embedding, is left out.
- Projects.MatchProjects: scores are exact reals, so JavaScript floating-point rounding of the totals and means is not modelled.
- Projects.MatchProjects: the loop rebuilds the map entry rather than mutating the entry object in place; the values are the same.
- The `projects` table in convex/schema.js has no `category` or `domain` column, although `addProject` inserts both. The model stores the arguments as given.
- Ranking.SortDesc: the sort is stable, as the JavaScript sort is, but only its order and permutation are proved, not its stability.
- SendEmail.PrepareSend: authentication, the identity provider's token call and the Gmail send itself are inputs or left out. The model returns the request it would send. The Gmail reply is not modelled.
- The message is joined with line feeds, as the code does, not with the CRLF that RFC 2822 asks for. Header values containing a line feed are passed through as they are.
- Utf8.DecodeEncode: a JavaScript string is UTF-16; the model works on code points, and lone surrogates (which `Buffer.from` turns into U+FFFD) are not modelled.
- EmailExport.SlugShape: `toLowerCase` is modelled on ASCII letters only.
- Text lengths (the 300-character preview, `substring`) count code points, not UTF-16 units.
- Convex ids are modelled as increasing natural numbers and `_creationTime` as a clock that increases with each insert. A failed mutation changes nothing, as a Convex transaction does.
- `generateUploadUrl`, the upload `fetch`, `getFileURL`, `crypto.randomUUID` and the `createdBy || "anonymous"` default of the upload are not modelled. The upload's outcome is an input to FileUpload.Uploader.HandleFile, and the rename's outcome an input to FileUpload.Uploader.SaveNewName.
- FileUpload.Uploader.HandleFile: stores and reports the intended merge (FileUpload.Merge). The spread as written loses the file's name, type and size; FileUpload.SpreadAsWritten models that, and "## Findings" records it.
- FileUpload.Uploader.RemoveFile: a failure of the delete request is only logged by the source, and the state changes are the same either way, so the model does not distinguish it.
- The markup stripping (`stripHtml`, via the DOM) is an input: the export functions take the already-stripped content.
- The onboarding draft comparison uses `JSON.stringify`; the model compares values, with any non-string value represented by its JSON text. Restoring the draft, saving it to localStorage and the submit handler are not modelled.
- An error cleared by setting it to `undefined` is modelled as removing the key, which reads the same in the form.
- The dashboard's resume upload handler, clipboard copy, email modal opening and closing, date formatting and toasts are UI effects and are not modelled; nor are the Python backend, the generate page, the navbar, the rich text editor or the user sync component.
- Concurrency between requests is not modelled; each mutation runs alone.

## Findings

| source | as written | input that shows it | evidently intended | confidence | as-written member | corrected member |
|---|---|---|---|---|---|---|
| components/FileUpload.jsx:90 | `{ ...selectedFile, ...result }` copies only own enumerable properties. A browser File's `name`, `type` and `size` are prototype getters, so the stored and reported object holds only `storageId` and `fileURL`. Until a rename the name is undefined, and line 254 shows the size as "NaN MB". | any picked PDF, e.g. `report.pdf` of 1048576 bytes uploaded under any storage id | the picked file's name, type and size merged with the upload's storage id and URL | high (not executed) | FileUpload.SpreadAsWritten, FileUpload.SpreadLosesPickedFile | FileUpload.Merge, FileUpload.MergeKeepsPickedFile |

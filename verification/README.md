# Reading log: a Dafny model

A model of the core of a browser-based reading log. The user keeps books, notes
about them and one AI chat per book. Everything lives in a browser database with
three tables: books, notes and chat sessions. Server actions talk to a
generative-AI service and to a book-search service.

The model covers:

- the record types and the version-2 schema upgrade, which gives every legacy
  note a type (`records.dfy`);
- the id-keyed tables, their `bulkPut` upsert and their `toArray` listing
  (`table.dfy`);
- backup export and import, which two panels share (`backup.dfy`);
- the chat panel: lazy session creation, sending a message, the history sent
  to the AI, the context message, image generation, and the timeline of
  messages and images (`chat.dfy`);
- the server actions' decision rules: API key, image model and config, data
  URI, book-search candidates, author fallback (`gateway.dfy`);
- the new-book form (`new_book.dfy`).

Helpers: `wrappers.dfy` holds `Option`/`Result` and JavaScript truthiness of
optional strings. `strings.dfy` holds the string builtins the code relies on:
`trim`, `includes`, `join`, `substring` and integer printing, plus an `indexOf`
used only to read a data URI back in `Gateway.DataUriRoundTrip`.
`ordering.dfy` holds the stable sort by a numeric key that `Array.prototype.sort`
performs.

Structure:

- Every component whose state the code updates is a class: `Records.Database`,
  `Chat.ChatView`, `Backup.DataManagementPanel`, `Backup.SettingsMenuPanel` and
  `NewBook.NewBookForm`. Each method's `ensures` ties the new state to a pure
  function of the old one, and lemmas prove properties of those functions.
- The AI service, the book search, the clock, the id generator and the user's
  answers to dialogs are not modelled. They become parameters: oracle functions
  that return a value or a thrown message, plus plain values.

Two rules of the code are modelled as written:

- The upgrade and the import classify untyped notes differently.
  `Backup.ImportDiffersFromUpgrade` shows a note on which they disagree.
- The history sent with a chat message already ends with that same user
  message, and the message is sent once more as the new turn.
  `Chat.HistoryEndsWithLastMessage` states this.

## Model

| member | source | states |
|---|---|---|
| Records.Migrated | lib/db.ts:61-64 | after the upgrade a note is typed; a typed note is unchanged; only the `type` field can differ |
| Records.MigratedNotes | lib/db.ts:59-66 | the upgraded notes table has the same ids, every note is typed, only types differ, typed notes are unchanged, and an untyped note gets the type the upgrade's rule gives its content |
| Records.MigrationClassifies | lib/db.ts:63 | an untyped note becomes a visualization iff its content starts with `視覚的印象：`, otherwise a plain note; missing content gives a plain note; the image is never consulted |
| Records.MigrationIdempotent | lib/db.ts:59-66 | running the upgrade on its own output changes nothing |
| Records.MigrationNoOpWhenTyped | lib/db.ts:59-61 | on a table whose notes are all typed, the empty table included, the upgrade is a no-op |
| Records.Database.Upgrade | lib/db.ts:57-67 | the loop over the listed notes, updating each untyped one, leaves exactly `MigratedNotes` of the old table; books and sessions are untouched |
| Records.Database.MigrateNote | lib/db.ts:62-64 | the loop body: the listed note, still as stored, is replaced by its migrated form and nothing else changes |
| Records.Database.SetNoteKind | lib/db.ts:62-64 | `update(id, {type})` sets the type of the stored note; an unknown id changes nothing |
| Records.UpdatedSessions | components/ChatInterface.tsx:134-137 | `update(id, {messages, updatedAt})` replaces those two fields of that session only; an unknown id changes nothing |
| Records.UpdateSessionTwice | components/ChatInterface.tsx:150-156 | a second update of the same session overrides the first |
| Records.Database.UpdateSession | components/ChatInterface.tsx:134-137 | the sessions table becomes `UpdatedSessions`; the other tables are unchanged |
| Records.Database.FindSession | components/ChatInterface.tsx:85 | the first-session query returns a stored session of the book, and returns none iff no session of the book is stored |
| Records.Database.AddBook | app/books/new/page.tsx:29-41 | `books.add` stores the record under its fresh id and changes nothing else |
| Records.Database.AddNote | components/ChatInterface.tsx:197-204 | `notes.add` stores the record under its fresh id and changes nothing else |
| Records.Database.AddSession | components/ChatInterface.tsx:97 | `chatSessions.add` stores the session under its fresh id and changes nothing else |
| Records.Database.DeleteNote | components/ChatInterface.tsx:234 | `notes.delete` removes exactly that id |
| Records.Database.PutBooks | components/DataManagement.tsx:77 | `books.bulkPut` is `Table.BulkPut` on the books table |
| Records.Database.PutNotes | components/DataManagement.tsx:92 | `notes.bulkPut` is `Table.BulkPut` on the notes table |
| Records.Database.PutSessions | components/DataManagement.tsx:95 | `chatSessions.bulkPut` is `Table.BulkPut` on the sessions table |
| Table.BulkPut | components/DataManagement.tsx:77 | an upsert: the keys become the old keys plus the rows' ids; records whose id no row carries stay; for each id the last row carrying it is stored |
| Table.BulkPutKeepsKeys | components/DataManagement.tsx:92 | after a put every record is still stored under its own id |
| Table.PutListing | components/DataManagement.tsx:74-96 | putting a complete listing of a table `source` into `store` gives `store + source` |
| Table.BulkPutTwice | components/DataManagement.tsx:76-96 | putting the same rows twice equals putting them once |
| Table.DistinctOnce | components/DataManagement.tsx:14-16 | a listing with distinct ids holds each record at most once |
| Table.ToArray | components/DataManagement.tsx:14-16 | `toArray` lists every record of the table exactly once, each under its id |
| Backup.WithTypes | components/DataManagement.tsx:81-91 | the typed copy of the imported notes keeps their order, types every note, leaves typed notes unchanged, alters no other field, and gives an untyped note the type the import's rule assigns |
| Backup.ImportClassifies | components/DataManagement.tsx:82-88 | in the typed copy, the note at an untyped position becomes a visualization iff it has an image or its content starts with the marker, and a plain note iff neither |
| Backup.ImportAgreesWithUpgrade | components/DataManagement.tsx:84 | on untyped notes without an image, import and upgrade give the same type |
| Backup.ImportDiffersFromUpgrade | components/DataManagement.tsx:84 | a note with an image and unmarked content is a visualization for import and a plain note for the upgrade |
| Backup.WithTypesIdempotent | components/DataManagement.tsx:81-91 | typing twice equals typing once; typing already typed notes is the identity |
| Backup.Imported | components/DataManagement.tsx:76-96 | writing one list: an absent list changes nothing; otherwise the keys become the old keys plus the list's ids, other records stay, and a record whose id the list carries is overwritten by the last row with that id |
| Backup.Count | components/DataManagement.tsx:99 | the reported count is the list's length, or 0 when the list is absent |
| Backup.ImportTwice | components/DataManagement.tsx:76-96 | importing the same list twice equals importing it once |
| Backup.ExportImportRoundTrip | components/DataManagement.tsx:18-26 | importing an exported table into a store upserts it (`store + source`), so into an empty store it restores the table |
| Backup.ExportImportNotes | components/DataManagement.tsx:74-96 | with every stored note typed, the round trip also holds through the typing step |
| Backup.ExportIsAccepted | components/DataManagement.tsx:59-61 | every export passes the import's validity check |
| Backup.ImportInto | components/DataManagement.tsx:50-112 | no file: nothing happens; an unreadable or invalid file (no `data`, or an empty or missing version): failure with no write; declined: no write; otherwise each present non-empty list is upserted (notes typed first) and the counts are reported |
| Backup.ExportBundle | components/DataManagement.tsx:14-26 | the bundle has version `1.0`, the given date, and a complete listing of all three tables |
| Backup.ExportImportRestores | components/DataManagement.tsx:14-96 | exporting, then importing with confirmation into an empty database, reproduces all three tables when every note is typed |
| Backup.DataManagementPanel.constructor | components/DataManagement.tsx:7-8 | neither exporting nor importing at first |
| Backup.DataManagementPanel.HandleExport | components/DataManagement.tsx:10-48 | the file is produced iff the download succeeds, and it is an export of the current tables; exporting ends either way |
| Backup.DataManagementPanel.HandleImport | components/DataManagement.tsx:50-112 | the effects of `ImportInto`; importing ends unless no file was chosen |
| Backup.SettingsMenuPanel.constructor | components/SettingsMenu.tsx:9-12 | menu closed, not exporting or importing, key dialog hidden |
| Backup.SettingsMenuPanel.Toggle | components/SettingsMenu.tsx:136 | the gear button flips the menu |
| Backup.SettingsMenuPanel.ClickOutside | components/SettingsMenu.tsx:16-26 | a press outside closes the menu |
| Backup.SettingsMenuPanel.OpenApiKeySettings | components/SettingsMenu.tsx:161-164 | the key entry closes the menu and opens the key dialog |
| Backup.SettingsMenuPanel.HandleExport | components/SettingsMenu.tsx:28-67 | the same export as the data-management panel, and the menu closes exactly when the export is delivered |
| Backup.SettingsMenuPanel.HandleImport | components/SettingsMenu.tsx:69-131 | the same contract as `DataManagementPanel.HandleImport`; the menu state is untouched |
| Chat.Greeting | components/ChatInterface.tsx:92 | the seeded greeting starts with the marker the history filter looks for |
| Chat.SeedIsGreeting | components/ChatInterface.tsx:143 | the seeded greeting is a message the filter drops |
| Chat.WithoutGreetings | components/ChatInterface.tsx:143 | exactly the model messages containing the greeting marker are dropped |
| Chat.WithoutGreetingsAppend | components/ChatInterface.tsx:143 | the filter distributes over concatenation, so kept messages keep their order |
| Chat.UserMessagesKept | components/ChatInterface.tsx:143 | no user message is ever dropped, and their order is kept |
| Chat.ToHistory | components/ChatInterface.tsx:144 | each message becomes a turn with the same role and text, in order |
| Chat.HistoryForApi | components/ChatInterface.tsx:140-145 | the history is the context message followed, in order, by one turn per kept message with that message's role and text |
| Chat.HistoryEndsWithLastMessage | components/ChatInterface.tsx:140-147 | with the user's message appended, that message is also the last turn of the history |
| Chat.ContextMessageShape | components/ChatInterface.tsx:112-119 | a user turn that opens with title and author (`不明` if none); the status line comes right after it only for a known status; the notes section, joined by newlines, is at the end only when there are notes; the length is exactly the sum of the parts present, so nothing else is in between; with no notes it is header plus status line, with no status header plus notes section; the header alone iff neither |
| Chat.NotesOfBook | components/ChatInterface.tsx:70 | the notes with the book's id and nothing else, each as often as the listing holds it |
| Chat.NotesOfBookAppend | components/ChatInterface.tsx:70 | the filter distributes over concatenation, so the notes keep the listing's order |
| Chat.NoteTexts | components/ChatInterface.tsx:71 | one text per note, in order: the note's content, or empty text when it has none |
| Chat.VisualizationsIn | components/ChatInterface.tsx:37 | exactly the notes of the book typed as visualizations, each as often as the listing holds it |
| Chat.VisualizationsInAppend | components/ChatInterface.tsx:37 | the filter distributes over concatenation, so the notes keep the listing's order |
| Chat.Visualizations | components/ChatInterface.tsx:35-54 | those notes, sorted ascending by creation time |
| Chat.VisualizationsOfStore | components/ChatInterface.tsx:37 | over a listing of the notes table, a stored note is in the query iff it belongs to the book and is a visualization, each result is the stored record, and none appears twice |
| Chat.MessageItems | components/ChatInterface.tsx:244-249 | the item at position `i` is the `i`-th message |
| Chat.VisualizationItems | components/ChatInterface.tsx:250-255 | the item at position `i` is the `i`-th visualization |
| Chat.Timeline | components/ChatInterface.tsx:243-260 | the timeline is sorted by time, holds the messages and visualizations as a multiset, and its length is the sum of the two counts |
| Chat.TimelineHasEveryItem | components/ChatInterface.tsx:243-255 | every message, with its position, and every visualization is on the timeline |
| Chat.TimelineHasOnlyItems | components/ChatInterface.tsx:243-255 | nothing else is on the timeline |
| Chat.TimelineTiesKeepOrder | components/ChatInterface.tsx:256-260 | on equal times the order is kept: messages in transcript order, all before the visualizations |
| Chat.SeedSession | components/ChatInterface.tsx:87-96 | a new session holds exactly one model message, the greeting for the book's title at the seeding time, and is updated at that time |
| Chat.InitializedSessions | components/ChatInterface.tsx:84-98 | afterwards the book has a session; one is added only when none exists |
| Chat.InitSessionIdempotent | components/ChatInterface.tsx:85-86 | running the initialisation again changes nothing |
| Chat.InitSessionAtMostOne | components/ChatInterface.tsx:85-97 | with a fresh id, it keeps at most one session per book |
| Chat.TimeoutMessage | components/ChatInterface.tsx:19 | for a whole number of seconds, the rejection text starts with `タイムアウト（` |
| Chat.ChatTimeoutText | components/ChatInterface.tsx:147 | the chat limit of 60000 ms gives `タイムアウト（60秒）` |
| Chat.SendResult | components/ChatInterface.tsx:147-164 | a reply is appended iff the action returned non-empty text; every error text is non-empty; a timeout shows the timeout text |
| Chat.SentTranscript | components/ChatInterface.tsx:129-156 | the earlier messages stay in place, then the user's message, then the reply when there is one |
| Chat.VisualizeResult | components/ChatInterface.tsx:190-226 | an image is stored iff the action returned a non-empty image; every error text is non-empty; a timeout gives the server-busy text |
| Chat.VisualizationNote | components/ChatInterface.tsx:197-204 | the added note is a visualization holding the caption as content and the image |
| Chat.ChatView.constructor | components/ChatInterface.tsx:25-31 | empty input, not loading, no error, no image, no book data |
| Chat.ChatView.CanSend | components/ChatInterface.tsx:240 | sending is enabled iff not loading and the input has a non-white-space character |
| Chat.ChatView.FetchBookData | components/ChatInterface.tsx:57-74 | author and status label come from the stored book when there is one; the note texts are those of the book's notes |
| Chat.ChatView.InitSession | components/ChatInterface.tsx:84-98 | the sessions table becomes `InitializedSessions` of the old one |
| Chat.ChatView.HandleSend | components/ChatInterface.tsx:121-167 | blank input or no session: nothing changes; otherwise the user's message is stored before the call, then the reply is appended or the error shown; input cleared; loading ends |
| Chat.ChatView.HandleVisualize | components/ChatInterface.tsx:169-230 | no session: error only; success adds exactly one visualization note under the fresh id; failure adds none and shows the error |
| Chat.ChatView.HandleDeleteVisualization | components/ChatInterface.tsx:232-236 | the note is deleted iff the user confirms |
| Ordering.SortBy | components/ChatInterface.tsx:40-44 | the sort is a permutation of its input and ascending by key |
| Ordering.SortByIsStable | components/ChatInterface.tsx:256-260 | the sort is stable: for every key, elements with that key keep their order |
| Gateway.ResolveApiKey | app/actions/ai.ts:7-13 | the cookie key if non-empty, else the environment key; an error with the fixed message iff neither is present |
| Gateway.SdkHistory | app/actions/ai.ts:24-27 | same length, same roles, one text part per turn |
| Gateway.SdkHistoryRoundTrip | app/actions/ai.ts:24-27 | the SDK history reads back to the original history: order, roles and texts are kept |
| Gateway.GenerateChatResponse | app/actions/ai.ts:18-37 | no key: the missing-key error; otherwise the model's text, or a non-empty error instead of a throw |
| Gateway.ImageModelConfig | app/actions/ai.ts:45-75 | `pro-banana` selects the pro model, anything else the flash model; only `nano-banana`, the default, adds `responseModalities ['IMAGE']` |
| Gateway.DataUri | app/actions/ai.ts:97 | the image starts with `data:` and is 13 characters longer than MIME type and data together; `DataUriRoundTrip` shows both parts are recoverable |
| Gateway.DataUriRoundTrip | app/actions/ai.ts:97 | the MIME type and the data can be recovered from the URI when the type has no `;` |
| Gateway.UnsupportedFormatError | app/actions/ai.ts:103-105 | the error starts with `Format not supported.` |
| Gateway.GenerateImageFromImpression | app/actions/ai.ts:39-111 | an image iff a key exists, every step returns and the part has inline data; the image is its data URI, the caption the translation; a part without inline data gives the format error; every error is a non-empty value |
| Gateway.DescriptionText | app/actions/ai.ts:125 | `N/A` iff no description, otherwise its first 100 characters plus `...` |
| Gateway.TitleText | app/actions/ai.ts:125 | the hit's title, or `undefined` as a template literal prints a missing one |
| Gateway.AuthorsText | app/actions/ai.ts:124 | the authors joined with `, `, `Unknown` when the list is missing, empty text for an empty list |
| Gateway.CandidateLine | app/actions/ai.ts:125 | the line starts with the 1-based number, `. Title: `, the title text, `, Author(s): `, the authors text and `, Description: `, and ends with the description text, and its length is exactly those two together |
| Gateway.CandidateLines | app/actions/ai.ts:122-126 | one line per hit, in order, the `i`-th being `CandidateLine` of position `i`, so numbered from 1 |
| Gateway.AuthorFallback | app/actions/ai.ts:145-155 | the answer is kept unless it is empty or over 50 characters and the first hit lists authors, which are then joined with `, ` |
| Gateway.RetryAuthor | app/actions/ai.ts:157-170 | after a failure, an author iff the one-hit search returns a first hit that lists authors, and then it is those authors joined with `, ` |
| Gateway.FindAuthor | app/actions/ai.ts:113-171 | no hits: no author; a failed search, a missing key or a failed AI call: the one-hit retry; otherwise the fallback applied to the trimmed answer |
| Strings.Trim | components/ChatInterface.tsx:240 | the result is a window of the input with only white space before and after it and none at either end, and it is empty iff the input is all white space |
| Strings.Join | components/ChatInterface.tsx:116 | empty for no parts; otherwise starts with the first part and has the parts' total length plus the separators |
| Strings.JoinSnoc | app/actions/ai.ts:124 | joining one more part adds the separator and that part at the end |
| Strings.DecimalRoundTrip | app/actions/ai.ts:125 | the printed numeral reads back as the number |
| NewBook.NewBookRecord | app/books/new/page.tsx:29-41 | the inserted book has the form's title, author and status, progress 0 of 0 pages, no cover or rating, and added and updated times taken from one clock reading |
| NewBook.NewBookForm.constructor | app/books/new/page.tsx:11-14 | empty title and author, status `want_to_read`, not searching |
| NewBook.NewBookForm.HandleTitleBlur | app/books/new/page.tsx:16-25 | the lookup runs iff the title is non-empty and the author empty; only a non-empty answer fills the author; searching ends after an answer, and a rejected lookup leaves the author empty and the form still searching |
| NewBook.NewBookForm.Submit | app/books/new/page.tsx:27-43 | with both required fields filled, exactly one book, `NewBookRecord`, is added under the fresh id; otherwise nothing |

## Left out

- The browser database library and its live queries. Tables are maps from id
  to record. Queries are filters over a listing whose order is left open.
  Live re-rendering is not modelled.
- Store failures, such as a rejected `bulkPut` after an earlier table was
  already written. Every write succeeds.
- The timeout race and its timers. A call that times out is one more outcome
  (`Chat.Call.TimedOut`). The panel ignores a late answer, and that is not
  modelled.
- The AI SDK and the book-search `fetch`. They are oracle functions that return
  a value or a thrown message. The English prompt texts sent to the AI are not
  modelled.
- `JSON.parse`, `file.text()`, the Blob download, `confirm`, `alert`,
  `window.location.reload`, scrolling and console logging. The user's
  confirmation and the download's success are parameters. A file that cannot
  be read or parsed is `Backup.ImportInput.Unreadable`.
- Records that do not fit the declared types. Examples: a note type that is an
  empty or unknown string, a missing `volumeInfo`, a bundle list that is not an
  array. Types are datatypes, and a missing type is `None`.
- `Date` values. Timestamps are integers, and the clock is a parameter. An
  export written with `JSON.stringify` and read back with `JSON.parse` turns
  every `Date` field into an ISO string, which the chat panel converts back
  when it reads the times. Backup.ExportImportRestores: the tables are equal
  only up to that conversion, which integer timestamps do not show.
- NewBook.NewBookRecord, Chat.SeedSession, Chat.ChatView.HandleSend: one clock
  reading stands for consecutive `new Date()` calls. The code reads the clock
  twice (app/books/new/page.tsx:39-40; components/ChatInterface.tsx:93 and 95,
  131 and 136, 153 and 155),
  and the two readings can differ by a tick. The model gives both fields the
  same time.
- Id generation: lib/utils.ts is not part of this model. A fresh id is a
  parameter, required to be unused.
- Cookie storage, the API key dialog, presentation components and the service
  worker.
- Concurrent writers and cross-tab races. Chat.InitSessionAtMostOne assumes one
  run of the session effect at a time: when the effect runs twice and both
  `first()` queries finish before either `add`, the code stores two sessions
  for the book.
- The debug re-query after an image is stored, which only logs.
- Gateway.DescriptionText: counts Unicode characters, not UTF-16 code units as
  `substring` does. The two differ only for characters outside the Basic
  Multilingual Plane.
- Chat.TimeoutMessage: defined for whole seconds only. JavaScript would print a
  fraction for other limits, but the code passes only 60000 and 120000.
- Gateway.UnsupportedFormatError: the 500-character cut of the part's JSON
  counts Unicode characters, not UTF-16 code units as `substring` does.
- Gateway.AuthorFallback: the 50-character limit is also counted in Unicode
  characters rather than UTF-16 code units.
- Chat.ChatView.HandleSend: loading and the cleared input during the call are
  not observable in the contract. The contract gives the state after the call
  and, as `beforeCall`, the sessions table at the moment of the call.
- Chat.ChatView.HandleSend: the guard is written as "the input is all white
  space". `Strings.Trim` proves this is the same as an empty `trim()`.

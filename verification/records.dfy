/** The records of the reading log (lib/db.ts), the browser database that holds
    them in three tables, and the version-2 schema upgrade that gives every
    legacy note a type. */
module Records {
  import opened Wrappers
  import Table

  /** A book's reading status: one of exactly three values. */
  datatype Status = WantToRead | Reading | Completed

  /** The unit a book's progress is counted in: pages or percent. */
  datatype ProgressUnit = Page | Percent

  datatype Progress = Progress(current: int, total: int, unit: ProgressUnit)

  /** Timestamps (`Date` in the application) are integers here. */
  datatype Book = Book(
    id: string,
    title: string,
    author: string,
    coverUrl: Option<string>,
    status: Status,
    progress: Progress,
    rating: Option<int>,
    addedAt: int,
    updatedAt: int)

  /** A user-written memo or an AI-generated visualization. */
  datatype NoteKind = PlainNote | Visualization

  /** A note. `kind` is `None` for a note written before notes had a type, and
      `content` is `None` when a legacy record lacks it. */
  datatype Note = Note(
    id: string,
    bookId: string,
    content: Option<string>,
    kind: Option<NoteKind>,
    createdAt: int,
    aiGeneratedImage: Option<string>)

  datatype Role = User | Model

  datatype Message = Message(role: Role, content: string, timestamp: int)

  datatype ChatSession = ChatSession(id: string, bookId: string, messages: seq<Message>, updatedAt: int)

  function BookId(b: Book): string { b.id }
  function NoteId(n: Note): string { n.id }
  function SessionId(s: ChatSession): string { s.id }

  /** The content prefix that marked visualization notes before notes had a type. */
  const VisualizationMarker: string := "視覚的印象："

  /** `note.content?.startsWith('視覚的印象：')`: false when there is no content. */
  predicate HasMarker(content: Option<string>) {
    content.Some? && VisualizationMarker <= content.value
  }

  /** The version-2 upgrade's rule for an untyped note: it looks at the content
      prefix and nothing else. */
  function MigrationKind(n: Note): NoteKind {
    if HasMarker(n.content) then Visualization else PlainNote
  }

  /** One note after the upgrade: typed notes stay as they are, an untyped note
      gets the type `MigrationKind` gives it, and no other field changes. */
  function Migrated(n: Note): (r: Note)
    ensures r.kind.Some?
    ensures r == n.(kind := r.kind)
    ensures n.kind.Some? ==> r == n
  {
    if n.kind.Some? then n else n.(kind := Some(MigrationKind(n)))
  }

  /** The notes table after the upgrade: the same ids, every note typed, and only
      the type of a note may differ from before. */
  function MigratedNotes(notes: map<string, Note>): (r: map<string, Note>)
    ensures r.Keys == notes.Keys
    ensures forall id :: id in r ==> r[id].kind.Some?
    ensures forall id :: id in r ==> r[id] == notes[id].(kind := r[id].kind)
    ensures forall id :: id in r && notes[id].kind.Some? ==> r[id] == notes[id]
    ensures forall id :: id in r && notes[id].kind.None? ==> r[id].kind == Some(MigrationKind(notes[id]))
  {
    map id | id in notes :: Migrated(notes[id])
  }

  /** An untyped note becomes a visualization exactly when its content starts
      with the marker; missing content makes it a plain note, and the attached
      image is never consulted. */
  lemma MigrationClassifies(n: Note, image: Option<string>)
    requires n.kind.None?
    ensures Migrated(n).kind == Some(Visualization) <==> HasMarker(n.content)
    ensures Migrated(n).kind == Some(PlainNote) <==> !HasMarker(n.content)
    ensures n.content.None? ==> Migrated(n).kind == Some(PlainNote)
    ensures Migrated(n.(aiGeneratedImage := image)).kind == Migrated(n).kind
  {
  }

  /** Running the upgrade on its own output changes nothing. */
  lemma MigrationIdempotent(notes: map<string, Note>)
    ensures MigratedNotes(MigratedNotes(notes)) == MigratedNotes(notes)
  {
  }

  /** On a table whose notes are all typed (an empty table included) the upgrade
      is a no-op. */
  lemma MigrationNoOpWhenTyped(notes: map<string, Note>)
    requires forall id :: id in notes ==> notes[id].kind.Some?
    ensures MigratedNotes(notes) == notes
  {
  }

  /** `chatSessions.update(id, {messages, updatedAt})`: the session stored under
      `id`, if there is one, gets the new messages and time stamp; nothing else
      changes, and an unknown id changes nothing. */
  function UpdatedSessions(sessions: map<string, ChatSession>, id: string, messages: seq<Message>, at: int)
    : (r: map<string, ChatSession>)
    ensures r.Keys == sessions.Keys
    ensures forall k :: k in r && k != id ==> r[k] == sessions[k]
    ensures id in r ==> r[id] == sessions[id].(messages := messages, updatedAt := at)
  {
    if id in sessions then sessions[id := sessions[id].(messages := messages, updatedAt := at)] else sessions
  }

  /** A second update of the same session overrides the first. */
  lemma UpdateSessionTwice(sessions: map<string, ChatSession>, id: string,
                           first: seq<Message>, firstAt: int, second: seq<Message>, secondAt: int)
    ensures UpdatedSessions(UpdatedSessions(sessions, id, first, firstAt), id, second, secondAt)
      == UpdatedSessions(sessions, id, second, secondAt)
  {
  }

  /** Some stored session belongs to the book. */
  predicate HasSessionFor(sessions: map<string, ChatSession>, bookId: string) {
    exists id :: id in sessions && sessions[id].bookId == bookId
  }

  /** Upgrade progress over the listing `rows` of the notes table: the first
      `i` listed notes are migrated in `notes`, the others are as listed. */
  ghost predicate UpgradedUpTo(notes: map<string, Note>, rows: seq<Note>, i: int)
    requires 0 <= i <= |rows|
  {
    && (forall j :: 0 <= j < i ==> rows[j].id in notes && notes[rows[j].id] == Migrated(rows[j]))
    && (forall j :: i <= j < |rows| ==> rows[j].id in notes && notes[rows[j].id] == rows[j])
  }

  /** Migrating the next listed note advances the upgrade by one. */
  lemma UpgradeStep(notes: map<string, Note>, rows: seq<Note>, i: int)
    requires 0 <= i < |rows| && Table.DistinctIds(rows, NoteId)
    requires UpgradedUpTo(notes, rows, i)
    ensures rows[i].id in notes && notes[rows[i].id] == rows[i]
    ensures UpgradedUpTo(notes[rows[i].id := Migrated(rows[i])], rows, i + 1)
  {
    var after := notes[rows[i].id := Migrated(rows[i])];
    forall j | 0 <= j < |rows| && j != i
      ensures rows[j].id in after && after[rows[j].id] == notes[rows[j].id]
    {
      if j < i {
        assert NoteId(rows[j]) != NoteId(rows[i]);
      } else {
        assert NoteId(rows[i]) != NoteId(rows[j]);
      }
    }
  }

  /** Once every listed note is migrated, the table is `MigratedNotes` of the
      table that was listed. */
  lemma UpgradeDone(before: map<string, Note>, after: map<string, Note>, rows: seq<Note>)
    requires Table.Lists(rows, before, NoteId)
    requires after.Keys == before.Keys
    requires UpgradedUpTo(after, rows, |rows|)
    ensures after == MigratedNotes(before)
  {
    forall id | id in after
      ensures after[id] == MigratedNotes(before)[id]
    {
      var j :| 0 <= j < |rows| && NoteId(rows[j]) == id;
    }
  }

  /** The browser database: three tables keyed by record id. */
  class Database {
    var books: map<string, Book>
    var notes: map<string, Note>
    var chatSessions: map<string, ChatSession>

    /** Every record is stored under its own id. */
    ghost predicate Valid()
      reads this
    {
      && Table.KeyedById(books, BookId)
      && Table.KeyedById(notes, NoteId)
      && Table.KeyedById(chatSessions, SessionId)
    }

    constructor ()
      ensures Valid()
      ensures books == map[] && notes == map[] && chatSessions == map[]
    {
      books, notes, chatSessions := map[], map[], map[];
    }

    /** `notes.update(id, {type})`: gives the stored note `id` the type `kind`;
        an unknown id changes nothing. */
    method SetNoteKind(id: string, kind: NoteKind)
      requires Valid()
      modifies this
      ensures Valid()
      ensures notes == if id in old(notes) then old(notes)[id := old(notes)[id].(kind := Some(kind))] else old(notes)
      ensures books == old(books) && chatSessions == old(chatSessions)
    {
      if id in notes {
        notes := notes[id := notes[id].(kind := Some(kind))];
      }
    }

    /** The body of the upgrade loop for one listed note: an untyped note gets
        the type `MigrationKind` gives it; a typed one is left alone. */
    method MigrateNote(note: Note)
      requires Valid() && note.id in notes && notes[note.id] == note
      modifies this
      ensures Valid()
      ensures notes == old(notes)[note.id := Migrated(note)]
      ensures books == old(books) && chatSessions == old(chatSessions)
    {
      if note.kind.None? {
        SetNoteKind(note.id, MigrationKind(note));
      }
    }

    /** The version-2 upgrade: reads every note, then updates each note that has
        no type, one at a time. Afterwards the notes table is `MigratedNotes` of
        the old one and the other two tables are untouched. */
    method Upgrade()
      requires Valid()
      modifies this
      ensures Valid()
      ensures notes == MigratedNotes(old(notes))
      ensures books == old(books) && chatSessions == old(chatSessions)
    {
      var rows := Table.ToArray(notes, NoteId);
      var i := 0;
      while i < |rows|
        invariant 0 <= i <= |rows|
        invariant Valid()
        invariant books == old(books) && chatSessions == old(chatSessions)
        invariant notes.Keys == old(notes).Keys
        invariant UpgradedUpTo(notes, rows, i)
      {
        UpgradeStep(notes, rows, i);
        MigrateNote(rows[i]);
        i := i + 1;
      }
      UpgradeDone(old(notes), notes, rows);
    }

    /** `table.add(record)` on the books table, with an id no stored book has. */
    method AddBook(b: Book)
      requires Valid() && b.id !in books
      modifies this
      ensures Valid()
      ensures books == old(books)[b.id := b]
      ensures notes == old(notes) && chatSessions == old(chatSessions)
    {
      books := books[b.id := b];
    }

    /** `table.add(record)` on the notes table, with an id no stored note has. */
    method AddNote(n: Note)
      requires Valid() && n.id !in notes
      modifies this
      ensures Valid()
      ensures notes == old(notes)[n.id := n]
      ensures books == old(books) && chatSessions == old(chatSessions)
    {
      notes := notes[n.id := n];
    }

    /** `table.add(record)` on the chat sessions table, with a fresh id. */
    method AddSession(s: ChatSession)
      requires Valid() && s.id !in chatSessions
      modifies this
      ensures Valid()
      ensures chatSessions == old(chatSessions)[s.id := s]
      ensures books == old(books) && notes == old(notes)
    {
      chatSessions := chatSessions[s.id := s];
    }

    /** `notes.delete(id)`: removes the note stored under `id`, if any. */
    method DeleteNote(id: string)
      requires Valid()
      modifies this
      ensures Valid()
      ensures notes == old(notes) - {id}
      ensures books == old(books) && chatSessions == old(chatSessions)
    {
      notes := notes - {id};
    }

    /** `books.bulkPut(rows)`. */
    method PutBooks(rows: seq<Book>)
      requires Valid()
      modifies this
      ensures Valid()
      ensures books == Table.BulkPut(old(books), rows, BookId)
      ensures notes == old(notes) && chatSessions == old(chatSessions)
    {
      Table.BulkPutKeepsKeys(books, rows, BookId);
      books := Table.BulkPut(books, rows, BookId);
    }

    /** `notes.bulkPut(rows)`. */
    method PutNotes(rows: seq<Note>)
      requires Valid()
      modifies this
      ensures Valid()
      ensures notes == Table.BulkPut(old(notes), rows, NoteId)
      ensures books == old(books) && chatSessions == old(chatSessions)
    {
      Table.BulkPutKeepsKeys(notes, rows, NoteId);
      notes := Table.BulkPut(notes, rows, NoteId);
    }

    /** `chatSessions.bulkPut(rows)`. */
    method PutSessions(rows: seq<ChatSession>)
      requires Valid()
      modifies this
      ensures Valid()
      ensures chatSessions == Table.BulkPut(old(chatSessions), rows, SessionId)
      ensures books == old(books) && notes == old(notes)
    {
      Table.BulkPutKeepsKeys(chatSessions, rows, SessionId);
      chatSessions := Table.BulkPut(chatSessions, rows, SessionId);
    }

    /** `chatSessions.update(id, {messages, updatedAt})`. */
    method UpdateSession(id: string, messages: seq<Message>, at: int)
      requires Valid()
      modifies this
      ensures Valid()
      ensures chatSessions == UpdatedSessions(old(chatSessions), id, messages, at)
      ensures books == old(books) && notes == old(notes)
    {
      chatSessions := UpdatedSessions(chatSessions, id, messages, at);
    }

    /** `chatSessions.where("bookId").equals(bookId).first()`: a stored session of
        the book when there is one, found by scanning the table. */
    method FindSession(bookId: string) returns (found: Option<ChatSession>)
      requires Valid()
      ensures found.Some? ==> found.value.id in chatSessions && chatSessions[found.value.id] == found.value
      ensures found.Some? ==> found.value.bookId == bookId
      ensures found.None? <==> !HasSessionFor(chatSessions, bookId)
    {
      var rest := chatSessions.Keys;
      found := None;
      while rest != {}
        invariant rest <= chatSessions.Keys
        invariant forall id :: id in chatSessions && id !in rest ==> chatSessions[id].bookId != bookId
        decreases rest
      {
        var id :| id in rest;
        if chatSessions[id].bookId == bookId {
          found := Some(chatSessions[id]);
          return;
        }
        rest := rest - {id};
      }
    }
  }
}

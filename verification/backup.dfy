/** Backup and restore of the whole database (components/DataManagement.tsx and
    components/SettingsMenu.tsx, whose export and import handlers are the same
    code). Export lists the three tables into a version-1.0 bundle; import
    checks the bundle, asks for confirmation, types legacy notes and upserts
    every non-empty list into its table. */
module Backup {
  import opened Wrappers
  import opened Records
  import Table

  const FormatVersion: string := "1.0"

  /** The `data` object of a bundle; each list may be missing. */
  datatype BundleData = BundleData(
    books: Option<seq<Book>>,
    notes: Option<seq<Note>>,
    chatSessions: Option<seq<ChatSession>>)

  /** A backup file after parsing. */
  datatype Bundle = Bundle(version: Option<string>, exportDate: string, data: Option<BundleData>)

  /** The import's validity check: a `data` object and a non-empty version. */
  predicate Accepts(b: Bundle) {
    b.data.Some? && Present(b.version)
  }

  /** The type import gives an untyped note: a visualization when it has an
      image or its content starts with the marker. */
  function ImportKind(n: Note): NoteKind {
    if Present(n.aiGeneratedImage) || HasMarker(n.content) then Visualization else PlainNote
  }

  /** The notes as import stores them: typed notes unchanged, an untyped note
      given `ImportKind`, nothing else altered, the order kept. */
  function WithTypes(notes: seq<Note>): (r: seq<Note>)
    ensures |r| == |notes|
    ensures forall i :: 0 <= i < |r| ==> r[i].kind.Some? && r[i] == notes[i].(kind := r[i].kind)
    ensures forall i :: 0 <= i < |r| && notes[i].kind.Some? ==> r[i] == notes[i]
    ensures forall i :: 0 <= i < |r| && notes[i].kind.None? ==> r[i].kind == Some(ImportKind(notes[i]))
  {
    seq(|notes|, i requires 0 <= i < |notes| =>
      if notes[i].kind.Some? then notes[i] else notes[i].(kind := Some(ImportKind(notes[i]))))
  }

  /** An untyped imported note becomes a visualization exactly when it has an
      image or its content starts with the marker. */
  lemma ImportClassifies(notes: seq<Note>, i: int)
    requires 0 <= i < |notes| && notes[i].kind.None?
    ensures var n := notes[i];
      WithTypes(notes)[i].kind == Some(Visualization) <==> Present(n.aiGeneratedImage) || HasMarker(n.content)
    ensures var n := notes[i];
      WithTypes(notes)[i].kind == Some(PlainNote) <==> !Present(n.aiGeneratedImage) && !HasMarker(n.content)
  {
  }

  /** Import and the version-2 upgrade agree on every untyped note without an
      image. */
  lemma ImportAgreesWithUpgrade(n: Note)
    requires n.kind.None? && !Present(n.aiGeneratedImage)
    ensures WithTypes([n])[0] == Migrated(n)
  {
  }

  /** ...but not on one with an image and unmarked content: import makes it a
      visualization, the upgrade a plain note. */
  lemma ImportDiffersFromUpgrade()
    ensures var n := Note("n1", "b1", Some("memo"), None, 0, Some("data:image/png;base64,AA"));
      WithTypes([n])[0].kind == Some(Visualization) && Migrated(n).kind == Some(PlainNote)
  {
    var n := Note("n1", "b1", Some("memo"), None, 0, Some("data:image/png;base64,AA"));
    assert !(VisualizationMarker <= "memo") by {
      assert VisualizationMarker[0] != "memo"[0];
    }
  }

  /** Typing leaves already typed notes alone, so it is a no-op on them and
      idempotent. */
  lemma WithTypesIdempotent(notes: seq<Note>)
    ensures WithTypes(WithTypes(notes)) == WithTypes(notes)
    ensures (forall i :: 0 <= i < |notes| ==> notes[i].kind.Some?) ==> WithTypes(notes) == notes
  {
  }

  /** One list of the bundle written into its table: `bulkPut` when the list is
      present and non-empty, otherwise the table as it was. The table only
      grows, records whose id the list does not carry stay, and a record whose
      id the list carries is overwritten by the last row with that id. */
  function Imported<T>(table: map<string, T>, rows: Option<seq<T>>, idOf: T -> string): (r: map<string, T>)
    ensures table.Keys <= r.Keys
    ensures rows.None? ==> r == table
    ensures rows.Some? ==> r.Keys == table.Keys + Table.IdsOf(rows.value, idOf)
    ensures forall k :: k in table && (rows.None? || k !in Table.IdsOf(rows.value, idOf)) ==> r[k] == table[k]
    ensures rows.Some? ==> forall i :: 0 <= i < |rows.value| && Table.LastWithId(rows.value, idOf, i) ==>
      idOf(rows.value[i]) in r && r[idOf(rows.value[i])] == rows.value[i]
  {
    if rows.Some? && |rows.value| > 0 then Table.BulkPut(table, rows.value, idOf) else table
  }

  function TypedRows(rows: Option<seq<Note>>): Option<seq<Note>> {
    if rows.Some? then Some(WithTypes(rows.value)) else None
  }

  /** `books?.length || 0`. */
  function Count<T>(rows: Option<seq<T>>): (n: nat)
    ensures rows.None? ==> n == 0
    ensures rows.Some? ==> n == |rows.value|
  {
    if rows.Some? then |rows.value| else 0
  }

  /** Importing the same bundle a second time changes nothing more. */
  lemma ImportTwice<T>(table: map<string, T>, rows: Option<seq<T>>, idOf: T -> string)
    ensures Imported(Imported(table, rows, idOf), rows, idOf) == Imported(table, rows, idOf)
  {
    if rows.Some? && |rows.value| > 0 {
      Table.BulkPutTwice(table, rows.value, idOf);
    }
  }

  /** Export then import: the listing of `source` put into `store` gives the
      upsert `store + source`, so into an empty store it restores `source`. */
  lemma ExportImportRoundTrip<T>(store: map<string, T>, rows: seq<T>, source: map<string, T>, idOf: T -> string)
    requires Table.Lists(rows, source, idOf)
    ensures Imported(store, Some(rows), idOf) == store + source
    ensures Imported(map[], Some(rows), idOf) == source
  {
    var empty: map<string, T> := map[];
    Table.PutListing(store, rows, source, idOf);
    Table.PutListing(empty, rows, source, idOf);
    assert Imported(store, Some(rows), idOf) == Table.BulkPut(store, rows, idOf);
    assert Imported(empty, Some(rows), idOf) == Table.BulkPut(empty, rows, idOf);
    assert empty + source == source;
  }

  /** For notes, all of which are typed after the upgrade, the round trip holds
      through the typing step too. */
  lemma ExportImportNotes(store: map<string, Note>, rows: seq<Note>, source: map<string, Note>)
    requires Table.Lists(rows, source, NoteId)
    requires forall id :: id in source ==> source[id].kind.Some?
    ensures Imported(store, TypedRows(Some(rows)), NoteId) == store + source
    ensures Imported(map[], TypedRows(Some(rows)), NoteId) == source
  {
    forall i | 0 <= i < |rows| ensures rows[i].kind.Some? {
      assert rows[i] == source[NoteId(rows[i])];
    }
    WithTypesIdempotent(rows);
    ExportImportRoundTrip(store, rows, source, NoteId);
  }

  /** What the user picked in the file input, after reading and parsing it. */
  datatype ImportInput = NoFile | Unreadable | Parsed(bundle: Bundle)

  /** How an import ends: no file chosen, failed (unreadable or rejected file),
      declined at the confirmation, or done with the three list lengths. */
  datatype ImportOutcome = NothingChosen | Failed | Declined | Done(books: nat, notes: nat, chatSessions: nat)

  /** The import handler's work on the database. `confirmed` is the user's
      answer to the confirmation, asked only for an accepted bundle. */
  method ImportInto(db: Database, input: ImportInput, confirmed: bool) returns (outcome: ImportOutcome)
    requires db.Valid()
    modifies db
    ensures db.Valid()
    ensures input.NoFile? ==> outcome == NothingChosen && unchanged(db)
    ensures input.Unreadable? || (input.Parsed? && !Accepts(input.bundle)) ==> outcome == Failed && unchanged(db)
    ensures input.Parsed? && Accepts(input.bundle) && !confirmed ==> outcome == Declined && unchanged(db)
    ensures input.Parsed? && Accepts(input.bundle) && confirmed ==>
      var d := input.bundle.data.value;
      && outcome == Done(Count(d.books), Count(d.notes), Count(d.chatSessions))
      && db.books == Imported(old(db.books), d.books, BookId)
      && db.notes == Imported(old(db.notes), TypedRows(d.notes), NoteId)
      && db.chatSessions == Imported(old(db.chatSessions), d.chatSessions, SessionId)
  {
    match input
    case NoFile =>
      return NothingChosen;
    case Unreadable =>
      return Failed;
    case Parsed(bundle) =>
      if !Accepts(bundle) {
        return Failed;
      }
      if !confirmed {
        return Declined;
      }
      var d := bundle.data.value;
      if d.books.Some? && |d.books.value| > 0 {
        db.PutBooks(d.books.value);
      }
      ghost var notesBefore := db.notes;
      if d.notes.Some? && |d.notes.value| > 0 {
        db.PutNotes(WithTypes(d.notes.value));
      }
      assert db.notes == Imported(notesBefore, TypedRows(d.notes), NoteId);
      if d.chatSessions.Some? && |d.chatSessions.value| > 0 {
        db.PutSessions(d.chatSessions.value);
      }
      outcome := Done(Count(d.books), Count(d.notes), Count(d.chatSessions));
  }

  /** `b` is an export of the three tables: version 1.0, the given date, and a
      complete listing of each table. */
  predicate ExportOf(b: Bundle, books: map<string, Book>, notes: map<string, Note>,
                     chatSessions: map<string, ChatSession>, exportDate: string)
  {
    && b.version == Some(FormatVersion) && b.exportDate == exportDate && b.data.Some?
    && b.data.value.books.Some? && Table.Lists(b.data.value.books.value, books, BookId)
    && b.data.value.notes.Some? && Table.Lists(b.data.value.notes.value, notes, NoteId)
    && b.data.value.chatSessions.Some? && Table.Lists(b.data.value.chatSessions.value, chatSessions, SessionId)
  }

  /** Every export passes the import's check. */
  lemma ExportIsAccepted(b: Bundle, books: map<string, Book>, notes: map<string, Note>,
                         chatSessions: map<string, ChatSession>, exportDate: string)
    requires ExportOf(b, books, notes, chatSessions, exportDate)
    ensures Accepts(b)
  {
  }

  /** The bundle export builds from the database. */
  method ExportBundle(db: Database, exportDate: string) returns (b: Bundle)
    requires db.Valid()
    ensures ExportOf(b, db.books, db.notes, db.chatSessions, exportDate)
  {
    var books := Table.ToArray(db.books, BookId);
    var notes := Table.ToArray(db.notes, NoteId);
    var sessions := Table.ToArray(db.chatSessions, SessionId);
    b := Bundle(Some(FormatVersion), exportDate, Some(BundleData(Some(books), Some(notes), Some(sessions))));
  }

  /** Exporting and then importing the bundle (confirmed) into an empty database
      reproduces the exported tables, provided every note is typed, as the
      upgrade guarantees. */
  method ExportImportRestores(source: Database, exportDate: string) returns (target: Database)
    requires source.Valid()
    requires forall id :: id in source.notes ==> source.notes[id].kind.Some?
    ensures target.Valid()
    ensures target.books == source.books && target.notes == source.notes && target.chatSessions == source.chatSessions
  {
    var b := ExportBundle(source, exportDate);
    target := new Database();
    var outcome := ImportInto(target, Parsed(b), true);
    var d := b.data.value;
    ExportImportRoundTrip(map[], d.books.value, source.books, BookId);
    ExportImportNotes(map[], d.notes.value, source.notes);
    ExportImportRoundTrip(map[], d.chatSessions.value, source.chatSessions, SessionId);
  }

  /** The data-management panel on the home page. */
  class DataManagementPanel {
    var isExporting: bool
    var isImporting: bool

    constructor ()
      ensures !isExporting && !isImporting
    {
      isExporting, isImporting := false, false;
    }

    /** `handleExport`. `delivered` says whether the browser accepted the
        download; the bundle is returned only then. Exporting ends either way. */
    method HandleExport(db: Database, exportDate: string, delivered: bool) returns (file: Option<Bundle>)
      requires db.Valid()
      modifies this
      ensures !isExporting && isImporting == old(isImporting)
      ensures delivered <==> file.Some?
      ensures file.Some? ==> ExportOf(file.value, db.books, db.notes, db.chatSessions, exportDate)
    {
      isExporting := true;
      var b := ExportBundle(db, exportDate);
      file := if delivered then Some(b) else None;
      isExporting := false;
    }

    /** `handleImport`: `ImportInto`, with importing shown from the moment a file
        is chosen until the handler ends. */
    method HandleImport(db: Database, input: ImportInput, confirmed: bool) returns (outcome: ImportOutcome)
      requires db.Valid()
      modifies this, db
      ensures db.Valid()
      ensures isExporting == old(isExporting)
      ensures isImporting == if input.NoFile? then old(isImporting) else false
      ensures input.NoFile? ==> outcome == NothingChosen && unchanged(db)
      ensures input.Unreadable? || (input.Parsed? && !Accepts(input.bundle)) ==> outcome == Failed && unchanged(db)
      ensures input.Parsed? && Accepts(input.bundle) && !confirmed ==> outcome == Declined && unchanged(db)
      ensures input.Parsed? && Accepts(input.bundle) && confirmed ==>
        var d := input.bundle.data.value;
        && outcome == Done(Count(d.books), Count(d.notes), Count(d.chatSessions))
        && db.books == Imported(old(db.books), d.books, BookId)
        && db.notes == Imported(old(db.notes), TypedRows(d.notes), NoteId)
        && db.chatSessions == Imported(old(db.chatSessions), d.chatSessions, SessionId)
    {
      if input.NoFile? {
        return NothingChosen;
      }
      isImporting := true;
      outcome := ImportInto(db, input, confirmed);
      isImporting := false;
    }
  }

  /** The settings menu in the header: the same export and import, plus the
      open/closed state of the menu, which a successful export closes. */
  class SettingsMenuPanel {
    var isOpen: bool
    var isExporting: bool
    var isImporting: bool
    var showApiKeyModal: bool

    constructor ()
      ensures !isOpen && !isExporting && !isImporting && !showApiKeyModal
    {
      isOpen, isExporting, isImporting, showApiKeyModal := false, false, false, false;
    }

    /** The gear button flips the menu. */
    method Toggle()
      modifies this`isOpen
      ensures isOpen == !old(isOpen)
    {
      isOpen := !isOpen;
    }

    /** A press outside the menu closes it. */
    method ClickOutside()
      modifies this`isOpen
      ensures !isOpen
    {
      isOpen := false;
    }

    /** The API key entry closes the menu and opens the key dialog. */
    method OpenApiKeySettings()
      modifies this`isOpen, this`showApiKeyModal
      ensures !isOpen && showApiKeyModal
    {
      isOpen, showApiKeyModal := false, true;
    }

    /** `handleExport`: as on the data-management panel, and a delivered export
        also closes the menu. */
    method HandleExport(db: Database, exportDate: string, delivered: bool) returns (file: Option<Bundle>)
      requires db.Valid()
      modifies this
      ensures !isExporting && isImporting == old(isImporting) && showApiKeyModal == old(showApiKeyModal)
      ensures isOpen == (old(isOpen) && !delivered)
      ensures delivered <==> file.Some?
      ensures file.Some? ==> ExportOf(file.value, db.books, db.notes, db.chatSessions, exportDate)
    {
      isExporting := true;
      var b := ExportBundle(db, exportDate);
      if delivered {
        file := Some(b);
        isOpen := false;
      } else {
        file := None;
      }
      isExporting := false;
    }

    /** `handleImport`: identical to the data-management panel's; the menu state
        is not touched. */
    method HandleImport(db: Database, input: ImportInput, confirmed: bool) returns (outcome: ImportOutcome)
      requires db.Valid()
      modifies this, db
      ensures db.Valid()
      ensures isOpen == old(isOpen) && isExporting == old(isExporting) && showApiKeyModal == old(showApiKeyModal)
      ensures isImporting == if input.NoFile? then old(isImporting) else false
      ensures input.NoFile? ==> outcome == NothingChosen && unchanged(db)
      ensures input.Unreadable? || (input.Parsed? && !Accepts(input.bundle)) ==> outcome == Failed && unchanged(db)
      ensures input.Parsed? && Accepts(input.bundle) && !confirmed ==> outcome == Declined && unchanged(db)
      ensures input.Parsed? && Accepts(input.bundle) && confirmed ==>
        var d := input.bundle.data.value;
        && outcome == Done(Count(d.books), Count(d.notes), Count(d.chatSessions))
        && db.books == Imported(old(db.books), d.books, BookId)
        && db.notes == Imported(old(db.notes), TypedRows(d.notes), NoteId)
        && db.chatSessions == Imported(old(db.chatSessions), d.chatSessions, SessionId)
    {
      if input.NoFile? {
        return NothingChosen;
      }
      isImporting := true;
      outcome := ImportInto(db, input, confirmed);
      isImporting := false;
    }
  }
}

/** The form that adds a book (app/books/new/page.tsx): title, author and
    status, an author lookup when the title loses focus, and the insert on
    submit. */
module NewBook {
  import opened Wrappers
  import opened Records
  import opened Gateway

  /** The record a submit stores: no progress yet (0 of 0 pages), no cover, no
      rating, and added and updated at the same moment. */
  function NewBookRecord(id: string, title: string, author: string, status: Status, now: int): (b: Book)
    ensures b.id == id && b.title == title && b.author == author && b.status == status
    ensures b.progress == Progress(0, 0, Page)
    ensures b.coverUrl.None? && b.rating.None?
    ensures b.addedAt == now && b.updatedAt == now
  {
    Book(id, title, author, None, status, Progress(0, 0, Page), None, now, now)
  }

  class NewBookForm {
    var title: string
    var author: string
    var status: Status
    var isSearchingAuthor: bool

    constructor ()
      ensures title == "" && author == "" && status == WantToRead && !isSearchingAuthor
    {
      title, author, status, isSearchingAuthor := "", "", WantToRead, false;
    }

    /** `handleTitleBlur`. The lookup runs only when a title is entered and the
        author is still empty; a non-empty answer fills the author, an empty or
        missing one leaves it empty. `findAuthor` is the server action; when the
        call itself is rejected, the handler stops at the `await`, so the author
        stays empty and the searching flag stays on. Returns whether the lookup
        ran. */
    method HandleTitleBlur(findAuthor: string -> Outcome<Option<string>>) returns (searched: bool)
      modifies this`author, this`isSearchingAuthor
      ensures searched <==> title != "" && old(author) == ""
      ensures searched && findAuthor(title).Returned? ==>
        && author == (if Present(findAuthor(title).value) then findAuthor(title).value.value else "")
        && !isSearchingAuthor
      ensures searched && findAuthor(title).Threw? ==> author == "" && isSearchingAuthor
      ensures !searched ==> author == old(author) && isSearchingAuthor == old(isSearchingAuthor)
    {
      searched := title != "" && author == "";
      if searched {
        isSearchingAuthor := true;
        var call := findAuthor(title);
        if call.Threw? {
          return;
        }
        var detected := call.value;
        if Present(detected) {
          author := detected.value;
        }
        isSearchingAuthor := false;
      }
    }

    /** Submitting the form. The browser refuses it while the title or the author
        is empty (both inputs are `required`); otherwise `handleSubmit` adds the
        new book under the fresh id `newId`. Returns whether a book was added. */
    method Submit(db: Database, newId: string, now: int) returns (added: bool)
      requires db.Valid() && newId !in db.books
      modifies db
      ensures db.Valid()
      ensures added <==> title != "" && author != ""
      ensures db.books == if added then old(db.books)[newId := NewBookRecord(newId, title, author, status, now)] else old(db.books)
      ensures db.notes == old(db.notes) && db.chatSessions == old(db.chatSessions)
    {
      added := title != "" && author != "";
      if added {
        db.AddBook(NewBookRecord(newId, title, author, status, now));
      }
    }
  }
}

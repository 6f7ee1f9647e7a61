/** The chat panel of a book (components/ChatInterface.tsx): the lazily created
    session seeded with a greeting, the history sent to the AI (a context message
    first, the greeting left out), sending a message, asking for an impression
    image, and the timeline that merges messages and visualization notes. */
module Chat {
  import opened Wrappers
  import opened Strings
  import opened Records
  import opened Gateway
  import Ordering
  import Table

  /** The fixed opening of the seeded greeting, by which the history filter
      recognises it. */
  const GreetingMarker: string := "こんにちは！この本について語り合いましょう"

  /** The greeting a new session is seeded with. */
  function Greeting(bookTitle: string): (r: string)
    ensures GreetingMarker <= r
  {
    GreetingMarker + "： \"" + bookTitle + "\". ここまでの感想はいかがですか？"
  }

  /** A model message carrying the greeting marker anywhere in its text. */
  predicate IsGreeting(m: Message) {
    m.role == Model && Contains(m.content, GreetingMarker)
  }

  /** The seeded greeting is one the history filter drops. */
  lemma SeedIsGreeting(bookTitle: string, at: int)
    ensures IsGreeting(Message(Model, Greeting(bookTitle), at))
  {
  }

  /** The session messages without greetings, in their order. Only model messages
      can be dropped, and exactly those that carry the marker. */
  function WithoutGreetings(ms: seq<Message>): (r: seq<Message>)
    ensures |r| <= |ms|
    ensures forall m :: m in r ==> m in ms && !IsGreeting(m)
    ensures forall m :: m in ms && !IsGreeting(m) ==> m in r
  {
    if ms == [] then []
    else (if IsGreeting(ms[0]) then [] else [ms[0]]) + WithoutGreetings(ms[1..])
  }

  /** The filter works message by message: it commutes with concatenation, so the
      kept messages keep their relative order. */
  lemma {:induction false} WithoutGreetingsAppend(a: seq<Message>, b: seq<Message>)
    ensures WithoutGreetings(a + b) == WithoutGreetings(a) + WithoutGreetings(b)
    decreases |a|
  {
    if a == [] {
      assert a + b == b;
    } else {
      var ab, head := a + b, if IsGreeting(a[0]) then [] else [a[0]];
      assert ab[0] == a[0] && ab[1..] == a[1..] + b;
      WithoutGreetingsAppend(a[1..], b);
      Ordering.AppendAssociative(head, WithoutGreetings(a[1..]), WithoutGreetings(b));
    }
  }

  /** The user's messages of a transcript, in order. */
  function UserMessages(ms: seq<Message>): seq<Message> {
    if ms == [] then []
    else (if ms[0].role == User then [ms[0]] else []) + UserMessages(ms[1..])
  }

  /** The filter never drops a user message. */
  lemma {:induction false} UserMessagesKept(ms: seq<Message>)
    ensures UserMessages(WithoutGreetings(ms)) == UserMessages(ms)
    decreases |ms|
  {
    if ms != [] {
      UserMessagesKept(ms[1..]);
      var head := if IsGreeting(ms[0]) then [] else [ms[0]];
      UserMessagesAppend(head, WithoutGreetings(ms[1..]));
      if head != [] {
        assert head[1..] == [];
      }
    }
  }

  lemma {:induction false} UserMessagesAppend(a: seq<Message>, b: seq<Message>)
    ensures UserMessages(a + b) == UserMessages(a) + UserMessages(b)
    decreases |a|
  {
    if a == [] {
      assert a + b == b;
    } else {
      var ab, head := a + b, if a[0].role == User then [a[0]] else [];
      assert ab[0] == a[0] && ab[1..] == a[1..] + b;
      UserMessagesAppend(a[1..], b);
      Ordering.AppendAssociative(head, UserMessages(a[1..]), UserMessages(b));
    }
  }

  /** `messages.map(m => ({role: m.role, parts: m.content}))`. */
  function ToHistory(ms: seq<Message>): (r: seq<HistoryEntry>)
    ensures |r| == |ms|
    ensures forall i :: 0 <= i < |ms| ==> r[i] == HistoryEntry(ms[i].role, ms[i].content)
  {
    seq(|ms|, i requires 0 <= i < |ms| => HistoryEntry(ms[i].role, ms[i].content))
  }

  /** The history the panel sends: the context message, then the transcript
      without its greetings. */
  function HistoryForApi(context: HistoryEntry, ms: seq<Message>): (r: seq<HistoryEntry>)
    ensures |r| == 1 + |WithoutGreetings(ms)| && r[0] == context
    ensures forall i :: 0 <= i < |WithoutGreetings(ms)| ==>
      r[i + 1] == HistoryEntry(WithoutGreetings(ms)[i].role, WithoutGreetings(ms)[i].content)
  {
    [context] + ToHistory(WithoutGreetings(ms))
  }

  /** When the transcript ends with a message the filter keeps (any user
      message), that message is the last turn of the history. */
  lemma {:induction false} HistoryEndsWithLastMessage(context: HistoryEntry, prior: seq<Message>, last: Message)
    requires !IsGreeting(last)
    ensures var h := HistoryForApi(context, prior + [last]);
      h[|h| - 1] == HistoryEntry(last.role, last.content)
  {
    var w := WithoutGreetings(prior + [last]);
    LastKept(prior, last);
    var h := HistoryForApi(context, prior + [last]);
    assert h[(|w| - 1) + 1] == HistoryEntry(w[|w| - 1].role, w[|w| - 1].content);
  }

  /** A message the filter keeps, appended to a transcript, ends the filtered one. */
  lemma LastKept(prior: seq<Message>, last: Message)
    requires !IsGreeting(last)
    ensures var w := WithoutGreetings(prior + [last]); w != [] && w[|w| - 1] == last
  {
    WithoutGreetingsAppend(prior, [last]);
    assert WithoutGreetings([last]) == [last] by {
      assert [last][1..] == [];
    }
  }

  /** How the panel shows a book status. */
  function StatusLabel(s: Status): string {
    match s
    case WantToRead => "読みたい"
    case Reading => "読書中"
    case Completed => "読了"
  }

  /** The first line of the context: title and author, `不明` standing for an
      unknown author. */
  function ContextHeader(bookTitle: string, author: string): string {
    "この会話は「" + bookTitle + "」（著者: " + (if author != "" then author else "不明") + "）についてです。"
  }

  function StatusLine(status: string): string {
    "\n現在のステータス: " + status
  }

  function NotesSection(notes: seq<string>): string {
    "\n\nユーザーのメモ:\n" + Join(notes, "\n")
  }

  /** `buildContextMessage()`: the header, the status line when the status is
      known, and the notes section when there are notes, as one user turn. */
  function ContextMessage(bookTitle: string, author: string, status: string, notes: seq<string>): HistoryEntry {
    var head := ContextHeader(bookTitle, author) + (if status != "" then StatusLine(status) else "");
    HistoryEntry(User, head + (if notes != [] then NotesSection(notes) else ""))
  }

  /** The context is a user turn that opens with the header, has the status line
      right after it only when the status is known, and ends with the notes
      joined by newlines only when there are notes. */
  lemma ContextMessageShape(bookTitle: string, author: string, status: string, notes: seq<string>)
    ensures var r := ContextMessage(bookTitle, author, status, notes);
      && r.role == User
      && ContextHeader(bookTitle, author) <= r.parts
      && (status != "" ==> ContextHeader(bookTitle, author) + StatusLine(status) <= r.parts)
      && (r.parts == ContextHeader(bookTitle, author) <==> status == "" && notes == [])
      && (notes != [] ==>
           |NotesSection(notes)| < |r.parts| && r.parts[|r.parts| - |NotesSection(notes)|..] == NotesSection(notes))
      && (notes == [] ==> r.parts == ContextHeader(bookTitle, author) + (if status != "" then StatusLine(status) else ""))
      && (status == "" ==> r.parts == ContextHeader(bookTitle, author) + (if notes != [] then NotesSection(notes) else ""))
      && |r.parts| == |ContextHeader(bookTitle, author)| + (if status != "" then |StatusLine(status)| else 0)
           + (if notes != [] then |NotesSection(notes)| else 0)
  {
    var status' := if status != "" then StatusLine(status) else "";
    var notes' := if notes != [] then NotesSection(notes) else "";
    assert status != "" ==> |status'| > 0;
    assert notes != [] ==> |notes'| > 0;
    ThreeParts(ContextHeader(bookTitle, author), status', notes');
  }

  /** Where the parts of `a + b + c` sit in it. */
  lemma ThreeParts(a: string, b: string, c: string)
    ensures a <= a + b + c && a + b <= a + b + c
    ensures a + b + c == a <==> b == [] && c == []
    ensures |c| <= |a + b + c| && (a + b + c)[|a + b + c| - |c|..] == c
    ensures b == [] ==> a + b + c == a + c
    ensures c == [] ==> a + b + c == a + b
  {
    var t := a + b + c;
    if b == [] {
      assert a + b == a;
    }
    if c == [] {
      assert t == a + b;
    }
    assert t[..|a + b|] == a + b;
    if t == a {
      assert |b| + |c| == 0;
    }
  }

  /** The note texts the panel loads for the context (missing content reads as
      empty text). */
  function NoteTexts(notes: seq<Note>): (r: seq<string>)
    ensures |r| == |notes|
    ensures forall i :: 0 <= i < |r| ==> r[i] == notes[i].content.GetOr("")
    ensures forall i :: 0 <= i < |r| && notes[i].content.None? ==> r[i] == ""
  {
    seq(|notes|, i requires 0 <= i < |notes| => notes[i].content.GetOr(""))
  }

  /** The notes of one book among `rows`, in their order: each note of the book
      as often as `rows` holds it, and no other. */
  function NotesOfBook(rows: seq<Note>, bookId: string): (r: seq<Note>)
    ensures forall n :: n in r <==> n in rows && n.bookId == bookId
    ensures forall n :: multiset(r)[n] == if n.bookId == bookId then multiset(rows)[n] else 0
  {
    if rows == [] then []
    else
      assert rows == [rows[0]] + rows[1..];
      (if rows[0].bookId == bookId then [rows[0]] else []) + NotesOfBook(rows[1..], bookId)
  }

  /** The book filter works row by row, so it keeps the order of the listing. */
  lemma {:induction false} NotesOfBookAppend(a: seq<Note>, b: seq<Note>, bookId: string)
    ensures NotesOfBook(a + b, bookId) == NotesOfBook(a, bookId) + NotesOfBook(b, bookId)
    decreases |a|
  {
    if a == [] {
      assert a + b == b;
    } else {
      var ab, head := a + b, if a[0].bookId == bookId then [a[0]] else [];
      assert ab[0] == a[0] && ab[1..] == a[1..] + b;
      NotesOfBookAppend(a[1..], b, bookId);
      Ordering.AppendAssociative(head, NotesOfBook(a[1..], bookId), NotesOfBook(b, bookId));
    }
  }

  /** The book's visualization notes, tested by `VisualizationsIn`. */
  predicate IsVisualizationOf(n: Note, bookId: string) {
    n.bookId == bookId && n.kind == Some(Visualization)
  }

  /** The notes of one book that are visualizations, in their order: each such
      note as often as `rows` holds it, and no other. */
  function VisualizationsIn(rows: seq<Note>, bookId: string): (r: seq<Note>)
    ensures forall n :: n in r <==> n in rows && n.bookId == bookId && n.kind == Some(Visualization)
    ensures forall n :: multiset(r)[n] == if IsVisualizationOf(n, bookId) then multiset(rows)[n] else 0
  {
    if rows == [] then []
    else
      assert rows == [rows[0]] + rows[1..];
      (if IsVisualizationOf(rows[0], bookId) then [rows[0]] else [])
        + VisualizationsIn(rows[1..], bookId)
  }

  /** The visualization filter works row by row, so it keeps the order of the listing. */
  lemma {:induction false} VisualizationsInAppend(a: seq<Note>, b: seq<Note>, bookId: string)
    ensures VisualizationsIn(a + b, bookId) == VisualizationsIn(a, bookId) + VisualizationsIn(b, bookId)
    decreases |a|
  {
    if a == [] {
      assert a + b == b;
    } else {
      var ab, head := a + b, if IsVisualizationOf(a[0], bookId) then [a[0]] else [];
      assert ab[0] == a[0] && ab[1..] == a[1..] + b;
      VisualizationsInAppend(a[1..], b, bookId);
      Ordering.AppendAssociative(head, VisualizationsIn(a[1..], bookId), VisualizationsIn(b, bookId));
    }
  }

  function CreatedAt(n: Note): int { n.createdAt }

  /** The `visualizations` query: this book's visualization notes, oldest first. */
  function Visualizations(rows: seq<Note>, bookId: string): (r: seq<Note>)
    ensures Ordering.SortedBy(r, CreatedAt)
    ensures multiset(r) == multiset(VisualizationsIn(rows, bookId))
  {
    Ordering.SortBy(VisualizationsIn(rows, bookId), CreatedAt)
  }

  /** Over a listing of the notes table, the query finds exactly the book's
      visualization notes, each once. */
  lemma VisualizationsOfStore(rows: seq<Note>, notes: map<string, Note>, bookId: string)
    requires Table.Lists(rows, notes, NoteId)
    ensures forall id :: id in notes ==>
      (notes[id] in Visualizations(rows, bookId) <==> notes[id].bookId == bookId && notes[id].kind == Some(Visualization))
    ensures forall n :: n in Visualizations(rows, bookId) ==> n.id in notes && notes[n.id] == n
    ensures forall n :: multiset(Visualizations(rows, bookId))[n] <= 1
  {
    var r := Visualizations(rows, bookId);
    Table.DistinctOnce(rows, NoteId);
    Ordering.SortByMembers(VisualizationsIn(rows, bookId), CreatedAt);
    forall id | id in notes
      ensures notes[id] in r <==> notes[id].bookId == bookId && notes[id].kind == Some(Visualization)
    {
      var i :| 0 <= i < |rows| && NoteId(rows[i]) == id;
      assert rows[i] == notes[id];
    }
    forall n | n in r
      ensures n.id in notes && notes[n.id] == n
    {
      var i :| 0 <= i < |rows| && rows[i] == n;
    }
  }

  /** An entry of the timeline: a chat message (with its position) or a
      visualization note. */
  datatype TimelineItem = MessageItem(message: Message, index: nat) | VisualizationItem(note: Note)

  function ItemTime(item: TimelineItem): int {
    match item
    case MessageItem(m, _) => m.timestamp
    case VisualizationItem(n) => n.createdAt
  }

  function MessageItems(ms: seq<Message>): (r: seq<TimelineItem>)
    ensures |r| == |ms|
    ensures forall i :: 0 <= i < |r| ==> r[i] == MessageItem(ms[i], i)
  {
    seq(|ms|, i requires 0 <= i < |ms| => MessageItem(ms[i], i))
  }

  function VisualizationItems(vs: seq<Note>): (r: seq<TimelineItem>)
    ensures |r| == |vs|
    ensures forall i :: 0 <= i < |r| ==> r[i] == VisualizationItem(vs[i])
  {
    seq(|vs|, i requires 0 <= i < |vs| => VisualizationItem(vs[i]))
  }

  /** `allItems`: every message and every visualization, each once, in ascending
      time order; the length is the sum of the two. */
  function Timeline(ms: seq<Message>, vs: seq<Note>): (r: seq<TimelineItem>)
    ensures |r| == |ms| + |vs|
    ensures Ordering.SortedBy(r, ItemTime)
    ensures multiset(r) == multiset(MessageItems(ms)) + multiset(VisualizationItems(vs))
  {
    Ordering.SortBy(MessageItems(ms) + VisualizationItems(vs), ItemTime)
  }

  /** Every message (with its position) and every visualization is on the
      timeline. */
  lemma TimelineHasEveryItem(ms: seq<Message>, vs: seq<Note>)
    ensures forall i :: 0 <= i < |ms| ==> MessageItem(ms[i], i) in Timeline(ms, vs)
    ensures forall i :: 0 <= i < |vs| ==> VisualizationItem(vs[i]) in Timeline(ms, vs)
  {
    var r := Timeline(ms, vs);
    var a, b := MessageItems(ms), VisualizationItems(vs);
    forall i | 0 <= i < |ms| ensures MessageItem(ms[i], i) in r {
      assert a[i] == MessageItem(ms[i], i);
      assert a[i] in multiset(a);
      assert a[i] in multiset(a) + multiset(b);
    }
    forall i | 0 <= i < |vs| ensures VisualizationItem(vs[i]) in r {
      assert b[i] == VisualizationItem(vs[i]);
      assert b[i] in multiset(b);
      assert b[i] in multiset(a) + multiset(b);
    }
  }

  /** Nothing else is on the timeline: each message item carries the message at
      its index, each visualization item one of the visualizations. */
  lemma TimelineHasOnlyItems(ms: seq<Message>, vs: seq<Note>)
    ensures forall item :: item in Timeline(ms, vs) && item.MessageItem? ==>
      item.index < |ms| && ms[item.index] == item.message
    ensures forall item :: item in Timeline(ms, vs) && item.VisualizationItem? ==> item.note in vs
  {
    var r := Timeline(ms, vs);
    var a, b := MessageItems(ms), VisualizationItems(vs);
    forall item | item in r
      ensures item.MessageItem? ==> item.index < |ms| && ms[item.index] == item.message
      ensures item.VisualizationItem? ==> item.note in vs
    {
      assert item in multiset(a) + multiset(b);
      if item in multiset(a) {
        var i :| 0 <= i < |a| && a[i] == item;
      } else {
        var i :| 0 <= i < |b| && b[i] == item;
      }
    }
  }

  /** Items with the same time stamp keep their order: messages in transcript
      order, and every such message before every such visualization. */
  lemma TimelineTiesKeepOrder(ms: seq<Message>, vs: seq<Note>, t: int)
    ensures Ordering.WithKey(Timeline(ms, vs), ItemTime, t)
      == Ordering.WithKey(MessageItems(ms), ItemTime, t) + Ordering.WithKey(VisualizationItems(vs), ItemTime, t)
  {
    Ordering.SortByIsStable(MessageItems(ms) + VisualizationItems(vs), ItemTime, t);
    Ordering.WithKeyAppend(MessageItems(ms), VisualizationItems(vs), ItemTime, t);
  }

  /** A new session: one model message, the greeting, and nothing else. */
  function SeedSession(id: string, bookId: string, bookTitle: string, now: int): (s: ChatSession)
    ensures s.id == id && s.bookId == bookId && |s.messages| == 1
    ensures s.messages[0].role == Model && IsGreeting(s.messages[0])
    ensures s.messages[0] == Message(Model, Greeting(bookTitle), now) && s.updatedAt == now
  {
    ChatSession(id, bookId, [Message(Model, Greeting(bookTitle), now)], now)
  }

  /** The sessions table after `initSession`: a seeded session is added only when
      none belongs to the book. */
  function InitializedSessions(sessions: map<string, ChatSession>, bookId: string, bookTitle: string, id: string, now: int)
    : (r: map<string, ChatSession>)
    ensures HasSessionFor(r, bookId)
    ensures HasSessionFor(sessions, bookId) ==> r == sessions
    ensures !HasSessionFor(sessions, bookId) ==> r == sessions[id := SeedSession(id, bookId, bookTitle, now)]
  {
    if HasSessionFor(sessions, bookId) then sessions
    else
      var r := sessions[id := SeedSession(id, bookId, bookTitle, now)];
      assert r[id].bookId == bookId;
      r
  }

  /** At most one stored session belongs to the book. */
  predicate AtMostOneSessionFor(sessions: map<string, ChatSession>, bookId: string) {
    forall a, b :: a in sessions && b in sessions && sessions[a].bookId == bookId && sessions[b].bookId == bookId ==> a == b
  }

  /** Initialising again changes nothing, whatever id and time it would use. */
  lemma InitSessionIdempotent(sessions: map<string, ChatSession>, bookId: string, bookTitle: string,
                              id1: string, now1: int, id2: string, now2: int)
    ensures var once := InitializedSessions(sessions, bookId, bookTitle, id1, now1);
      InitializedSessions(once, bookId, bookTitle, id2, now2) == once
  {
  }

  /** With a fresh id, initialising keeps "at most one session per book". */
  lemma InitSessionAtMostOne(sessions: map<string, ChatSession>, bookId: string, bookTitle: string, id: string, now: int)
    requires id !in sessions
    requires AtMostOneSessionFor(sessions, bookId)
    ensures AtMostOneSessionFor(InitializedSessions(sessions, bookId, bookTitle, id, now), bookId)
  {
  }

  /** The outcome of a call the panel awaits under a time limit: it settles with
      the action's value, the timer wins, or the call rejects. */
  datatype Call<T> = Settled(value: T) | TimedOut | Rejected(message: string)

  const ChatTimeoutMs: nat := 60000
  const ImageTimeoutMs: nat := 120000

  /** The rejection message of the time limit, in whole seconds. */
  function TimeoutMessage(ms: nat): (r: string)
    requires ms % 1000 == 0
    ensures "タイムアウト（" <= r
  {
    "タイムアウト（" + Decimal(ms / 1000) + "秒）"
  }

  lemma ChatTimeoutText()
    ensures TimeoutMessage(ChatTimeoutMs) == "タイムアウト（60秒）"
  {
    assert Decimal(60) == Decimal(6) + [DigitChar(0)];
  }

  const GenericError: string := "エラーが発生しました"
  const UnexpectedError: string := "予期しないエラーが発生しました"
  const ImageFailedError: string := "画像生成に失敗しました"
  const ImageBusyError: string := "画像生成がタイムアウトしました。サーバーが混雑している可能性があります。しばらく待ってから再試行してください。"
  const NoSessionError: string := "セッションが見つかりません"

  /** What a send ends with: the reply to append, or the error to show. A reply
      is appended only when the action returned non-empty text; every error is
      a non-empty message, and the time limit gives the timeout message. */
  function SendResult(call: Call<ChatReply>): (r: Result<string, string>)
    ensures r.Ok? <==> call.Settled? && call.value.ReplyText? && call.value.text != ""
    ensures r.Ok? ==> r.value == call.value.text
    ensures r.Err? ==> r.error != ""
    ensures call.TimedOut? ==> r == Err(TimeoutMessage(ChatTimeoutMs))
  {
    match call
    case Settled(ReplyText(t)) => if t != "" then Ok(t) else Err(GenericError)
    case Settled(ReplyError(e)) => Err(OrElse(e, GenericError))
    case TimedOut => Err(OrElse(TimeoutMessage(ChatTimeoutMs), UnexpectedError))
    case Rejected(m) => Err(OrElse(m, UnexpectedError))
  }

  /** The stored transcript after a send: the previous messages, the user's
      message, and the model's reply when there is one. */
  function SentTranscript(prior: seq<Message>, text: string, sentAt: int, result: Result<string, string>, repliedAt: int)
    : (r: seq<Message>)
    ensures |r| == |prior| + (if result.Ok? then 2 else 1)
    ensures r[..|prior|] == prior
    ensures r[|prior|] == Message(User, text, sentAt)
    ensures result.Ok? ==> r[|prior| + 1] == Message(Model, result.value, repliedAt)
  {
    prior + [Message(User, text, sentAt)] + (if result.Ok? then [Message(Model, result.value, repliedAt)] else [])
  }

  /** What a visualize ends with: the image and caption to store, or the error
      to show. A rejection that mentions the timeout becomes the "server busy"
      message. */
  function VisualizeResult(call: Call<ImageReply>): (r: Result<(string, string), string>)
    ensures r.Ok? <==> call.Settled? && call.value.ImageOk? && call.value.image != ""
    ensures r.Ok? ==> r.value == (call.value.image, call.value.prompt)
    ensures r.Err? ==> r.error != ""
    ensures call.TimedOut? ==> r == Err(ImageBusyError)
  {
    match call
    case Settled(ImageOk(image, prompt)) => if image != "" then Ok((image, prompt)) else Err(ImageFailedError)
    case Settled(ImageError(e)) => Err(OrElse(e, ImageFailedError))
    case TimedOut =>
      assert Contains(TimeoutMessage(ImageTimeoutMs), "タイムアウト");
      Err(ImageBusyError)
    case Rejected(m) => if Contains(m, "タイムアウト") then Err(ImageBusyError) else Err(OrElse(m, UnexpectedError))
  }

  /** The note a successful visualize adds. */
  function VisualizationNote(id: string, bookId: string, prompt: string, image: string, now: int): (n: Note)
    ensures n.kind == Some(Visualization) && n.content == Some(prompt) && n.aiGeneratedImage == Some(image)
    ensures n.id == id && n.bookId == bookId && n.createdAt == now
  {
    Note(id, bookId, Some(prompt), Some(Visualization), now, Some(image))
  }

  /** The state of one book's chat panel. */
  class ChatView {
    const bookId: string
    const bookTitle: string
    var input: string
    var isLoading: bool
    var errorMessage: Option<string>
    var visualResult: Option<(string, string)>
    var bookAuthor: string
    var bookStatus: string
    var bookNotes: seq<string>

    constructor (bookId: string, bookTitle: string)
      ensures this.bookId == bookId && this.bookTitle == bookTitle
      ensures input == "" && !isLoading && errorMessage.None? && visualResult.None?
      ensures bookAuthor == "" && bookStatus == "" && bookNotes == []
    {
      this.bookId, this.bookTitle := bookId, bookTitle;
      input, isLoading, errorMessage, visualResult := "", false, None, None;
      bookAuthor, bookStatus, bookNotes := "", "", [];
    }

    /** `canSend`: not loading, and the input has a character that is not white space. */
    function CanSend(): (ok: bool)
      reads this
      ensures ok <==> !isLoading && exists i :: 0 <= i < |input| && !IsSpace(input[i])
    {
      !isLoading && Trim(input) != ""
    }

    /** The context message built from the loaded book data. */
    function Context(): HistoryEntry
      reads this`bookAuthor, this`bookStatus, this`bookNotes
    {
      ContextMessage(bookTitle, bookAuthor, bookStatus, bookNotes)
    }

    /** `fetchBookData`: the book's author and status label when the book is
        stored, and the texts of all of its notes. `rows` is the notes table as
        the database lists it. */
    method FetchBookData(db: Database, rows: seq<Note>)
      requires Table.Lists(rows, db.notes, NoteId)
      modifies this
      ensures bookId in db.books ==> bookAuthor == db.books[bookId].author && bookStatus == StatusLabel(db.books[bookId].status)
      ensures bookId !in db.books ==> bookAuthor == old(bookAuthor) && bookStatus == old(bookStatus)
      ensures bookNotes == NoteTexts(NotesOfBook(rows, bookId))
      ensures input == old(input) && isLoading == old(isLoading) && errorMessage == old(errorMessage)
      ensures visualResult == old(visualResult)
    {
      if bookId in db.books {
        var book := db.books[bookId];
        bookAuthor := book.author;
        bookStatus := StatusLabel(book.status);
      }
      bookNotes := NoteTexts(NotesOfBook(rows, bookId));
    }

    /** `initSession`: adds a session seeded with the greeting when the book has
        none. `newId` is the fresh id the generator supplies. */
    method InitSession(db: Database, newId: string, now: int)
      requires db.Valid() && newId !in db.chatSessions
      modifies db
      ensures db.Valid()
      ensures db.chatSessions == InitializedSessions(old(db.chatSessions), bookId, bookTitle, newId, now)
      ensures db.books == old(db.books) && db.notes == old(db.notes)
    {
      var existing := db.FindSession(bookId);
      if existing.None? {
        db.AddSession(SeedSession(newId, bookId, bookTitle, now));
      }
    }

    /** `handleSend`. Nothing happens when the input is all white space (its
        trim is empty) or there is no session. Otherwise the input is cleared,
        the user's message is appended to `session`'s messages and stored, the
        action `server` is
        called with the history and the message, and then either the reply is
        appended and stored or the error is shown; loading ends either way.
        Returns the request made and, as `beforeCall`, the sessions table as it
        stood when the action was called. */
    method HandleSend(
      db: Database, session: Option<ChatSession>,
      server: (seq<HistoryEntry>, string) -> Call<ChatReply>,
      sentAt: int, repliedAt: int)
      returns (request: Option<(seq<HistoryEntry>, string)>, ghost beforeCall: map<string, ChatSession>)
      requires db.Valid()
      modifies this, db
      ensures db.Valid()
      ensures AllSpace(old(input)) || session.None? ==>
        request.None? && unchanged(this) && unchanged(db)
      ensures !AllSpace(old(input)) && session.Some? ==>
        beforeCall == UpdatedSessions(old(db.chatSessions), session.value.id,
          session.value.messages + [Message(User, old(input), sentAt)], sentAt)
      ensures !AllSpace(old(input)) && session.Some? ==>
        var text := old(input);
        var sent := session.value.messages + [Message(User, text, sentAt)];
        var result := SendResult(server(HistoryForApi(old(Context()), sent), text));
        && request == Some((HistoryForApi(old(Context()), sent), text))
        && db.chatSessions == UpdatedSessions(old(db.chatSessions), session.value.id,
             SentTranscript(session.value.messages, text, sentAt, result, repliedAt),
             if result.Ok? then repliedAt else sentAt)
      ensures !AllSpace(old(input)) && session.Some? ==>
        var result := SendResult(server(HistoryForApi(old(Context()), session.value.messages + [Message(User, old(input), sentAt)]), old(input)));
        && db.books == old(db.books) && db.notes == old(db.notes)
        && input == "" && !isLoading
        && errorMessage == (if result.Ok? then None else Some(result.error))
      ensures visualResult == old(visualResult)
      ensures bookAuthor == old(bookAuthor) && bookStatus == old(bookStatus) && bookNotes == old(bookNotes)
    {
      if AllSpace(input) || session.None? {
        return None, old(db.chatSessions);
      }
      var context := Context();
      var text := input;
      input := "";
      isLoading := true;
      errorMessage := None;
      var prior := session.value.messages;
      var sent := prior + [Message(User, text, sentAt)];
      db.UpdateSession(session.value.id, sent, sentAt);
      beforeCall := db.chatSessions;
      var history := HistoryForApi(context, sent);
      request := Some((history, text));
      var result := SendResult(server(history, text));
      var transcript := SentTranscript(prior, text, sentAt, result, repliedAt);
      if result.Ok? {
        UpdateSessionTwice(old(db.chatSessions), session.value.id, sent, sentAt, transcript, repliedAt);
        db.UpdateSession(session.value.id, transcript, repliedAt);
      } else {
        assert transcript == sent;
        errorMessage := Some(result.error);
      }
      isLoading := false;
    }

    /** `handleVisualize`. Without a session only the error is shown. Otherwise the
        action `server` is called with the title and the history; on success one
        visualization note holding the caption and the image is added under
        `newId`, on failure the error is shown and nothing is stored. */
    method HandleVisualize(
      db: Database, session: Option<ChatSession>,
      server: (string, seq<HistoryEntry>) -> Call<ImageReply>,
      newId: string, now: int)
      returns (request: Option<(string, seq<HistoryEntry>)>)
      requires db.Valid() && newId !in db.notes
      modifies this, db
      ensures db.Valid()
      ensures session.None? ==>
        && request.None? && unchanged(db)
        && errorMessage == Some(NoSessionError) && isLoading == old(isLoading)
        && input == old(input) && visualResult == old(visualResult)
      ensures session.Some? ==>
        var history := HistoryForApi(old(Context()), session.value.messages);
        var result := VisualizeResult(server(bookTitle, history));
        && request == Some((bookTitle, history))
        && db.notes == (if result.Ok?
                        then old(db.notes)[newId := VisualizationNote(newId, bookId, result.value.1, result.value.0, now)]
                        else old(db.notes))
        && db.books == old(db.books) && db.chatSessions == old(db.chatSessions)
        && !isLoading && input == old(input)
        && errorMessage == (if result.Ok? then None else Some(result.error))
        && visualResult == (if result.Ok? then Some(result.value) else old(visualResult))
      ensures bookAuthor == old(bookAuthor) && bookStatus == old(bookStatus) && bookNotes == old(bookNotes)
    {
      if session.None? {
        errorMessage := Some(NoSessionError);
        return None;
      }
      var context := Context();
      isLoading := true;
      errorMessage := None;
      var history := HistoryForApi(context, session.value.messages);
      request := Some((bookTitle, history));
      var result := VisualizeResult(server(bookTitle, history));
      if result.Ok? {
        visualResult := Some(result.value);
        db.AddNote(VisualizationNote(newId, bookId, result.value.1, result.value.0, now));
      } else {
        errorMessage := Some(result.error);
      }
      isLoading := false;
    }

    /** `handleDeleteVisualization`: the note is deleted only when the user
        confirms. */
    method HandleDeleteVisualization(db: Database, noteId: string, confirmed: bool)
      requires db.Valid()
      modifies db
      ensures db.Valid()
      ensures db.notes == if confirmed then old(db.notes) - {noteId} else old(db.notes)
      ensures db.books == old(db.books) && db.chatSessions == old(db.chatSessions)
    {
      if confirmed {
        db.DeleteNote(noteId);
      }
    }
  }
}

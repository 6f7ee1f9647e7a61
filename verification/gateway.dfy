/** The server actions of app/actions/ai.ts: API key resolution, the chat reply,
    the three-step impression-image pipeline and the author lookup. The AI
    service and the book search are oracles passed in as functions; every
    failure they report comes back as a value, never as an exception. */
module Gateway {
  import opened Wrappers
  import opened Strings
  import opened Records

  const MissingKeyMessage: string := "API Key not found. Please set it in the settings."
  const ChatFallbackError: string := "Failed to generate response."
  const ImageFallbackError: string := "Failed to generate image."

  /** `getGenAI`: the key is the `gemini_api_key` cookie when it is non-empty,
      otherwise the `GEMINI_API_KEY` environment variable; with neither the
      action fails with `MissingKeyMessage`. */
  function ResolveApiKey(cookieKey: Option<string>, envKey: Option<string>): (r: Result<string, string>)
    ensures r.Ok? <==> Present(cookieKey) || Present(envKey)
    ensures r.Ok? ==> r.value != ""
    ensures Present(cookieKey) ==> r == Ok(cookieKey.value)
    ensures !Present(cookieKey) && Present(envKey) ==> r == Ok(envKey.value)
    ensures r.Err? ==> r.error == MissingKeyMessage
  {
    var key := if Present(cookieKey) then cookieKey else envKey;
    if Present(key) then Ok(key.value) else Err(MissingKeyMessage)
  }

  /** One turn of the history the client sends: a role and its text. */
  datatype HistoryEntry = HistoryEntry(role: Role, parts: string)

  datatype Part = TextPart(text: string)

  /** One turn as the AI SDK takes it. */
  datatype Content = Content(role: Role, parts: seq<Part>)

  /** `history.map(h => ({role: h.role, parts: [{text: h.parts}]}))`. */
  function SdkHistory(history: seq<HistoryEntry>): (r: seq<Content>)
    ensures |r| == |history|
    ensures forall i :: 0 <= i < |r| ==> r[i].role == history[i].role && |r[i].parts| == 1
  {
    seq(|history|, i requires 0 <= i < |history| => Content(history[i].role, [TextPart(history[i].parts)]))
  }

  /** Reads SDK turns back as history entries (the text of each turn's first part). */
  function EntriesOf(contents: seq<Content>): seq<HistoryEntry>
    requires forall i :: 0 <= i < |contents| ==> contents[i].parts != []
  {
    seq(|contents|, i requires 0 <= i < |contents| => HistoryEntry(contents[i].role, contents[i].parts[0].text))
  }

  /** The SDK history keeps order, roles and texts: it can be read back unchanged. */
  lemma SdkHistoryRoundTrip(history: seq<HistoryEntry>)
    ensures EntriesOf(SdkHistory(history)) == history
  {
  }

  /** An awaited call to a service: it returns a value or throws with a message. */
  datatype Outcome<T> = Returned(value: T) | Threw(message: string)

  /** What `generateChatResponse` returns: `{text}` or `{error}`. */
  datatype ChatReply = ReplyText(text: string) | ReplyError(error: string)

  /** `generateChatResponse(history, message)`. `chat(h, m)` is what the text model
      does when a chat started with history `h` is sent `m`. */
  function GenerateChatResponse(
    cookieKey: Option<string>, envKey: Option<string>,
    history: seq<HistoryEntry>, message: string,
    chat: (seq<Content>, string) -> Outcome<string>): (r: ChatReply)
    ensures !Present(cookieKey) && !Present(envKey) ==> r == ReplyError(MissingKeyMessage)
    ensures Present(cookieKey) || Present(envKey) ==>
      match chat(SdkHistory(history), message)
      case Returned(text) => r == ReplyText(text)
      case Threw(m) => r == ReplyError(if m != "" then m else ChatFallbackError)
    ensures r.ReplyError? ==> r.error != ""
  {
    match ResolveApiKey(cookieKey, envKey)
    case Err(e) => ReplyError(OrElse(e, ChatFallbackError))
    case Ok(_) =>
      match chat(SdkHistory(history), message)
      case Returned(text) => ReplyText(text)
      case Threw(m) => ReplyError(OrElse(m, ChatFallbackError))
  }

  const NanoBanana: string := "nano-banana"
  const ProBanana: string := "pro-banana"
  const ProImageModel: string := "gemini-3-pro-image-preview"
  const FlashImageModel: string := "gemini-2.5-flash-image"

  /** The image model and its request options. */
  datatype ModelConfig = ModelConfig(model: string, responseModalities: Option<seq<string>>)

  /** The `image_model` cookie when it is non-empty, otherwise `nano-banana`. */
  function SelectedImageModel(cookie: Option<string>): string {
    if Present(cookie) then cookie.value else NanoBanana
  }

  /** The request options for the image model. `pro-banana` selects the pro model
      without extra options; every other choice selects the flash model, and only
      `nano-banana` (the default) also asks for image-only output. */
  function ImageModelConfig(cookie: Option<string>): (c: ModelConfig)
    ensures SelectedImageModel(cookie) == ProBanana <==> c.model == ProImageModel
    ensures SelectedImageModel(cookie) != ProBanana <==> c.model == FlashImageModel
    ensures c.responseModalities.Some? <==> SelectedImageModel(cookie) == NanoBanana
    ensures c.responseModalities.Some? ==> c.responseModalities.value == ["IMAGE"]
    ensures !Present(cookie) ==> c == ModelConfig(FlashImageModel, Some(["IMAGE"]))
  {
    var selected := SelectedImageModel(cookie);
    var name := if selected == ProBanana then ProImageModel else FlashImageModel;
    if selected == NanoBanana then ModelConfig(name, Some(["IMAGE"])) else ModelConfig(name, None)
  }

  datatype InlineData = InlineData(mimeType: string, data: string)

  /** The first part of the first candidate of the image model's answer: its
      inline data if it has any, and the JSON text of its key list and of itself
      (what the error report shows). */
  datatype ResponsePart = ResponsePart(inlineData: Option<InlineData>, keysJson: string, json: string)

  /** `data:${mimeType};base64,${data}`. */
  function DataUri(d: InlineData): (r: string)
    ensures "data:" <= r
    ensures |r| == 13 + |d.mimeType| + |d.data|
  {
    "data:" + d.mimeType + ";base64," + d.data
  }

  /** Splits a data URI at its first `;base64,` back into type and payload. */
  function ParseDataUri(uri: string): Option<InlineData> {
    if !("data:" <= uri) then None
    else match IndexOf(uri, ";base64,", 5)
      case None => None
      case Some(j) => Some(InlineData(uri[5..j], uri[j + 8..]))
  }

  /** A data URI built from a MIME type without parameters gives back the type
      and the payload it was built from. */
  lemma DataUriRoundTrip(d: InlineData)
    requires ';' !in d.mimeType
    ensures ParseDataUri(DataUri(d)) == Some(d)
  {
    var uri := DataUri(d);
    var at := 5 + |d.mimeType|;
    assert uri[at..at + 8] == ";base64,";
    assert OccursAt(uri, ";base64,", at);
    forall j | 5 <= j < at
      ensures !OccursAt(uri, ";base64,", j)
    {
      assert uri[j] == d.mimeType[j - 5];
    }
    var found := IndexOf(uri, ";base64,", 5);
    assert found == Some(at);
    assert uri[5..at] == d.mimeType;
    assert uri[at + 8..] == d.data;
  }

  /** What `generateImageFromImpression` returns: `{image, prompt}` or `{error}`. */
  datatype ImageReply = ImageOk(image: string, prompt: string) | ImageError(error: string)

  const FormatNotSupported: string := "Format not supported."

  /** The error for an answer without inline image data: the part's key list and
      at most 500 characters of its JSON text (`null` and `undefined` when the
      answer has no part at all). */
  function UnsupportedFormatError(part: Option<ResponsePart>): (r: string)
    ensures FormatNotSupported <= r
  {
    FormatNotSupported + " Part structure: " + (if part.Some? then part.value.keysJson else "null")
      + ". Full part: " + (if part.Some? then Take(part.value.json, 500) else "undefined")
  }

  /** `generateImageFromImpression(bookTitle, history)`:
      1. `describe(h, title)` is the text model, in a chat started with history
         `h`, writing an English image prompt about the book;
      2. `paint(config, prompt)` is the image model's answer to that prompt;
      3. `translate(h, prompt)` is the same chat translating the prompt for the
         caption. `h` is still the history the chat was started
         with: the describe exchange the chat has recorded since is not passed,
         so the oracle stands for a chat that remembers it.
      The reply is an image exactly when every step succeeds and the answer has
      inline data; the image is then the data URI of that data and the caption
      is the translation. */
  function GenerateImageFromImpression(
    cookieKey: Option<string>, envKey: Option<string>, modelCookie: Option<string>,
    bookTitle: string, history: seq<HistoryEntry>,
    describe: (seq<Content>, string) -> Outcome<string>,
    paint: (ModelConfig, string) -> Outcome<Option<ResponsePart>>,
    translate: (seq<Content>, string) -> Outcome<string>): (r: ImageReply)
    ensures r.ImageOk? <==>
      && (Present(cookieKey) || Present(envKey))
      && describe(SdkHistory(history), bookTitle).Returned?
      && var prompt := describe(SdkHistory(history), bookTitle).value;
      && paint(ImageModelConfig(modelCookie), prompt).Returned?
      && var part := paint(ImageModelConfig(modelCookie), prompt).value;
      && part.Some? && part.value.inlineData.Some?
      && translate(SdkHistory(history), prompt).Returned?
    ensures r.ImageOk? ==>
      var prompt := describe(SdkHistory(history), bookTitle).value;
      && r.image == DataUri(paint(ImageModelConfig(modelCookie), prompt).value.value.inlineData.value)
      && r.prompt == translate(SdkHistory(history), prompt).value
    ensures (Present(cookieKey) || Present(envKey)) && describe(SdkHistory(history), bookTitle).Returned? ==>
      var prompt := describe(SdkHistory(history), bookTitle).value;
      paint(ImageModelConfig(modelCookie), prompt).Returned? ==>
      var part := paint(ImageModelConfig(modelCookie), prompt).value;
      !(part.Some? && part.value.inlineData.Some?) ==> r.ImageError? && FormatNotSupported <= r.error
    ensures r.ImageError? ==> r.error != ""
  {
    match ResolveApiKey(cookieKey, envKey)
    case Err(e) => ImageError(OrElse(e, ImageFallbackError))
    case Ok(_) =>
      var chatHistory := SdkHistory(history);
      match describe(chatHistory, bookTitle)
      case Threw(m) => ImageError(OrElse(m, ImageFallbackError))
      case Returned(prompt) =>
        match paint(ImageModelConfig(modelCookie), prompt)
        case Threw(m) => ImageError(OrElse(m, ImageFallbackError))
        case Returned(part) =>
          if part.Some? && part.value.inlineData.Some? then
            match translate(chatHistory, prompt)
            case Threw(m) => ImageError(OrElse(m, ImageFallbackError))
            case Returned(caption) => ImageOk(DataUri(part.value.inlineData.value), caption)
          else
            ImageError(UnsupportedFormatError(part))
  }

  /** A book-search hit's `volumeInfo`. */
  datatype Volume = Volume(title: Option<string>, authors: Option<seq<string>>, description: Option<string>)

  /** The authors joined with `, `, or `Unknown` when the hit has no author list. */
  function AuthorsText(v: Volume): (r: string)
    ensures v.authors.None? ==> r == "Unknown"
    ensures v.authors.Some? ==> r == Join(v.authors.value, ", ")
    ensures v.authors == Some([]) ==> r == ""
  {
    if v.authors.Some? then Join(v.authors.value, ", ") else "Unknown"
  }

  /** The first 100 characters of the description followed by `...`, or `N/A`
      when the description is missing or empty. */
  function DescriptionText(v: Volume): (r: string)
    ensures !Present(v.description) <==> r == "N/A"
    ensures Present(v.description) ==> |r| <= 103 && Take(v.description.value, 100) + "..." == r
    ensures Present(v.description) && |v.description.value| <= 100 ==> r == v.description.value + "..."
  {
    if Present(v.description) then Take(v.description.value, 100) + "..." else "N/A"
  }

  /** A template literal prints a missing title as `undefined`. */
  function TitleText(v: Volume): (r: string)
    ensures v.title.Some? ==> r == v.title.value
    ensures v.title.None? ==> r == "undefined"
  {
    if v.title.Some? then v.title.value else "undefined"
  }

  /** The line offered to the AI for the hit at position `index`. */
  function CandidateLine(index: nat, v: Volume): (r: string)
    ensures Decimal(index + 1) + ". Title: " + TitleText(v) + ", Author(s): " + AuthorsText(v) + ", Description: " <= r
    ensures |DescriptionText(v)| < |r| && r[|r| - |DescriptionText(v)|..] == DescriptionText(v)
    ensures Decimal(index + 1) + ". Title: " <= r
    ensures |r| == |Decimal(index + 1) + ". Title: " + TitleText(v) + ", Author(s): " + AuthorsText(v) + ", Description: "|
      + |DescriptionText(v)|
  {
    var number := Decimal(index + 1) + ". Title: ";
    var head := number + TitleText(v) + ", Author(s): " + AuthorsText(v) + ", Description: ";
    var line := head + DescriptionText(v);
    assert line[..|head|] == head;
    assert line[..|number|] == number;
    assert line[|line| - |DescriptionText(v)|..] == DescriptionText(v);
    line
  }

  /** One line per hit, in order, numbered from 1. */
  function CandidateLines(items: seq<Volume>): (r: seq<string>)
    ensures |r| == |items|
    ensures forall i :: 0 <= i < |r| ==> r[i] == CandidateLine(i, items[i])
    ensures forall i :: 0 <= i < |r| ==> Decimal(i + 1) + ". Title: " <= r[i]
  {
    seq(|items|, i requires 0 <= i < |items| => CandidateLine(i, items[i]))
  }

  /** The author answer after the fallback: when the trimmed AI answer is empty or
      longer than 50 characters and the first hit lists authors, those authors
      joined with `, `; otherwise the answer itself. */
  function AuthorFallback(answer: string, first: Volume): (r: string)
    ensures answer != "" && |answer| <= 50 ==> r == answer
    ensures first.authors.None? || first.authors.value == [] ==> r == answer
    ensures (answer == "" || |answer| > 50) && first.authors.Some? && first.authors.value != []
      ==> r == Join(first.authors.value, ", ")
  {
    if (answer == "" || |answer| > 50) && first.authors.Some? && |first.authors.value| > 0 then
      Join(first.authors.value, ", ")
    else
      answer
  }

  /** The lookup after a failure: a one-hit search, whose authors are the answer
      when it has an author list. */
  function RetryAuthor(retry: Outcome<Option<seq<Volume>>>): (r: Option<string>)
    ensures r.Some? ==>
      && retry.Returned? && retry.value.Some? && retry.value.value != []
      && retry.value.value[0].authors.Some? && r.value == Join(retry.value.value[0].authors.value, ", ")
    ensures retry.Returned? && retry.value.Some? && retry.value.value != [] && retry.value.value[0].authors.Some?
      ==> r == Some(Join(retry.value.value[0].authors.value, ", "))
  {
    if retry.Returned? && retry.value.Some? && retry.value.value != [] && retry.value.value[0].authors.Some? then
      Some(Join(retry.value.value[0].authors.value, ", "))
    else
      None
  }

  /** The search answer has at least one hit. */
  predicate HasHits(items: Option<seq<Volume>>) {
    items.Some? && items.value != []
  }

  /** `findAuthor(bookTitle)`. `search(t, n)` is the book search for title `t`
      with at most `n` hits (`None` when the answer has no `items`), and
      `pick(t, c)` is the text model choosing an author for `t` among the
      candidate text `c`. No hits gives no author; a failure at any step falls
      back to a one-hit search. */
  function FindAuthor(
    bookTitle: string, cookieKey: Option<string>, envKey: Option<string>,
    search: (string, nat) -> Outcome<Option<seq<Volume>>>,
    pick: (string, string) -> Outcome<string>): (r: Option<string>)
    ensures search(bookTitle, 5).Returned? && !HasHits(search(bookTitle, 5).value) ==> r.None?
    ensures search(bookTitle, 5).Threw? ==> r == RetryAuthor(search(bookTitle, 1))
    ensures search(bookTitle, 5).Returned? && HasHits(search(bookTitle, 5).value) && !Present(cookieKey) && !Present(envKey)
      ==> r == RetryAuthor(search(bookTitle, 1))
    ensures search(bookTitle, 5).Returned? && HasHits(search(bookTitle, 5).value) && (Present(cookieKey) || Present(envKey))
      ==> var items := search(bookTitle, 5).value.value;
          match pick(bookTitle, Join(CandidateLines(items), "\n"))
          case Returned(answer) => r == Some(AuthorFallback(Trim(answer), items[0]))
          case Threw(_) => r == RetryAuthor(search(bookTitle, 1))
  {
    match search(bookTitle, 5)
    case Threw(_) => RetryAuthor(search(bookTitle, 1))
    case Returned(items) =>
      if !HasHits(items) then None
      else
        match ResolveApiKey(cookieKey, envKey)
        case Err(_) => RetryAuthor(search(bookTitle, 1))
        case Ok(_) =>
          match pick(bookTitle, Join(CandidateLines(items.value), "\n"))
          case Threw(_) => RetryAuthor(search(bookTitle, 1))
          case Returned(answer) => Some(AuthorFallback(Trim(answer), items.value[0]))
  }
}

/** The decisions the content script (src/content.js) makes before it talks
    to the background worker or builds anything for display: when to search, when to
    start watching for an answer, when to cache it, what a match
    notification's strings hold and which file actions are offered. The page itself
    (elements, events, observers, timers) is reduced to the strings and
    flags these decisions read. */
module Content {
  import opened Wrappers
  import opened TextUtil
  import opened CacheStore
  import opened SimilaritySearch
  import opened Background

  /** A typed prompt shorter than this (after trimming) is not searched for. */
  const MinSearchLength: nat := 25

  /** An answer must be longer than this to be cached. */
  const MinAnswerLength: nat := 10

  /** How much of the earlier prompt and answer goes into a notification. */
  const PromptPreviewLength: nat := 100
  const AnswerPreviewLength: nat := 200

  /** `handleTypingSearch` on a key-up: the search message it sends once the
      debounce timer fires, if any. The trimmed text is searched for, and only
      when it is at least MinSearchLength characters long. */
  function TypingSearch(textContent: string): (r: Option<Request>)
    ensures r.Some? <==> |Trim(textContent)| >= MinSearchLength
    ensures r.Some? ==> r.value.Message? && r.value.action == SearchAction
    ensures r.Some? ==> r.value.text == Trim(textContent) && |r.value.text| >= MinSearchLength
  {
    var promptText := Trim(textContent);
    if |promptText| < MinSearchLength then None else Some(SearchMessage(promptText))
  }

  /** `handleSendAndCache` on a key-down: the prompt whose answer is then
      watched for. Only a plain Enter (Shift not held) on a prompt that is not
      blank after trimming starts the watch. */
  function SendKey(key: string, shiftKey: bool, textContent: string): (r: Option<string>)
    ensures r.Some? <==> key == "Enter" && !shiftKey && Trim(textContent) != ""
    ensures r.Some? ==> r.value == Trim(textContent) && |r.value| > 0
    ensures r.Some? ==> !IsWhitespace(r.value[0]) && !IsWhitespace(r.value[|r.value| - 1])
  {
    if key == "Enter" && !shiftKey then
      var prompt := Trim(textContent);
      if prompt != "" then Some(prompt) else None
    else None
  }

  /** The text of a rendered answer element. */
  datatype Rendered = Rendered(textContent: string, innerText: string)

  /** `textContent || innerText`: the text content unless it is empty. */
  function AnswerText(el: Rendered): string
  {
    if el.textContent != "" then el.textContent else el.innerText
  }

  /** `cachePromptAndAnswer`: the cache message sent for the last rendered
      answer, if any. Nothing is sent when there is no answer element or
      when the answer is MinAnswerLength characters or shorter. */
  function CacheRequest(prompt: string, answers: seq<Rendered>): (r: Option<Request>)
    ensures r.Some? <==> |answers| > 0 && |AnswerText(answers[|answers| - 1])| > MinAnswerLength
    ensures r.Some? ==>
      && r.value.Message? && r.value.action == CacheAction && r.value.prompt == prompt
      && r.value.answer == AnswerText(answers[|answers| - 1])
      && |r.value.answer| > MinAnswerLength
  {
    if |answers| == 0 then None
    else
      var answerText := AnswerText(answers[|answers| - 1]);
      if answerText != "" && |answerText| > MinAnswerLength then Some(CacheMessage(prompt, answerText))
      else None
  }

  /** The prompt and answer strings interpolated into a match notification's
      markup. */
  datatype Notice = Notice(asked: string, answered: string)

  /** What the search reply leads to: a notification exactly when it carries
      a match, whose prompt and answer strings are the truncated earlier
      prompt and answer. */
  function MatchNotice(reply: Response): (r: Option<Notice>)
    ensures r.Some? <==> reply.SearchReply? && reply.result.Some?
    ensures r.Some? ==>
      var m := reply.result.value;
      && |r.value.asked| <= PromptPreviewLength + |Ellipsis|
      && |r.value.answered| <= AnswerPreviewLength + |Ellipsis|
      && (|m.entry.prompt| <= PromptPreviewLength ==> r.value.asked == m.entry.prompt)
      && (|m.entry.prompt| > PromptPreviewLength ==>
            r.value.asked == m.entry.prompt[..PromptPreviewLength] + Ellipsis)
      && (|m.entry.answer| <= AnswerPreviewLength ==> r.value.answered == m.entry.answer)
      && (|m.entry.answer| > AnswerPreviewLength ==>
            r.value.answered == m.entry.answer[..AnswerPreviewLength] + Ellipsis)
  {
    match reply
    case SearchReply(Some(m)) =>
      TruncateBound(m.entry.prompt, PromptPreviewLength);
      TruncateBound(m.entry.answer, AnswerPreviewLength);
      Some(Notice(TruncateText(m.entry.prompt, PromptPreviewLength), TruncateText(m.entry.answer, AnswerPreviewLength)))
    case _ => None
  }

  /** The buttons of the file modal, in the order they appear. */
  datatype FileAction = Compress | Extract | Upload

  const ImagePrefix: string := "image/"
  const PdfType: string := "application/pdf"

  function Rank(a: FileAction): nat
  {
    match a
    case Compress => 0
    case Extract => 1
    case Upload => 2
  }

  /** `showFileOptionsModal`: the actions offered for a file of the given
      MIME type. Upload is always offered, last; Compress exactly for image
      types; Extract exactly for PDF; the order is that of the modal. */
  function FileOptions(mimeType: string): (r: seq<FileAction>)
    ensures |r| > 0 && r[|r| - 1] == Upload
    ensures Compress in r <==> ImagePrefix <= mimeType
    ensures Extract in r <==> mimeType == PdfType
    ensures forall i, j | 0 <= i < j < |r| :: Rank(r[i]) < Rank(r[j])
  {
    (if ImagePrefix <= mimeType then [Compress] else [])
    + (if mimeType == PdfType then [Extract] else [])
    + [Upload]
  }

  /** No MIME type is offered both compression and extraction. */
  lemma NeverCompressAndExtract(mimeType: string)
    ensures !(Compress in FileOptions(mimeType) && Extract in FileOptions(mimeType))
  {
    if mimeType == PdfType {
      assert mimeType[0] != ImagePrefix[0];
    }
  }

  /** A dropped file as the modal reads it. */
  datatype DroppedFile = DroppedFile(name: string, size: nat, mimeType: string)

  /** `handleFileDrop`: the options offered for the first dropped file; no
      modal when nothing was dropped. */
  function OnDrop(files: seq<DroppedFile>): (r: Option<seq<FileAction>>)
    ensures r.Some? <==> |files| > 0
    ensures r.Some? ==> |r.value| > 0 && r.value[|r.value| - 1] == Upload
    ensures r.Some? ==> forall i, j | 0 <= i < j < |r.value| :: Rank(r.value[i]) < Rank(r.value[j])
    ensures r.Some? ==> (Compress in r.value <==> ImagePrefix <= files[0].mimeType)
    ensures r.Some? ==> (Extract in r.value <==> files[0].mimeType == PdfType)
  {
    if |files| == 0 then None else Some(FileOptions(files[0].mimeType))
  }

  /** The `data-action` value of each button. */
  function ActionName(a: FileAction): string
  {
    match a
    case Compress => "compress"
    case Extract => "extract"
    case Upload => "upload"
  }

  /** The `switch` of `handleFileAction`: the action a `data-action` value
      selects; any other value does nothing. */
  function ParseAction(name: string): (r: Option<FileAction>)
    ensures r.Some? ==> ActionName(r.value) == name
  {
    if name == "compress" then Some(Compress)
    else if name == "extract" then Some(Extract)
    else if name == "upload" then Some(Upload)
    else None
  }

  /** Every button the modal offers selects its own action when clicked. */
  lemma ParseActionName(a: FileAction)
    ensures ParseAction(ActionName(a)) == Some(a)
  {
  }

  /** A cache message sent for an answer is, once handled with a working
      model, stored as the newest record: the prompt with that answer text,
      which is longer than MinAnswerLength. */
  lemma CachedAnswerIsStored(prompt: string, answers: seq<Rendered>, cache: Cache,
                             embed: Embedder, sim: Similarity, now: int)
    requires CacheRequest(prompt, answers).Some?
    requires embed(prompt).Some?
    ensures var h := OnMessage(CacheRequest(prompt, answers).value, cache, embed, sim, now);
      && h.reply == Some(Success)
      && |h.cache| > 0
      && h.cache[|h.cache| - 1] == Entry(prompt, AnswerText(answers[|answers| - 1]), embed(prompt).value, now)
      && |h.cache[|h.cache| - 1].answer| > MinAnswerLength
  {
    var req := CacheRequest(prompt, answers).value;
    InsertShape(cache, Entry(req.prompt, req.answer, embed(prompt).value, now));
  }

  /** Typing a prompt and getting the worker's reply leads to a notice
      exactly when the worker found a match for the text that was sent. */
  lemma NoticeIffMatch(textContent: string, cache: Cache, embed: Embedder, sim: Similarity, now: int)
    requires TypingSearch(textContent).Some?
    ensures var h := OnMessage(TypingSearch(textContent).value, cache, embed, sim, now);
      && h.reply.Some?
      && (MatchNotice(h.reply.value).Some? <==> SearchCache(cache, Trim(textContent), embed, sim).Some?)
  {
  }

  /** The text a plain Enter starts watching for is the text a search on the
      same input would look up, so an answer cached for it is one such a
      search can find. */
  lemma SearchedTextIsCachedPrompt(textContent: string)
    requires TypingSearch(textContent).Some?
    ensures SendKey("Enter", false, textContent) == Some(TypingSearch(textContent).value.text)
  {
  }
}

/** The background worker of src/background.js: the two cache operations as
    seen by a caller (with the embedding model's failures folded in) and the
    `onMessage` listener that maps requests to responses. Storage is the
    value passed in and returned; the clock reading is a parameter. */
module Background {
  import opened Wrappers
  import opened CacheStore
  import opened SimilaritySearch

  /** The feature-extraction pipeline applied to a text: None when loading
      or running the model throws. */
  type Embedder = string -> Option<Embedding>

  /** `searchCache`: no match for an empty cache (the model is not run),
      no match when the model fails, and otherwise the thresholded best
      match for the prompt's embedding. */
  function SearchCache(cache: Cache, promptText: string, embed: Embedder, sim: Similarity): (r: Option<Match>)
    ensures |cache| == 0 ==> r == None
    ensures embed(promptText).None? ==> r == None
    ensures r.Some? ==>
      && embed(promptText).Some?
      && r.value.entry in cache
      && r.value.similarity == Score(sim, embed(promptText).value, r.value.entry)
      && r.value.similarity > Threshold
      && (forall j | 0 <= j < |cache| :: Score(sim, embed(promptText).value, cache[j]) <= r.value.similarity)
    ensures embed(promptText).Some? ==> r == Search(cache, embed(promptText).value, sim)
  {
    if |cache| == 0 then None
    else
      match embed(promptText)
      case None => None
      case Some(query) => Search(cache, query, sim)
  }

  /** `cachePrompt`: when the model fails the error is swallowed and the
      stored cache is left as it was; otherwise a record stamped `now` is
      inserted. */
  function CachePrompt(cache: Cache, prompt: string, answer: string, embed: Embedder, now: int): (r: Cache)
    ensures embed(prompt).None? ==> r == cache
    ensures embed(prompt).Some? ==>
      r == Recent(cache + [Entry(prompt, answer, embed(prompt).value, now)], MaxCacheSize)
    ensures |cache| <= MaxCacheSize ==> |r| <= MaxCacheSize
  {
    match embed(prompt)
    case None => cache
    case Some(embedding) => Insert(cache, Entry(prompt, answer, embedding, now))
  }

  /** A message as received by the listener. `Unreadable` stands for a
      message whose `action` cannot be read (a null message), where the
      property access throws with the given error message. Fields a sender
      leaves out are modelled as empty strings. */
  datatype Request =
    | Message(action: string, text: string, prompt: string, answer: string)
    | Unreadable(error: string)

  /** What `sendResponse` is called with: the search result (null or a
      match), `{success: true}`, or `{error: message}`. */
  datatype Response = SearchReply(result: Option<Match>) | Success | Failure(message: string)

  /** The response sent, if any, and the stored cache afterwards. */
  datatype Handled = Handled(reply: Option<Response>, cache: Cache)

  const SearchAction: string := "searchCache"
  const CacheAction: string := "cachePrompt"

  /** The message to search for a prompt, as the content script sends it. */
  function SearchMessage(text: string): Request
  {
    Message(SearchAction, text, "", "")
  }

  /** The message to cache a prompt and its answer. */
  function CacheMessage(prompt: string, answer: string): Request
  {
    Message(CacheAction, "", prompt, answer)
  }

  /** The `onMessage` listener. A search request is answered with the search
      result and leaves the cache alone; a cache request is answered with
      success and stores the record; an unreadable request is answered with
      its error; any other action gets no answer and changes nothing. */
  function OnMessage(req: Request, cache: Cache, embed: Embedder, sim: Similarity, now: int): (h: Handled)
    ensures h.reply.None? <==> req.Message? && req.action != SearchAction && req.action != CacheAction
    ensures h.reply == Some(Success) <==> req.Message? && req.action == CacheAction
    ensures h.reply.Some? && h.reply.value.SearchReply? <==> req.Message? && req.action == SearchAction
    ensures h.reply.Some? && h.reply.value.SearchReply? ==> h.reply.value.result == SearchCache(cache, req.text, embed, sim)
    ensures h.reply.Some? && h.reply.value.Failure? ==> req == Unreadable(h.reply.value.message)
    ensures h.cache != cache ==> req.Message? && req.action == CacheAction && embed(req.prompt).Some?
    ensures req.Message? && req.action == CacheAction ==> h.cache == CachePrompt(cache, req.prompt, req.answer, embed, now)
  {
    match req
    case Unreadable(error) => Handled(Some(Failure(error)), cache)
    case Message(action, text, prompt, answer) =>
      if action == SearchAction then
        Handled(Some(SearchReply(SearchCache(cache, text, embed, sim))), cache)
      else if action == CacheAction then
        Handled(Some(Success), CachePrompt(cache, prompt, answer, embed, now))
      else
        Handled(None, cache)
  }

  /** A request together with the clock reading at the time it is handled. */
  datatype Event = Event(request: Request, now: int)

  /** The stored cache after the listener has handled `events` in order,
      each to completion before the next starts (no interleaving of one
      handler's storage read and write with another's). */
  function Run(cache: Cache, events: seq<Event>, embed: Embedder, sim: Similarity): Cache
    decreases |events|
  {
    if |events| == 0 then cache
    else Run(OnMessage(events[0].request, cache, embed, sim, events[0].now).cache, events[1..], embed, sim)
  }

  /** The record a single event stores, if any. */
  function RecordOf(ev: Event, embed: Embedder): (r: Option<Entry>)
  {
    match ev.request
    case Message(action, _, prompt, answer) =>
      if action == CacheAction && embed(prompt).Some? then Some(Entry(prompt, answer, embed(prompt).value, ev.now)) else None
    case Unreadable(_) => None
  }

  /** The records the events store, in order. */
  function Recorded(events: seq<Event>, embed: Embedder): seq<Entry>
    decreases |events|
  {
    if |events| == 0 then []
    else
      var rest := Recorded(events[1..], embed);
      match RecordOf(events[0], embed)
      case None => rest
      case Some(e) => [e] + rest
  }

  /** Handling a run of requests is inserting, in order, exactly the records
      of its successful cache requests: searches, unknown actions, unreadable
      requests and failed embeddings leave the cache alone. */
  lemma {:induction false} RunInsertsRecorded(cache: Cache, events: seq<Event>, embed: Embedder, sim: Similarity)
    ensures Run(cache, events, embed, sim) == InsertAll(cache, Recorded(events, embed))
    decreases |events|
  {
    if |events| > 0 {
      var ev := events[0];
      var next := OnMessage(ev.request, cache, embed, sim, ev.now).cache;
      RunInsertsRecorded(next, events[1..], embed, sim);
      var rest := Recorded(events[1..], embed);
      match RecordOf(ev, embed)
      case None =>
        assert next == cache;
      case Some(e) =>
        assert next == Insert(cache, e);
        InsertAllFirst(cache, [e] + rest);
        assert ([e] + rest)[1..] == rest;
    }
  }

  /** After any run that stores at least one record, the cache holds exactly
      the most recent MaxCacheSize records of (the old records followed by
      the stored ones). */
  lemma RunKeepsMostRecent(cache: Cache, events: seq<Event>, embed: Embedder, sim: Similarity)
    requires |Recorded(events, embed)| > 0
    ensures Run(cache, events, embed, sim) == Recent(cache + Recorded(events, embed), MaxCacheSize)
  {
    RunInsertsRecorded(cache, events, embed, sim);
    InsertAllKeepsMostRecent(cache, Recorded(events, embed));
  }

  /** Capacity invariant over any run of requests. */
  lemma RunKeepsCapacity(cache: Cache, events: seq<Event>, embed: Embedder, sim: Similarity)
    requires |cache| <= MaxCacheSize
    ensures |Run(cache, events, embed, sim)| <= MaxCacheSize
  {
    RunInsertsRecorded(cache, events, embed, sim);
    CapacityInvariant(cache, Recorded(events, embed));
  }

  /** Once a prompt is cached, searching for the same text finds a match at
      least as similar as the prompt is to itself, provided that
      self-similarity clears the threshold. */
  lemma RecallAfterCaching(cache: Cache, prompt: string, answer: string, embed: Embedder, sim: Similarity, now: int)
    requires embed(prompt).Some?
    requires sim(embed(prompt).value, embed(prompt).value) > Threshold
    ensures var r := SearchCache(CachePrompt(cache, prompt, answer, embed, now), prompt, embed, sim);
      r.Some? && r.value.similarity >= sim(embed(prompt).value, embed(prompt).value)
  {
  }
}

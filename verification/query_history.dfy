/** The builder's history list, its built-in templates and its input
    suggestions.  History entries are identified by an id the caller
    supplies (the source derives it from the clock); persistence of the
    list is not modelled. */
module QueryHistory {
  import opened Results
  import opened JsStrings
  import opened QueryBuilder
  import opened QueryReducers

  /** The most entries the history keeps. */
  const MaxHistory := 50

  /** At most one entry per resolved query string. */
  predicate UniqueQueries(h: seq<HistoryEntry>) {
    forall i, j :: 0 <= i < j < |h| ==> h[i].query != h[j].query
  }

  /** Index of the first entry whose query is `q`, if any. */
  function FindQuery(h: seq<HistoryEntry>, q: string): (r: Option<nat>)
    ensures r.None? <==> forall k :: 0 <= k < |h| ==> h[k].query != q
    ensures r.Some? ==> r.value < |h| && h[r.value].query == q
                        && forall k :: 0 <= k < r.value ==> h[k].query != q
  {
    if |h| == 0 then None
    else if h[0].query == q then Some(0)
    else match FindQuery(h[1..], q)
      case None => None
      case Some(k) => Some(k + 1)
  }

  /** Index of the first entry whose id is `id`, if any. */
  function FindId(h: seq<HistoryEntry>, id: string): (r: Option<nat>)
    ensures r.None? <==> forall k :: 0 <= k < |h| ==> h[k].id != id
    ensures r.Some? ==> r.value < |h| && h[r.value].id == id
                        && forall k :: 0 <= k < r.value ==> h[k].id != id
  {
    if |h| == 0 then None
    else if h[0].id == id then Some(0)
    else match FindId(h[1..], id)
      case None => None
      case Some(k) => Some(k + 1)
  }

  function Cap(h: seq<HistoryEntry>): (r: seq<HistoryEntry>)
    ensures |r| <= MaxHistory && r <= h
    ensures |h| <= MaxHistory ==> r == h
  {
    if |h| > MaxHistory then h[..MaxHistory] else h
  }

  /** The entry `saveToHistory` records; an empty or absent name falls
      back to the description of the conditions. */
  function NewEntry(b: Builder, name: Option<string>, id: string, timestamp: string): HistoryEntry {
    HistoryEntry(
      id,
      if name.None? || name.value == "" then Describe(b.conditions) else name.value,
      Build(b),
      b.conditions,
      timestamp,
      if b.currentUser.Some? then Some(b.currentUser.value.username) else None)
  }

  /** `saveToHistory(name)`: nothing happens when the built query is empty;
      an entry with the same query is replaced where it stands; a new query
      is prepended; the list is cut to 50.  Returns the new entry's id. */
  function SaveToHistory(b: Builder, name: Option<string>, id: string, timestamp: string)
    : (r: (Builder, Option<string>))
    ensures Build(b) == "" ==> r == (b, None)
    ensures Build(b) != "" ==> r.1 == Some(id)
    ensures r.0.conditions == b.conditions && r.0.currentUser == b.currentUser
    ensures Build(b) != "" ==> |r.0.history| <= MaxHistory
    ensures Build(b) != "" && FindQuery(b.history, Build(b)).Some? ==>
      r.0.history == Cap(b.history[FindQuery(b.history, Build(b)).value := NewEntry(b, name, id, timestamp)])
    ensures Build(b) != "" && FindQuery(b.history, Build(b)).None? ==>
      r.0.history == Cap([NewEntry(b, name, id, timestamp)] + b.history)
  {
    var query := Build(b);
    if query == "" then (b, None)
    else
      var item := NewEntry(b, name, id, timestamp);
      var h := match FindQuery(b.history, query)
        case Some(i) => b.history[i := item]
        case None => [item] + b.history;
      (b.(history := Cap(h)), Some(id))
  }

  /** `loadFromHistory(id)`: copies the first entry with that id into the
      conditions and reports whether one was found. */
  function LoadFromHistory(b: Builder, id: string): (r: (Builder, bool))
    ensures r.1 <==> exists k :: 0 <= k < |b.history| && b.history[k].id == id
    ensures !r.1 ==> r.0 == b
    ensures r.1 ==> FindId(b.history, id).Some?
                    && r.0.conditions == b.history[FindId(b.history, id).value].conditions
    ensures r.0.currentUser == b.currentUser && r.0.history == b.history
  {
    match FindId(b.history, id)
      case None => (b, false)
      case Some(i) => (b.(conditions := b.history[i].conditions), true)
  }

  /** `clearHistory()`. */
  function ClearHistory(b: Builder): (r: Builder)
    ensures r.history == [] && r.conditions == b.conditions && r.currentUser == b.currentUser
  {
    b.(history := [])
  }

  // -------------------------------------------------------------- templates

  datatype Template = Template(id: string, name: string, description: string, conditions: seq<string>)

  /** `getSearchTemplates()`. */
  const Templates: seq<Template> := [
    Template("popular_tweets", "热门推文", "查找高互动的推文",
             ["min_faves:100", "min_retweets:50", "-filter:replies"]),
    Template("recent_media", "最新媒体", "最近的图片和视频",
             ["filter:media", "within_time:24h"]),
    Template("verified_news", "认证用户新闻", "来自认证用户的新闻",
             ["filter:verified", "filter:news", "filter:links"]),
    Template("user_threads", "用户推文串", "用户的推文串",
             ["filter:self_threads"]),
    Template("trending_hashtags", "热门话题", "包含话题标签的热门内容",
             ["filter:hashtags", "min_faves:50"])
  ]

  function FindTemplate(ts: seq<Template>, id: string): (r: Option<nat>)
    ensures r.None? <==> forall k :: 0 <= k < |ts| ==> ts[k].id != id
    ensures r.Some? ==> r.value < |ts| && ts[r.value].id == id
  {
    if |ts| == 0 then None
    else if ts[0].id == id then Some(0)
    else match FindTemplate(ts[1..], id)
      case None => None
      case Some(k) => Some(k + 1)
  }

  /** `applyTemplate(id)`: replaces (does not merge) the conditions with
      the template's; an unknown id changes nothing and reports false. */
  function ApplyTemplate(b: Builder, id: string): (r: (Builder, bool))
    ensures r.1 <==> exists k :: 0 <= k < |Templates| && Templates[k].id == id
    ensures !r.1 ==> r.0 == b
    ensures r.1 ==> exists k :: 0 <= k < |Templates| && Templates[k].id == id
                               && r.0.conditions == Templates[k].conditions
    ensures r.0.currentUser == b.currentUser && r.0.history == b.history
  {
    match FindTemplate(Templates, id)
      case None => (b, false)
      case Some(i) => (b.(conditions := Templates[i].conditions), true)
  }

  // ------------------------------------------------------------ suggestions

  datatype Suggestion = Suggestion(kind: string, text: string, description: string)

  /** `getSuggestions(input)`: a fixed list chosen by the input's first
      character. */
  function GetSuggestions(input: string): (r: seq<Suggestion>)
    ensures |r| >= 1
    ensures StartsWith(input, "#") ==>
      forall k :: 0 <= k < |r| ==> r[k].kind == "hashtag" && StartsWith(r[k].text, "#")
    ensures !StartsWith(input, "#") && StartsWith(input, "@") ==>
      forall k :: 0 <= k < |r| ==> r[k].kind == "mention" && StartsWith(r[k].text, "@")
    ensures !StartsWith(input, "#") && !StartsWith(input, "@") && StartsWith(input, "$") ==>
      forall k :: 0 <= k < |r| ==> r[k].kind == "cashtag" && StartsWith(r[k].text, "$")
    ensures !StartsWith(input, "#") && !StartsWith(input, "@") && !StartsWith(input, "$") ==>
      forall k :: 0 <= k < |r| ==> r[k].kind == "keyword"
  {
    if StartsWith(input, "#") then
      [Suggestion("hashtag", "#trending", "热门话题"),
       Suggestion("hashtag", "#news", "新闻话题"),
       Suggestion("hashtag", "#tech", "科技话题")]
    else if StartsWith(input, "@") then
      [Suggestion("mention", "@username", "提及用户")]
    else if StartsWith(input, "$") then
      [Suggestion("cashtag", "$AAPL", "苹果股票"),
       Suggestion("cashtag", "$TSLA", "特斯拉股票")]
    else
      [Suggestion("keyword", "filter:verified", "仅认证用户"),
       Suggestion("keyword", "filter:media", "包含媒体"),
       Suggestion("keyword", "min_faves:10", "至少10个赞"),
       Suggestion("keyword", "lang:en", "英文推文")]
  }
}

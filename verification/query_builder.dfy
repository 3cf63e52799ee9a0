/** The condition accumulator of the X search query builder.

    A builder keeps an ordered list of conditions, each one atomic term of
    the X search grammar (`from:alice`, `"exact phrase"`, `min_faves:10`,
    ...).  Every accumulator appends zero or one condition per recognised
    input; only `Reset`, template application and history loading replace
    the list.  Accumulators that throw in the source return `Err` here and
    leave the builder untouched.

    JavaScript options objects become records; a string option that is
    absent, `null` or empty (all falsy) is written as "". */
module QueryBuilder {
  import opened Results
  import opened JsStrings

  datatype User = User(username: string, displayName: string)

  datatype HistoryEntry = HistoryEntry(
    id: string,
    name: string,
    query: string,
    conditions: seq<string>,
    timestamp: string,
    user: Option<string>)

  datatype Builder = Builder(
    conditions: seq<string>,
    currentUser: Option<User>,
    history: seq<HistoryEntry>)

  /** The errors the source throws for a categorical argument outside its
      fixed set. */
  datatype BuilderError =
    | InvalidUserType(kind: string)
    | InvalidFilter(name: string)
    | InvalidEngagement(kind: string)

  datatype KeywordOptions = KeywordOptions(
    exact: bool,
    exclude: bool,
    operator: string,
    wildcard: bool,
    forceOriginal: bool)

  /** The option defaults of `addKeywords`. */
  const DefaultKeywordOptions := KeywordOptions(false, false, "AND", false, false)

  datatype TimeRangeOptions = TimeRangeOptions(
    since: string, until: string, sinceTime: string, untilTime: string,
    sinceId: string, maxId: string, withinTime: string,
    sinceDateTime: string, untilDateTime: string)

  datatype LocationOptions = LocationOptions(
    city: string, near: string, within: string, geocode: string, placeId: string)

  datatype TweetTypeOptions = TweetTypeOptions(
    conversationId: string, quotedTweetId: string, quotedUserId: string,
    cardName: string, cardDomain: string, source: string)

  const UserConditionTypes: seq<string> := ["from", "to", "@"]

  const SupportedLanguages: seq<string> := [
    "en", "zh", "ja", "ko", "es", "fr", "de", "it", "pt", "ru", "ar",
    "und", "qam", "qct", "qht", "qme", "qst", "zxx"
  ]

  const ValidFilters: seq<string> := [
    "verified", "blue_verified", "follows", "social", "trusted",
    "replies", "links", "media", "images", "videos",
    "nativeretweets", "retweets", "quote", "self_threads",
    "has_engagement", "news", "safe", "hashtags"
  ]

  const ValidIncludes: seq<string> := ["nativeretweets"]

  const EngagementTypes: seq<string> := ["retweets", "faves", "likes", "replies"]

  /** A fresh builder: no conditions, no current user, empty history. */
  function NewBuilder(): (b: Builder)
    ensures b.conditions == [] && b.currentUser == None && b.history == []
  {
    Builder([], None, [])
  }

  /** `b` grew into `r` by appending conditions only; user and history are
      untouched. */
  predicate Extends(b: Builder, r: Builder) {
    b.conditions <= r.conditions && r.currentUser == b.currentUser && r.history == b.history
  }

  /** Appends one condition. */
  function Push(b: Builder, c: string): (r: Builder)
    ensures Extends(b, r) && r.conditions == b.conditions + [c]
  {
    b.(conditions := b.conditions + [c])
  }

  /** Clears the conditions, keeping the current user and the history. */
  function Reset(b: Builder): (r: Builder)
    ensures r.conditions == [] && r.currentUser == b.currentUser && r.history == b.history
  {
    b.(conditions := [])
  }

  /** `setCurrentUser`: an empty display name falls back to the username. */
  function SetCurrentUser(b: Builder, username: string, displayName: string): (r: Builder)
    ensures r.conditions == b.conditions && r.history == b.history
    ensures r.currentUser.Some? && r.currentUser.value.username == username
    ensures r.currentUser.value.displayName == (if displayName == "" then username else displayName)
  {
    b.(currentUser := Some(User(username, if displayName == "" then username else displayName)))
  }

  // ---------------------------------------------------------------- keywords

  /** The term `addKeywords` emits for already-trimmed text `t`: quoting
      (exact) or `+` (forceOriginal) first, then the `-` of exclude, then,
      for a non-exact OR, every space becomes ` OR `. */
  function KeywordTerm(t: string, o: KeywordOptions): string {
    var marked := if o.wildcard && o.exact then "\"" + t + "\""
                  else if o.exact then "\"" + t + "\""
                  else if o.forceOriginal then "+" + t
                  else t;
    var excluded := if o.exclude then "-" + marked else marked;
    if o.operator == "OR" && ' ' in excluded && !o.exact
    then Join(Split(excluded, ' '), " OR ")
    else excluded
  }

  /** `addKeywords`: blank text (empty or white space only) is a no-op;
      otherwise exactly one condition, the term for the trimmed text. */
  function AddKeywords(b: Builder, keywords: string, o: KeywordOptions): (r: Builder)
    ensures Extends(b, r)
    ensures Trim(keywords) == "" ==> r == b
    ensures Trim(keywords) != "" ==> r.conditions == b.conditions + [KeywordTerm(Trim(keywords), o)]
  {
    if keywords == "" || Trim(keywords) == "" then b
    else Push(b, KeywordTerm(Trim(keywords), o))
  }

  // ---------------------------------------------------------- user scoping

  /** `addUserCondition`: an empty username is a no-op even for an unknown
      type; an unknown type throws; otherwise `from:u`, `to:u` or `@u`. */
  function AddUserCondition(b: Builder, username: string, kind: string): (r: Result<Builder, BuilderError>)
    ensures username == "" ==> r == Ok(b)
    ensures username != "" && kind !in UserConditionTypes ==> r == Err(InvalidUserType(kind))
    ensures r.Ok? ==> Extends(b, r.value) && |r.value.conditions| <= |b.conditions| + 1
    ensures username != "" && kind == "from" ==> r == Ok(Push(b, "from:" + username))
    ensures username != "" && kind == "to" ==> r == Ok(Push(b, "to:" + username))
    ensures username != "" && kind == "@" ==> r == Ok(Push(b, "@" + username))
  {
    if username == "" then Ok(b)
    else if kind !in UserConditionTypes then Err(InvalidUserType(kind))
    else if kind == "from" then Ok(Push(b, "from:" + username))
    else if kind == "to" then Ok(Push(b, "to:" + username))
    else Ok(Push(b, "@" + username))
  }

  /** `addList`: both values of `isListId` emit the same `list:` term. */
  function AddList(b: Builder, listIdentifier: string, isListId: bool): (r: Builder)
    ensures Extends(b, r)
    ensures listIdentifier == "" ==> r == b
    ensures listIdentifier != "" ==> r.conditions == b.conditions + ["list:" + listIdentifier]
  {
    if listIdentifier == "" then b
    else if isListId then Push(b, "list:" + listIdentifier)
    else Push(b, "list:" + listIdentifier)
  }

  // -------------------------------------------------------- tags and codes

  /** Prefixes `mark` unless the text already starts with it. */
  function EnsurePrefix(mark: char, s: string): (r: string)
    ensures |r| >= 1 && r[0] == mark
    ensures s != [] && s[0] == mark ==> r == s
    ensures (s == [] || s[0] != mark) ==> r[1..] == s
  {
    if StartsWith(s, [mark]) then s else [mark] + s
  }

  /** `addHashtag`. */
  function AddHashtag(b: Builder, hashtag: string): (r: Builder)
    ensures Extends(b, r)
    ensures hashtag == "" ==> r == b
    ensures hashtag != "" ==> r.conditions == b.conditions + [EnsurePrefix('#', hashtag)]
  {
    if hashtag == "" then b else Push(b, EnsurePrefix('#', hashtag))
  }

  /** `addCashtag`. */
  function AddCashtag(b: Builder, cashtag: string): (r: Builder)
    ensures Extends(b, r)
    ensures cashtag == "" ==> r == b
    ensures cashtag != "" ==> r.conditions == b.conditions + [EnsurePrefix('$', cashtag)]
  {
    if cashtag == "" then b else Push(b, EnsurePrefix('$', cashtag))
  }

  /** `addLanguage`: codes outside the supported set are skipped silently. */
  function AddLanguage(b: Builder, langCode: string): (r: Builder)
    ensures Extends(b, r)
    ensures langCode !in SupportedLanguages ==> r == b
    ensures langCode in SupportedLanguages ==> r.conditions == b.conditions + ["lang:" + langCode]
  {
    if langCode == "" then b
    else if langCode in SupportedLanguages then Push(b, "lang:" + langCode)
    else b
  }

  /** `addUrl`: the text is taken verbatim. */
  function AddUrl(b: Builder, urlText: string): (r: Builder)
    ensures Extends(b, r)
    ensures urlText == "" ==> r == b
    ensures urlText != "" ==> r.conditions == b.conditions + ["url:" + urlText]
  {
    if urlText == "" then b else Push(b, "url:" + urlText)
  }

  /** The emoticon `addEmoji` emits: the three named kinds map to `:)`,
      `:(` and `?`; anything else is passed through. */
  function EmojiTerm(kind: string): string {
    if kind == "positive" then ":)"
    else if kind == "negative" then ":("
    else if kind == "question" then "?"
    else kind
  }

  /** `addEmoji`. */
  function AddEmoji(b: Builder, kind: string): (r: Builder)
    ensures Extends(b, r)
    ensures kind == "" ==> r == b
    ensures kind != "" ==> r.conditions == b.conditions + [EmojiTerm(kind)]
  {
    if kind == "" then b else Push(b, EmojiTerm(kind))
  }

  /** `addFilter`: an unknown filter name throws. */
  function AddFilter(b: Builder, filterType: string, exclude: bool): (r: Result<Builder, BuilderError>)
    ensures filterType == "" ==> r == Ok(b)
    ensures filterType != "" && filterType !in ValidFilters ==> r == Err(InvalidFilter(filterType))
    ensures filterType in ValidFilters ==>
      r == Ok(Push(b, (if exclude then "-" else "") + "filter:" + filterType))
  {
    if filterType == "" then Ok(b)
    else if filterType !in ValidFilters then Err(InvalidFilter(filterType))
    else Ok(Push(b, (if exclude then "-" else "") + "filter:" + filterType))
  }

  /** `addInclude`: anything but `nativeretweets` is skipped silently. */
  function AddInclude(b: Builder, includeType: string): (r: Builder)
    ensures Extends(b, r)
    ensures includeType !in ValidIncludes ==> r == b
    ensures includeType in ValidIncludes ==> r.conditions == b.conditions + ["include:" + includeType]
  {
    if includeType == "" then b
    else if includeType in ValidIncludes then Push(b, "include:" + includeType)
    else b
  }

  /** `addEngagement`: a missing type or an undefined count is a no-op, an
      unknown type throws, `likes` is spelt `faves`, and a maximum (not
      `isMinimum`) is the negated `min_` term. */
  function AddEngagement(b: Builder, kind: string, count: Option<int>, isMinimum: bool)
    : (r: Result<Builder, BuilderError>)
    ensures kind == "" || count == None ==> r == Ok(b)
    ensures kind != "" && count.Some? && kind !in EngagementTypes ==> r == Err(InvalidEngagement(kind))
    ensures r.Ok? ==> Extends(b, r.value) && |r.value.conditions| <= |b.conditions| + 1
  {
    if kind == "" || count == None then Ok(b)
    else if kind !in EngagementTypes then Err(InvalidEngagement(kind))
    else
      var metric := if kind == "likes" then "faves" else kind;
      Ok(Push(b, (if isMinimum then "" else "-") + "min_" + metric + ":" + IntToString(count.value)))
  }

  // ------------------------------------------------ composite option setters

  /** `prefix + value` when the option is present, nothing otherwise. */
  function OptionTerm(prefix: string, value: string): (r: seq<string>)
    ensures value == "" ==> r == []
    ensures value != "" ==> r == [prefix + value]
  {
    if value == "" then [] else [prefix + value]
  }

  /** Appends every term of `terms`, in order. */
  function PushAll(b: Builder, terms: seq<string>): (r: Builder)
    ensures Extends(b, r) && r.conditions == b.conditions + terms
  {
    b.(conditions := b.conditions + terms)
  }

  /** The terms `addTimeRange` emits, one per present option, in the
      source's order; the two date-time options alias `since:`/`until:`. */
  function TimeRangeTerms(o: TimeRangeOptions): seq<string> {
    OptionTerm("since:", o.since) + OptionTerm("until:", o.until)
    + OptionTerm("since_time:", o.sinceTime) + OptionTerm("until_time:", o.untilTime)
    + OptionTerm("since_id:", o.sinceId) + OptionTerm("max_id:", o.maxId)
    + OptionTerm("within_time:", o.withinTime)
    + OptionTerm("since:", o.sinceDateTime) + OptionTerm("until:", o.untilDateTime)
  }

  function AddTimeRange(b: Builder, o: TimeRangeOptions): (r: Builder)
    ensures Extends(b, r) && r.conditions == b.conditions + TimeRangeTerms(o)
  {
    PushAll(b, TimeRangeTerms(o))
  }

  /** The `near:` term for a city: quoted when the name has a space. */
  function CityTerm(city: string): string {
    if ' ' in city then "near:\"" + city + "\"" else "near:" + city
  }

  /** The terms `addLocation` emits, in the source's order. */
  function LocationTerms(o: LocationOptions): seq<string> {
    (if o.city == "" then [] else [CityTerm(o.city)])
    + (if o.near == "" then [] else if o.near == "me" then ["near:me"] else ["near:" + o.near])
    + OptionTerm("within:", o.within)
    + OptionTerm("geocode:", o.geocode)
    + OptionTerm("place:", o.placeId)
  }

  function AddLocation(b: Builder, o: LocationOptions): (r: Builder)
    ensures Extends(b, r) && r.conditions == b.conditions + LocationTerms(o)
  {
    PushAll(b, LocationTerms(o))
  }

  /** The client name after `source:`: quoted when it has a space,
      otherwise its first space (there is none) becomes `_`. */
  function FormatSource(source: string): string {
    if ' ' in source then "\"" + source + "\"" else ReplaceFirst(source, ' ', "_")
  }

  /** The terms `addTweetType` emits, in the source's order. */
  function TweetTypeTerms(o: TweetTypeOptions): seq<string> {
    OptionTerm("conversation_id:", o.conversationId)
    + OptionTerm("quoted_tweet_id:", o.quotedTweetId)
    + OptionTerm("quoted_user_id:", o.quotedUserId)
    + OptionTerm("card_name:", o.cardName)
    + OptionTerm("card_domain:", o.cardDomain)
    + (if o.source == "" then [] else ["source:" + FormatSource(o.source)])
  }

  function AddTweetType(b: Builder, o: TweetTypeOptions): (r: Builder)
    ensures Extends(b, r) && r.conditions == b.conditions + TweetTypeTerms(o)
  {
    PushAll(b, TweetTypeTerms(o))
  }

  // ------------------------------------------------------------------ build

  /** `build()`: the conditions separated by single spaces, "" when there
      are none. */
  function Build(b: Builder): string {
    if |b.conditions| == 0 then "" else Join(b.conditions, " ")
  }
}

/** Properties relating the builder's accumulators to its reducers
    (`build`, `getDescription`, `validate`), its templates and its history. */
module QueryLaws {
  import opened Results
  import opened JsStrings
  import opened QueryBuilder
  import opened QueryReducers
  import opened QueryHistory

  // ------------------------------------------------------------------ build

  /** Appending a condition appends it, after one space, to the query. */
  lemma BuildPush(b: Builder, c: string)
    ensures Build(Push(b, c)) == if b.conditions == [] then c else Build(b) + " " + c
  {
    if b.conditions != [] {
      JoinAppend(b.conditions, c, " ");
    }
  }

  /** `build` loses nothing: when no condition holds a space, splitting the
      query on spaces gives back the condition list. */
  lemma BuildSplitsBack(b: Builder)
    requires b.conditions != []
    requires forall k :: 0 <= k < |b.conditions| ==> ' ' !in b.conditions[k]
    ensures Split(Build(b), ' ') == b.conditions
  {
    SplitJoin(b.conditions, ' ');
  }

  /** After `reset`, `build` gives the empty query. */
  lemma ResetBuildsEmpty(b: Builder)
    ensures Build(Reset(b)) == "" && Describe(Reset(b).conditions) == NoConditions
  {
  }

  // --------------------------------------------------------------- keywords

  /** With default options, keywords are added as their trimmed text. */
  lemma KeywordsWithoutOptions(b: Builder, k: string)
    requires Trim(k) != ""
    ensures AddKeywords(b, k, DefaultKeywordOptions).conditions == b.conditions + [Trim(k)]
    ensures Build(AddKeywords(NewBuilder(), k, DefaultKeywordOptions)) == Trim(k)
  {
  }

  /** An exact phrase is quoted and never OR-rewritten; exclusion puts the
      minus sign outside the quotes. */
  lemma ExactPhraseIsQuoted(t: string, o: KeywordOptions)
    requires o.exact
    ensures KeywordTerm(t, o) == (if o.exclude then "-" else "") + "\"" + t + "\""
  {
  }

  /** The OR rewrite runs after the minus sign is added, so an excluded OR
      query negates only its first word. */
  lemma {:induction false} ExcludedOrNegatesFirstWord(ws: seq<string>)
    requires |ws| >= 2
    requires forall k :: 0 <= k < |ws| ==> ' ' !in ws[k]
    ensures KeywordTerm(Join(ws, " "), KeywordOptions(false, true, "OR", false, false))
            == Join(["-" + ws[0]] + ws[1..], " OR ")
  {
    var t := Join(ws, " ");
    var negated := ["-" + ws[0]] + ws[1..];
    JoinPrefixFirst("-", ws, " ");
    assert "-" + t == Join(negated, " ");
    assert forall k :: 0 <= k < |negated| ==> ' ' !in negated[k] by {
      forall k | 0 <= k < |negated| ensures ' ' !in negated[k] {
        if k == 0 {
          assert negated[0] == "-" + ws[0];
        } else {
          assert negated[k] == ws[k];
        }
      }
    }
    SplitJoin(negated, ' ');
    assert Join(negated, " ") == negated[0] + " " + Join(negated[1..], " ");
    assert ("-" + t)[|negated[0]|] == ' ';
    assert ' ' in "-" + t;
  }

  // ------------------------------------------------------------- categories

  /** A tag is added with exactly one leading mark whether or not the
      caller typed it. */
  lemma HashtagMarkOptional(b: Builder, t: string)
    requires t != [] && t[0] != '#'
    ensures AddHashtag(b, "#" + t) == AddHashtag(b, t)
    ensures AddHashtag(b, t).conditions == b.conditions + ["#" + t]
  {
  }

  lemma TenRendering()
    ensures IntToString(10) == "10"
  {
    assert NatToString(1) == "1";
    assert NatToString(10) == NatToString(1) + [DigitChar(0)];
  }

  /** `likes` and `faves` are the same engagement metric. */
  lemma LikesAreFaves(b: Builder, n: int, isMinimum: bool)
    ensures AddEngagement(b, "likes", Some(n), isMinimum) == AddEngagement(b, "faves", Some(n), isMinimum)
    ensures AddEngagement(NewBuilder(), "likes", Some(10), true) == Ok(Builder(["min_faves:10"], None, []))
  {
    TenRendering();
    assert "likes" in EngagementTypes;
    assert "" + "min_" + "faves" + ":" + "10" == "min_faves:10";
    var r := AddEngagement(NewBuilder(), "likes", Some(10), true);
    assert r == Ok(Push(NewBuilder(), "" + "min_" + "faves" + ":" + IntToString(10)));
    assert Push(NewBuilder(), "min_faves:10") == Builder([] + ["min_faves:10"], None, []);
    assert [] + ["min_faves:10"] == ["min_faves:10"];
  }

  /** The `isListId` flag has no effect on the condition. */
  lemma ListIdFlagIgnored(b: Builder, id: string)
    ensures AddList(b, id, true) == AddList(b, id, false)
  {
  }

  /** The underscore branch of the client-name formatting never changes
      anything: it only runs on names without a space. */
  lemma SourceUnderscoreBranchIsIdentity(source: string)
    ensures FormatSource(source) == if ' ' in source then "\"" + source + "\"" else source
  {
  }

  /** An exact keyword without surrounding white space becomes one quoted
      condition. */
  lemma ExactKeyword(t: string)
    requires t != [] && !IsJsSpace(t[0]) && !IsJsSpace(t[|t| - 1])
    ensures AddKeywords(NewBuilder(), t, KeywordOptions(true, false, "AND", false, false))
            == Builder(["\"" + t + "\""], None, [])
  {
    var o := KeywordOptions(true, false, "AND", false, false);
    TrimOfUnpadded(t);
    ExactPhraseIsQuoted(t, o);
    assert "" + "\"" + t + "\"" == "\"" + t + "\"";
    assert [] + ["\"" + t + "\""] == ["\"" + t + "\""];
  }

  lemma ExactCats()
    ensures AddKeywords(NewBuilder(), "cats", KeywordOptions(true, false, "AND", false, false))
            == Builder(["\"cats\""], None, [])
  {
    ExactKeyword("cats");
    assert "\"" + "cats" + "\"" == "\"cats\"";
  }

  lemma CatsThenLanguages()
    ensures AddLanguage(AddLanguage(Builder(["\"cats\""], None, []), "xx"), "en")
            == Builder(["\"cats\"", "lang:en"], None, [])
  {
    assert "xx" !in SupportedLanguages;
    assert "en" == SupportedLanguages[0];
    assert "lang:" + "en" == "lang:en";
    assert ["\"cats\""] + ["lang:en"] == ["\"cats\"", "lang:en"];
  }

  lemma CatsLanguageBuilds()
    ensures Build(Builder(["\"cats\"", "lang:en"], None, [])) == "\"cats\" lang:en"
  {
    BuildPush(Builder(["\"cats\""], None, []), "lang:en");
    assert ["\"cats\""] + ["lang:en"] == ["\"cats\"", "lang:en"];
    assert "\"cats\"" + " " + "lang:en" == "\"cats\" lang:en";
  }

  /** A quoted keyword followed by an unsupported and a supported language
      builds `"cats" lang:en`. */
  lemma KeywordLanguageExample()
    ensures Build(AddLanguage(AddLanguage(AddKeywords(NewBuilder(), "cats",
              KeywordOptions(true, false, "AND", false, false)), "xx"), "en")) == "\"cats\" lang:en"
  {
    ExactCats();
    CatsThenLanguages();
    CatsLanguageBuilds();
  }

  /** A user scope followed by a hashtag builds `from:alice #news`. */
  lemma UserHashtagExample()
    ensures AddUserCondition(NewBuilder(), "alice", "from").Ok?
    ensures Build(AddHashtag(AddUserCondition(NewBuilder(), "alice", "from").value, "news"))
            == "from:alice #news"
  {
    var u := AddUserCondition(NewBuilder(), "alice", "from").value;
    assert "from:" + "alice" == "from:alice";
    assert u == Push(NewBuilder(), "from:alice");
    assert EnsurePrefix('#', "news") == "#news";
    BuildPush(u, "#news");
  }

  lemma UnknownFilterName()
    ensures "not_a_real_filter" !in ValidFilters
  {
  }

  /** An unknown filter name is rejected; a known one is added. */
  lemma FilterExamples()
    ensures AddFilter(NewBuilder(), "not_a_real_filter", false) == Err(InvalidFilter("not_a_real_filter"))
    ensures Build(AddFilter(NewBuilder(), "verified", false).value) == "filter:verified"
  {
    UnknownFilterName();
    assert ValidFilters[0] == "verified";
    FirstFilterTerm("verified");
    assert "filter:" + "verified" == "filter:verified";
    assert Join(["filter:verified"], " ") == "filter:verified";
  }

  // --------------------------------------------------------------- describe

  /** Describing the list after an accumulator appended `c` adds the label
      of `c` to the previous description. */
  lemma DescribePush(b: Builder, c: string)
    ensures Describe(Push(b, c).conditions)
            == if b.conditions == [] then Label(c) else Describe(b.conditions) + ", " + Label(c)
  {
    var cs := b.conditions;
    if cs != [] {
      assert Labels(cs + [c]) == Labels(cs) + [Label(c)];
      JoinAppend(Labels(cs), Label(c), ", ");
    }
  }

  /** The description recovers the user of a user condition. */
  lemma DescribeRecoversUser(b: Builder, username: string, kind: string)
    requires username != "" && kind in UserConditionTypes
    ensures AddUserCondition(b, username, kind).Ok?
    ensures var c := AddUserCondition(b, username, kind).value.conditions[|b.conditions|];
            Label(c) == (if kind == "from" then "来自用户: "
                         else if kind == "to" then "回复用户: "
                         else "提及用户: ") + username
  {
    var r := AddUserCondition(b, username, kind).value;
    var c := r.conditions[|b.conditions|];
    if kind == "from" {
      assert c == "from:" + username;
      StartsWithConcat("from:", username);
    } else if kind == "to" {
      assert c == "to:" + username;
      StartsWithConcat("to:", username);
      assert c[0] == 't';
    } else {
      assert c == "@" + username;
      StartsWithConcat("@", username);
      assert c[0] == '@';
    }
  }

  /** The description recovers the code of a language condition. */
  lemma DescribeRecoversLanguage(code: string)
    ensures Label("lang:" + code) == "语言: " + code
  {
    var c := "lang:" + code;
    StartsWithConcat("lang:", code);
    assert c[0] == 'l';
  }

  /** The description recovers the name of a filter. */
  lemma DescribeRecoversFilter(name: string)
    ensures Label("filter:" + name) == "筛选: " + name
  {
    var c := "filter:" + name;
    StartsWithConcat("filter:", name);
    assert c[0] == 'f' && c[1] == 'i';
    assert !StartsWith(c, "from:");
  }

  /** The description recovers the date of a start-time condition. */
  lemma DescribeRecoversSince(d: string)
    ensures Label("since:" + d) == "开始时间: " + d
  {
    var c := "since:" + d;
    StartsWithConcat("since:", d);
    assert c[0] == 's';
  }

  /** The description recovers the date of an end-time condition. */
  lemma DescribeRecoversUntil(d: string)
    ensures Label("until:" + d) == "结束时间: " + d
  {
    var c := "until:" + d;
    StartsWithConcat("until:", d);
    assert c[0] == 'u';
  }

  /** A condition in double quotes at both ends, which no dispatch prefix
      starts, is described whole under the exact-phrase caption. */
  lemma DescribeExactPhrase(c: string)
    requires StartsWith(c, "\"") && EndsWith(c, "\"")
    ensures Label(c) == ExactPhraseLabel + c
  {
    assert c[0] == '"';
    forall k | 0 <= k < |Rules| ensures !StartsWith(c, Rules[k].prefix) {
      RulePrefixes(k);
    }
    LabelIsFirstMatch(c);
    assert FirstRule(c, 0) == |Rules|;
  }

  /** A condition starting with `-` matches no dispatch row and is not
      quoted, so it gets the keyword caption. */
  lemma DashedIsKeyword(d: string)
    requires d != [] && d[0] == '-'
    ensures Label(d) == KeywordLabel + d
  {
    forall k | 0 <= k < |Rules| ensures !StartsWith(d, Rules[k].prefix) {
      assert Rules[k].prefix[0] != '-' by { RulePrefixes(k); }
    }
    LabelIsFirstMatch(d);
    assert FirstRule(d, 0) == |Rules|;
  }

  /** An excluded filter is not recognised: it is described as a plain
      keyword. */
  lemma DescribeExcludedFilter(name: string)
    ensures Label("-filter:" + name) == KeywordLabel + "-filter:" + name
  {
    var d := "-filter:" + name;
    assert d[0] == '-';
    DashedIsKeyword(d);
  }

  /** Hashtags and cashtags are described whole, under their own captions. */
  lemma DescribeTags(b: Builder, t: string)
    requires t != ""
    ensures Label(AddHashtag(b, t).conditions[|b.conditions|]) == "话题标签: " + EnsurePrefix('#', t)
    ensures Label(AddCashtag(b, t).conditions[|b.conditions|]) == "股票代码: " + EnsurePrefix('$', t)
  {
    var h := EnsurePrefix('#', t);
    var c := EnsurePrefix('$', t);
    assert AddHashtag(b, t).conditions[|b.conditions|] == h;
    assert AddCashtag(b, t).conditions[|b.conditions|] == c;
    assert h[..1] == "#";
    assert c[..1] == "$";
  }

  /** A `min_` condition is described whole under the interaction
      caption. */
  lemma MinLabel(rest: string)
    ensures Label("min_" + rest) == "最少互动: " + ("min_" + rest)
  {
    var c := "min_" + rest;
    StartsWithConcat("min_", rest);
    assert c[0] == 'm';
  }

  /** The condition a minimum threshold appends. */
  lemma MinimumTerm(b: Builder, kind: string, n: int)
    requires kind in EngagementTypes
    ensures AddEngagement(b, kind, Some(n), true).Ok?
    ensures AddEngagement(b, kind, Some(n), true).value.conditions[|b.conditions|]
            == "min_" + ((if kind == "likes" then "faves" else kind) + ":" + IntToString(n))
  {
    var metric := if kind == "likes" then "faves" else kind;
    var t := IntToString(n);
    var c := "" + "min_" + metric + ":" + t;
    assert AddEngagement(b, kind, Some(n), true) == Ok(Push(b, c));
    assert c == "min_" + (metric + ":" + t);
  }

  /** A maximum threshold appends the minimum's term with a leading `-`. */
  lemma MaximumNegatesMinimum(b: Builder, kind: string, n: int)
    requires kind in EngagementTypes
    ensures AddEngagement(b, kind, Some(n), true).Ok? && AddEngagement(b, kind, Some(n), false).Ok?
    ensures AddEngagement(b, kind, Some(n), false).value.conditions[|b.conditions|]
            == "-" + AddEngagement(b, kind, Some(n), true).value.conditions[|b.conditions|]
  {
    var metric := if kind == "likes" then "faves" else kind;
    var t := IntToString(n);
    var c := "" + "min_" + metric + ":" + t;
    var d := "-" + "min_" + metric + ":" + t;
    assert AddEngagement(b, kind, Some(n), true) == Ok(Push(b, c));
    assert AddEngagement(b, kind, Some(n), false) == Ok(Push(b, d));
    assert d == "-" + c;
  }

  /** A minimum engagement threshold is described whole under the
      interaction caption. */
  lemma DescribeMinimumEngagement(b: Builder, kind: string, n: int)
    requires kind in EngagementTypes
    ensures AddEngagement(b, kind, Some(n), true).Ok?
    ensures var c := AddEngagement(b, kind, Some(n), true).value.conditions[|b.conditions|];
            Label(c) == "最少互动: " + c
  {
    MinimumTerm(b, kind, n);
    MinLabel((if kind == "likes" then "faves" else kind) + ":" + IntToString(n));
  }

  /** A maximum threshold (`isMinimum` false) is the negated `min_` term,
      which the description does not recognise: it is shown as a keyword. */
  lemma DescribeMaximumEngagement(b: Builder, kind: string, n: int)
    requires kind in EngagementTypes
    ensures AddEngagement(b, kind, Some(n), false).Ok?
    ensures var c := AddEngagement(b, kind, Some(n), false).value.conditions[|b.conditions|];
            Label(c) == KeywordLabel + c
  {
    var c := AddEngagement(b, kind, Some(n), false).value.conditions[|b.conditions|];
    assert c[0] == '-';
    DashedIsKeyword(c);
  }

  /** A `near:` condition is described under the location caption,
      without its prefix. */
  lemma NearLabel(v: string)
    ensures Label("near:" + v) == "地理位置: " + v
  {
    var c := "near:" + v;
    StartsWithConcat("near:", v);
    assert c[0] == 'n';
  }

  /** A city is described under the location caption, with its quotes
      when the name has a space. */
  lemma DescribeCity(city: string)
    ensures Label(CityTerm(city)) == "地理位置: " + (if ' ' in city then "\"" + city + "\"" else city)
  {
    var v := if ' ' in city then "\"" + city + "\"" else city;
    assert CityTerm(city) == "near:" + v;
    NearLabel(v);
  }

  /** No dispatch prefix is empty or starts with a double quote. */
  lemma RulePrefixes(k: nat)
    requires k < |Rules|
    ensures Rules[k].prefix != [] && Rules[k].prefix[0] != '"' && Rules[k].prefix[0] != '-'
  {
    if k == 0 {} else if k == 1 {} else if k == 2 {} else if k == 3 {}
    else if k == 4 {} else if k == 5 {} else if k == 6 {} else if k == 7 {}
    else if k == 8 {} else if k == 9 {} else {}
  }

  lemma {:induction false} FirstRuleStops(c: string, from: nat)
    requires from < |Rules| && StartsWith(c, Rules[from].prefix)
    ensures FirstRule(c, from) == from
  {
  }

  lemma {:induction false} FirstRuleSkips(c: string, from: nat)
    requires from < |Rules| && !StartsWith(c, Rules[from].prefix)
    ensures FirstRule(c, from) == FirstRule(c, from + 1)
  {
  }

  /** The source's if-chain is the first-match lookup in the dispatch
      table: a condition gets the label of the first row whose prefix it
      starts with, and only then the exact-phrase/keyword fallback. */
  lemma LabelIsFirstMatch(c: string)
    ensures Label(c) == TableLabel(c)
  {
    var k := FirstRule(c, 0);
    if k < |Rules| {
      assert StartsWith(c, Rules[k].prefix);
      assert forall j :: 0 <= j < k ==> !StartsWith(c, Rules[j].prefix);
      assert |Rules[k].prefix| <= |c|;
    }
  }

  // --------------------------------------------------------------- validate

  lemma {:induction false} CountPrefixConcat(a: seq<string>, b: seq<string>, p: string)
    ensures CountPrefix(a + b, p) == CountPrefix(a, p) + CountPrefix(b, p)
  {
    if |a| > 0 {
      CountPrefixConcat(a[1..], b, p);
      assert (a + b)[1..] == a[1..] + b;
    } else {
      assert a + b == b;
    }
  }

  lemma HasPrefixConcat(cs: seq<string>, ds: seq<string>, p: string)
    requires HasPrefix(cs, p)
    ensures HasPrefix(cs + ds, p)
  {
    var k :| 0 <= k < |cs| && StartsWith(cs[k], p);
    assert (cs + ds)[k] == cs[k];
  }

  /** Appending conditions never clears a validation error: once a rule
      fires, further accumulators cannot make the list valid again. */
  lemma ValidateMonotone(cs: seq<string>, ds: seq<string>)
    ensures forall e :: e in Validate(cs).errors ==> e in Validate(cs + ds).errors
    ensures !Validate(cs).isValid ==> !Validate(cs + ds).isValid
  {
    CountPrefixConcat(cs, ds, "since:");
    CountPrefixConcat(cs, ds, "until:");
    CountPrefixConcat(cs, ds, "near:");
    CountPrefixConcat(cs, ds, "geocode:");
    if UserOverConstrained(cs) {
      HasPrefixConcat(cs, ds, "from:");
      HasPrefixConcat(cs, ds, "to:");
      HasPrefixConcat(cs, ds, "@");
    }
    assert UserOverConstrained(cs) ==> UserOverConstrained(cs + ds);
    assert SinceRepeated(cs) ==> SinceRepeated(cs + ds);
    assert UntilRepeated(cs) ==> UntilRepeated(cs + ds);
    assert LocationRepeated(cs) ==> LocationRepeated(cs + ds);
  }

  /** A condition that starts with none of the prefixes `validate` looks
      at. */
  predicate Neutral(c: string) {
    && !StartsWith(c, "from:") && !StartsWith(c, "to:") && !StartsWith(c, "@")
    && !StartsWith(c, "since:") && !StartsWith(c, "until:")
    && !StartsWith(c, "near:") && !StartsWith(c, "geocode:")
  }

  lemma HasPrefixNeutral(cs: seq<string>, c: string, p: string)
    requires !StartsWith(c, p)
    ensures HasPrefix(cs + [c], p) <==> HasPrefix(cs, p)
  {
    if HasPrefix(cs + [c], p) {
      var k :| 0 <= k < |cs + [c]| && StartsWith((cs + [c])[k], p);
      assert k < |cs| && (cs + [c])[k] == cs[k];
    }
    if HasPrefix(cs, p) {
      HasPrefixConcat(cs, [c], p);
    }
  }

  /** Appending a neutral condition leaves the validation result as it
      was. */
  lemma NeutralKeepsValidation(cs: seq<string>, c: string)
    requires Neutral(c)
    ensures Validate(cs + [c]) == Validate(cs)
  {
    CountPrefixConcat(cs, [c], "since:");
    CountPrefixConcat(cs, [c], "until:");
    CountPrefixConcat(cs, [c], "near:");
    CountPrefixConcat(cs, [c], "geocode:");
    HasPrefixNeutral(cs, c, "from:");
    HasPrefixNeutral(cs, c, "to:");
    HasPrefixNeutral(cs, c, "@");
    assert UserOverConstrained(cs + [c]) == UserOverConstrained(cs);
    assert SinceRepeated(cs + [c]) == SinceRepeated(cs);
    assert UntilRepeated(cs + [c]) == UntilRepeated(cs);
    assert LocationRepeated(cs + [c]) == LocationRepeated(cs);
  }

  /** A condition whose first character no validated prefix starts with
      is neutral. */
  lemma NeutralByFirstChar(c: string)
    requires c != [] && c[0] !in "ftsung@"
    ensures Neutral(c)
  {
  }

  /** Hashtags and cashtags never change the validation result. */
  lemma TagsKeepValidation(b: Builder, s: string)
    ensures Validate(AddHashtag(b, s).conditions) == Validate(b.conditions)
    ensures Validate(AddCashtag(b, s).conditions) == Validate(b.conditions)
  {
    if s != "" {
      var h := EnsurePrefix('#', s);
      NeutralByFirstChar(h);
      NeutralKeepsValidation(b.conditions, h);
      var d := EnsurePrefix('$', s);
      NeutralByFirstChar(d);
      NeutralKeepsValidation(b.conditions, d);
    }
  }

  /** A language condition never changes the validation result. */
  lemma LanguageKeepsValidation(b: Builder, code: string)
    ensures Validate(AddLanguage(b, code).conditions) == Validate(b.conditions)
  {
    if code in SupportedLanguages {
      var l := "lang:" + code;
      assert l[0] == 'l';
      NeutralByFirstChar(l);
      NeutralKeepsValidation(b.conditions, l);
    }
  }

  /** List and include conditions never change the validation result. */
  lemma ListAndIncludeKeepValidation(b: Builder, s: string, isListId: bool)
    ensures Validate(AddList(b, s, isListId).conditions) == Validate(b.conditions)
    ensures Validate(AddInclude(b, s).conditions) == Validate(b.conditions)
  {
    if s != "" {
      var l := "list:" + s;
      assert l[0] == 'l';
      NeutralByFirstChar(l);
      NeutralKeepsValidation(b.conditions, l);
    }
    if s in ValidIncludes {
      var i := "include:" + s;
      assert i[0] == 'i';
      NeutralByFirstChar(i);
      NeutralKeepsValidation(b.conditions, i);
    }
  }

  /** A URL condition never changes the validation result. */
  lemma UrlKeepsValidation(b: Builder, text: string)
    ensures Validate(AddUrl(b, text).conditions) == Validate(b.conditions)
  {
    if text != "" {
      UrlIsNeutral(text);
      NeutralKeepsValidation(b.conditions, "url:" + text);
    }
  }

  /** An accepted filter, excluded or not, never changes the validation
      result. */
  lemma FilterKeepsValidation(b: Builder, name: string, exclude: bool)
    requires AddFilter(b, name, exclude).Ok?
    ensures Validate(AddFilter(b, name, exclude).value.conditions) == Validate(b.conditions)
  {
    if name != "" {
      FilterIsNeutral(name, exclude);
      NeutralKeepsValidation(b.conditions, (if exclude then "-" else "") + "filter:" + name);
    }
  }

  /** `url:` shares only its first letter with `until:`. */
  lemma UrlIsNeutral(s: string)
    ensures Neutral("url:" + s)
  {
    var c := "url:" + s;
    assert c[0] == 'u' && c[1] == 'r';
    assert |c| < 6 || c[..6][1] == 'r';
  }

  /** `filter:` shares only its first letter with `from:`. */
  lemma FilterIsNeutral(s: string, exclude: bool)
    ensures Neutral((if exclude then "-" else "") + "filter:" + s)
  {
    var c := (if exclude then "-" else "") + "filter:" + s;
    if exclude {
      assert c[0] == '-';
      NeutralByFirstChar(c);
    } else {
      assert c[0] == 'f' && c[1] == 'i';
      assert |c| < 5 || c[..5][1] == 'i';
    }
  }

  lemma SinceTermCount(x: string)
    ensures CountPrefix(OptionTerm("since:", x), "since:") == (if x == "" then 0 else 1)
  {
    if x != "" {
      StartsWithConcat("since:", x);
    }
  }

  lemma NotSinceTerm(p: string, x: string)
    requires |p| >= 6 && p[..6] != "since:"
    ensures CountPrefix(OptionTerm(p, x), "since:") == 0
  {
    if x != "" {
      assert (p + x)[..6] == p[..6];
    }
  }

  /** `sinceDateTime` is emitted under the same `since:` operator as
      `since`, so giving both in one `addTimeRange` call makes `validate`
      report two start times. */
  lemma SinceAliasesConflict(b: Builder, o: TimeRangeOptions)
    requires o.since != "" && o.sinceDateTime != ""
    ensures TooManySince in Validate(AddTimeRange(b, o).conditions).errors
  {
    var terms := TimeRangeTerms(o);
    var front := OptionTerm("since:", o.since);
    var back := OptionTerm("since:", o.sinceDateTime);
    var middle := OptionTerm("until:", o.until)
      + OptionTerm("since_time:", o.sinceTime) + OptionTerm("until_time:", o.untilTime)
      + OptionTerm("since_id:", o.sinceId) + OptionTerm("max_id:", o.maxId)
      + OptionTerm("within_time:", o.withinTime);
    var tail := OptionTerm("until:", o.untilDateTime);
    assert terms == front + middle + back + tail;
    SinceTermCount(o.since);
    SinceTermCount(o.sinceDateTime);
    CountPrefixConcat(front + middle, back, "since:");
    CountPrefixConcat(front, middle, "since:");
    CountPrefixConcat(front + middle + back, tail, "since:");
    CountPrefixConcat(b.conditions, terms, "since:");
  }

  /** The city and `near` terms both start with `near:`. */
  lemma CityAndNearTerms(o: LocationOptions)
    requires o.city != "" && o.near != ""
    ensures StartsWith(CityTerm(o.city), "near:")
    ensures StartsWith(if o.near == "me" then "near:me" else "near:" + o.near, "near:")
  {
    if ' ' in o.city { StartsWithConcat("near:", "\"" + o.city + "\""); }
    else { StartsWithConcat("near:", o.city); }
    StartsWithConcat("near:", o.near);
  }

  /** A city and a `near` option give at least two `near:` terms. */
  lemma CityAndNearCount(o: LocationOptions)
    requires o.city != "" && o.near != ""
    ensures CountPrefix(LocationTerms(o), "near:") >= 2
  {
    var t0 := CityTerm(o.city);
    var t1 := if o.near == "me" then "near:me" else "near:" + o.near;
    CityAndNearTerms(o);
    var rest := OptionTerm("within:", o.within) + OptionTerm("geocode:", o.geocode)
      + OptionTerm("place:", o.placeId);
    assert LocationTerms(o) == [t0, t1] + rest;
    CountPrefixConcat([t0, t1], rest, "near:");
  }

  /** A city and a `near` option in one `addLocation` call give two
      `near:` conditions, which `validate` reports. */
  lemma CityAndNearConflict(b: Builder, o: LocationOptions)
    requires o.city != "" && o.near != ""
    ensures TooManyLocations in Validate(AddLocation(b, o).conditions).errors
  {
    CityAndNearCount(o);
    CountPrefixConcat(b.conditions, LocationTerms(o), "near:");
  }

  /** A list none of whose conditions begins with the first character of
      `p` has no condition starting with `p`. */
  lemma FirstCharRulesOut(cs: seq<string>, p: string)
    requires |p| > 0
    requires forall j :: 0 <= j < |cs| ==> |cs[j]| > 0 && cs[j][0] != p[0]
    ensures CountPrefix(cs, p) == 0 && !HasPrefix(cs, p)
  {
  }

  /** The rules of `validate` concern only conditions starting with `@`,
      `s`, `u`, `n` or `g` (besides `from:`/`to:`, which need an `@` too). */
  lemma ValidByFirstChars(cs: seq<string>)
    requires forall j :: 0 <= j < |cs| ==> |cs[j]| > 0 && cs[j][0] !in "@sung"
    ensures Validate(cs).isValid
  {
    FirstCharRulesOut(cs, "@");
    FirstCharRulesOut(cs, "since:");
    FirstCharRulesOut(cs, "until:");
    FirstCharRulesOut(cs, "near:");
    FirstCharRulesOut(cs, "geocode:");
  }

  /** Template ids are distinct, so lookup by id is unambiguous. */
  lemma TemplateIdsDistinct()
    ensures forall i, j :: 0 <= i < j < |Templates| ==> Templates[i].id != Templates[j].id
  {
  }

  /** Every built-in template is a list `validate` accepts. */
  lemma TemplatesAreValid()
    ensures forall k :: 0 <= k < |Templates| ==> Validate(Templates[k].conditions).isValid
  {
    forall k | 0 <= k < |Templates|
      ensures Validate(Templates[k].conditions).isValid
    {
      if k == 0 { ValidByFirstChars(Templates[0].conditions); }
      else if k == 1 { ValidByFirstChars(Templates[1].conditions); }
      else if k == 2 { ValidByFirstChars(Templates[2].conditions); }
      else if k == 3 { ValidByFirstChars(Templates[3].conditions); }
      else { ValidByFirstChars(Templates[4].conditions); }
    }
  }

  /** After a successful `applyTemplate` the conditions pass `validate`. */
  lemma AppliedTemplateIsValid(b: Builder, id: string)
    requires ApplyTemplate(b, id).1
    ensures Validate(ApplyTemplate(b, id).0.conditions).isValid
  {
    TemplatesAreValid();
  }

  /** The generic filter suggestions are exactly the terms `addFilter`
      emits. */
  lemma SuggestedFiltersAreBuilderTerms(input: string, k: nat)
    requires input == [] || input[0] !in "#@$"
    requires k < 2
    ensures GetSuggestions(input)[k].text
            == AddFilter(NewBuilder(), ["verified", "media"][k], false).value.conditions[0]
  {
    assert !StartsWith(input, "#") && !StartsWith(input, "@") && !StartsWith(input, "$");
    if k == 0 {
      assert ValidFilters[0] == "verified";
      FirstFilterTerm("verified");
      assert "filter:" + "verified" == "filter:verified";
    } else {
      assert ValidFilters[7] == "media";
      FirstFilterTerm("media");
      assert "filter:" + "media" == "filter:media";
    }
  }

  /** On a fresh builder a valid filter becomes the first condition. */
  lemma FirstFilterTerm(name: string)
    requires name in ValidFilters
    ensures AddFilter(NewBuilder(), name, false).Ok?
    ensures AddFilter(NewBuilder(), name, false).value.conditions == ["filter:" + name]
  {
    assert "" + "filter:" + name == "filter:" + name;
  }

  /** The generic engagement and language suggestions are exactly the terms
      `addEngagement` and `addLanguage` emit. */
  lemma SuggestedThresholdsAreBuilderTerms(input: string)
    requires input == [] || input[0] !in "#@$"
    ensures var s := GetSuggestions(input);
            && s[2].text == AddEngagement(NewBuilder(), "faves", Some(10), true).value.conditions[0]
            && s[3].text == AddLanguage(NewBuilder(), "en").conditions[0]
  {
    assert !StartsWith(input, "#") && !StartsWith(input, "@") && !StartsWith(input, "$");
    TenRendering();
    MinimumTerm(NewBuilder(), "faves", 10);
    assert "min_" + ("faves" + ":" + "10") == "min_faves:10";
    assert SupportedLanguages[0] == "en";
  }

  // ---------------------------------------------------------------- history

  /** Saving keeps at most one entry per query. */
  lemma SaveKeepsQueriesUnique(b: Builder, name: Option<string>, id: string, ts: string)
    requires UniqueQueries(b.history)
    ensures UniqueQueries(SaveToHistory(b, name, id, ts).0.history)
  {
    var q := Build(b);
    if q != "" {
      var item := NewEntry(b, name, id, ts);
      match FindQuery(b.history, q)
      case Some(i) =>
        var h := b.history[i := item];
        assert UniqueQueries(h) by {
          forall x, y | 0 <= x < y < |h| ensures h[x].query != h[y].query {
            if x != i && y != i {
              assert h[x] == b.history[x] && h[y] == b.history[y];
            }
          }
        }
      case None =>
        var h := [item] + b.history;
        assert UniqueQueries(h) by {
          forall x, y | 0 <= x < y < |h| ensures h[x].query != h[y].query {
            if x == 0 {
              assert h[y] == b.history[y - 1];
            } else {
              assert h[x] == b.history[x - 1] && h[y] == b.history[y - 1];
            }
          }
        }
    }
  }

  /** Saving a query already in the history overwrites that entry where it
      stands: the length and every other entry are unchanged. */
  lemma SaveDuplicateReplacesInPlace(b: Builder, name: Option<string>, id: string, ts: string)
    requires Build(b) != "" && |b.history| <= MaxHistory
    requires FindQuery(b.history, Build(b)).Some?
    ensures var h := SaveToHistory(b, name, id, ts).0.history;
            var i := FindQuery(b.history, Build(b)).value;
            && |h| == |b.history|
            && h[i] == NewEntry(b, name, id, ts)
            && forall k :: 0 <= k < |h| && k != i ==> h[k] == b.history[k]
  {
  }

  /** Saving a new query puts it first and pushes the rest back, dropping
      the oldest entry when the history was full. */
  lemma SaveNewPrepends(b: Builder, name: Option<string>, id: string, ts: string)
    requires Build(b) != "" && |b.history| <= MaxHistory
    requires FindQuery(b.history, Build(b)).None?
    ensures var h := SaveToHistory(b, name, id, ts).0.history;
            && h[0] == NewEntry(b, name, id, ts)
            && |h| == (if |b.history| == MaxHistory then MaxHistory else |b.history| + 1)
            && h[1..] == b.history[..|h| - 1]
  {
    var h0 := [NewEntry(b, name, id, ts)] + b.history;
    var h := SaveToHistory(b, name, id, ts).0.history;
    assert h == Cap(h0);
    assert h[1..] == h0[1..|h|];
  }

  /** Saving under a fresh id and then loading that id restores the
      conditions that were saved. */
  lemma SaveThenLoad(b: Builder, name: Option<string>, id: string, ts: string, other: seq<string>)
    requires Build(b) != "" && |b.history| <= MaxHistory
    requires forall k :: 0 <= k < |b.history| ==> b.history[k].id != id
    ensures var saved := SaveToHistory(b, name, id, ts).0;
            LoadFromHistory(saved.(conditions := other), id) == (saved, true)
  {
    var saved := SaveToHistory(b, name, id, ts).0;
    var h := saved.history;
    var item := NewEntry(b, name, id, ts);
    var i: nat := match FindQuery(b.history, Build(b)) case Some(i) => i case None => 0;
    assert h[i] == item;
    assert forall k :: 0 <= k < |h| && k != i ==> h[k].id != id by {
      forall k | 0 <= k < |h| && k != i ensures h[k].id != id {
        match FindQuery(b.history, Build(b))
        case Some(_) => assert h[k] == b.history[k];
        case None => assert h[k] == b.history[k - 1];
      }
    }
    assert FindId(h, id) == Some(i);
  }

  /** Every history entry's query is what its conditions build to. */
  predicate EntriesMatchQueries(b: Builder) {
    forall k :: 0 <= k < |b.history| ==> Build(b.(conditions := b.history[k].conditions)) == b.history[k].query
  }

  /** Saving keeps every entry's query in step with its conditions. */
  lemma SaveKeepsEntriesMatching(b: Builder, name: Option<string>, id: string, ts: string)
    requires EntriesMatchQueries(b)
    ensures EntriesMatchQueries(SaveToHistory(b, name, id, ts).0)
  {
    var saved := SaveToHistory(b, name, id, ts).0;
    var item := NewEntry(b, name, id, ts);
    assert Build(b.(conditions := item.conditions)) == item.query;
    forall k | 0 <= k < |saved.history|
      ensures Build(saved.(conditions := saved.history[k].conditions)) == saved.history[k].query
    {
      assert Build(saved.(conditions := saved.history[k].conditions))
             == Build(b.(conditions := saved.history[k].conditions));
    }
  }

  /** Loading any entry of such a history rebuilds exactly the query that
      was saved with it. */
  lemma LoadRebuildsQuery(b: Builder, id: string)
    requires EntriesMatchQueries(b) && LoadFromHistory(b, id).1
    ensures Build(LoadFromHistory(b, id).0) == b.history[FindId(b.history, id).value].query
  {
    var k := FindId(b.history, id).value;
    assert LoadFromHistory(b, id).0 == b.(conditions := b.history[k].conditions);
  }

  /** Loading the same id twice is loading it once. */
  lemma LoadTwice(b: Builder, id: string)
    ensures var once := LoadFromHistory(b, id);
            LoadFromHistory(once.0, id) == once
  {
  }
}

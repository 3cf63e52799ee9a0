/** The search form's query compiler (`buildSearchQuery` of the form
    script).  The form's DOM is replaced by a record of the field values it
    reads: text fields hold the raw value ("" when the element is missing),
    the question box is a flag and the sentiment is the value of the
    checked radio button ("" when none is checked). */
module SearchForm {
  import opened JsStrings

  datatype FormValues = FormValues(
    keywords: string,
    orKeywords: string,
    exactPhrase: string,
    wildcardPhrase: string,
    excludeWord: string,
    hashtag: string,
    forceIncludeWord: string,
    urlContains: string,
    language: string,
    hasQuestion: bool,
    sentiment: string)

  /** The non-empty pieces of a field split on single spaces. */
  function Words(s: string): (r: seq<string>)
    ensures forall k :: 0 <= k < |r| ==> r[k] != "" && ' ' !in r[k]
  {
    NonEmptyAvoids(Split(s, ' '), ' ');
    NonEmpty(Split(s, ' '))
  }

  function NonEmpty(ws: seq<string>): (r: seq<string>)
    ensures forall k :: 0 <= k < |r| ==> r[k] != ""
    ensures (forall k :: 0 <= k < |ws| ==> ws[k] != "") ==> r == ws
  {
    if |ws| == 0 then []
    else if ws[0] == "" then NonEmpty(ws[1..])
    else [ws[0]] + NonEmpty(ws[1..])
  }

  lemma {:induction false} NonEmptyAvoids(ws: seq<string>, c: char)
    requires forall k :: 0 <= k < |ws| ==> c !in ws[k]
    ensures forall k :: 0 <= k < |NonEmpty(ws)| ==> c !in NonEmpty(ws)[k]
  {
    if |ws| > 0 {
      NonEmptyAvoids(ws[1..], c);
      if ws[0] != "" {
        assert NonEmpty(ws) == [ws[0]] + NonEmpty(ws[1..]);
      }
    }
  }

  /** Each word with `mark` in front. */
  function Marked(mark: char, ws: seq<string>): (r: seq<string>)
    ensures |r| == |ws|
    ensures forall k :: 0 <= k < |ws| ==> r[k] == [mark] + ws[k]
  {
    if |ws| == 0 then [] else [[mark] + ws[0]] + Marked(mark, ws[1..])
  }

  /** One word as a hashtag: kept when it already starts with `#`. */
  function TagWord(w: string): (r: string)
    ensures r != [] && r[0] == '#'
    ensures w != [] ==> r[|r| - 1] == w[|w| - 1]
    ensures ' ' !in w ==> ' ' !in r
  {
    if StartsWith(w, "#") then w else "#" + w
  }

  /** Each word as a hashtag. */
  function Tagged(ws: seq<string>): (r: seq<string>)
    ensures |r| == |ws|
    ensures forall k :: 0 <= k < |ws| ==> r[k] == TagWord(ws[k])
  {
    if |ws| == 0 then [] else [TagWord(ws[0])] + Tagged(ws[1..])
  }

  /** The exclude / force-include transform of a trimmed field. */
  function PrefixWords(mark: char, s: string): string {
    Join(Marked(mark, Words(s)), " ")
  }

  /** The hashtag transform of a trimmed field. */
  function HashtagWords(s: string): string {
    Join(Tagged(Words(s)), " ")
  }

  /** The wildcard phrase: kept when already in quotes, quoted otherwise. */
  function WildcardTerm(s: string): string {
    if StartsWith(s, "\"") && EndsWith(s, "\"") then s else "\"" + s + "\""
  }

  /** How a trimmed text field is rendered into its query part. */
  datatype Render = AsIs | Quoted | Wildcard | Excluded | Forced | Hashtags | Url

  function RenderPart(how: Render, v: string): string {
    match how
      case AsIs => v
      case Quoted => "\"" + v + "\""
      case Wildcard => WildcardTerm(v)
      case Excluded => PrefixWords('-', v)
      case Forced => PrefixWords('+', v)
      case Hashtags => HashtagWords(v)
      case Url => "url:" + v
  }

  /** The form as the script sees it: every text field trimmed; the
      language and sentiment values are used untrimmed. */
  function TrimFields(f: FormValues): (t: FormValues)
    ensures t.keywords == Trim(f.keywords) && t.orKeywords == Trim(f.orKeywords)
    ensures t.exactPhrase == Trim(f.exactPhrase) && t.wildcardPhrase == Trim(f.wildcardPhrase)
    ensures t.excludeWord == Trim(f.excludeWord) && t.hashtag == Trim(f.hashtag)
    ensures t.forceIncludeWord == Trim(f.forceIncludeWord) && t.urlContains == Trim(f.urlContains)
    ensures t.language == f.language && t.hasQuestion == f.hasQuestion && t.sentiment == f.sentiment
  {
    f.(keywords := Trim(f.keywords), orKeywords := Trim(f.orKeywords),
       exactPhrase := Trim(f.exactPhrase), wildcardPhrase := Trim(f.wildcardPhrase),
       excludeWord := Trim(f.excludeWord), hashtag := Trim(f.hashtag),
       forceIncludeWord := Trim(f.forceIncludeWord), urlContains := Trim(f.urlContains))
  }

  /** One part for a trimmed text field that is not empty. */
  function TextPart(v: string, how: Render): (r: seq<string>)
    ensures v == "" <==> r == []
  {
    if v == "" then [] else [RenderPart(how, v)]
  }

  /** The query parts of a trimmed form in the order the script pushes
      them: the eight text fields, then language, question mark and
      sentiment. */
  function Parts(t: FormValues): seq<string> {
    TextPart(t.keywords, AsIs)
    + TextPart(t.orKeywords, AsIs)
    + TextPart(t.exactPhrase, Quoted)
    + TextPart(t.wildcardPhrase, Wildcard)
    + TextPart(t.excludeWord, Excluded)
    + TextPart(t.hashtag, Hashtags)
    + TextPart(t.forceIncludeWord, Forced)
    + TextPart(t.urlContains, Url)
    + (if t.language == "" then [] else ["lang:" + t.language])
    + (if t.hasQuestion then ["?"] else [])
    + (if t.sentiment == "" then [] else [t.sentiment])
  }

  /** `buildSearchQuery()`: the parts joined by single spaces, trimmed. */
  function BuildSearchQuery(f: FormValues): string {
    Trim(Join(Parts(TrimFields(f)), " "))
  }

  /** Nothing typed, no language, box unchecked, no sentiment. */
  predicate Blank(t: FormValues) {
    && t.keywords == "" && t.orKeywords == "" && t.exactPhrase == ""
    && t.wildcardPhrase == "" && t.excludeWord == "" && t.hashtag == ""
    && t.forceIncludeWord == "" && t.urlContains == ""
    && t.language == "" && !t.hasQuestion && t.sentiment == ""
  }

  /** Every field blank once trimmed. */
  predicate AllBlank(f: FormValues) {
    Blank(TrimFields(f))
  }

  // ------------------------------------------------------------ properties

  /** A single part that is not padded is the whole query. */
  lemma SinglePart(ps: seq<string>, q: string)
    requires ps == [q]
    requires q != [] && !IsJsSpace(q[0]) && !IsJsSpace(q[|q| - 1])
    ensures Trim(Join(ps, " ")) == q
  {
    assert Join(ps, " ") == q;
    TrimOfUnpadded(q);
  }

  /** A blank form compiles to the empty query. */
  lemma BlankFormIsEmpty(f: FormValues)
    requires AllBlank(f)
    ensures BuildSearchQuery(f) == ""
  {
    assert Parts(TrimFields(f)) == [];
  }

  /** A trimmed form whose only entry is the exact phrase has one part:
      that phrase in double quotes. */
  lemma ExactPhrasePart(t: FormValues)
    requires Blank(t.(exactPhrase := "")) && t.exactPhrase != ""
    ensures Parts(t) == ["\"" + t.exactPhrase + "\""]
  {
    var q := "\"" + t.exactPhrase + "\"";
    var p := TextPart(t.keywords, AsIs) + TextPart(t.orKeywords, AsIs);
    assert p == [];
    p := p + TextPart(t.exactPhrase, Quoted);
    assert p == [q];
    p := p + TextPart(t.wildcardPhrase, Wildcard) + TextPart(t.excludeWord, Excluded);
    assert p == [q];
    p := p + TextPart(t.hashtag, Hashtags) + TextPart(t.forceIncludeWord, Forced);
    assert p == [q];
    p := p + TextPart(t.urlContains, Url);
    assert p == [q];
  }

  /** A quoted, non-empty phrase on its own is the whole query. */
  lemma QuotedAlone(v: string)
    requires v != ""
    ensures Trim(Join(["\"" + v + "\""], " ")) == "\"" + v + "\""
  {
    var q := "\"" + v + "\"";
    assert q[0] == '"' && q[|q| - 1] == '"';
    SinglePart([q], q);
  }

  /** The exact phrase alone gives the phrase in double quotes. */
  lemma ExactPhraseOnly(f: FormValues)
    requires AllBlank(f.(exactPhrase := "")) && Trim(f.exactPhrase) != ""
    ensures BuildSearchQuery(f) == "\"" + Trim(f.exactPhrase) + "\""
  {
    var t := TrimFields(f);
    assert TrimFields(f.(exactPhrase := "")) == t.(exactPhrase := Trim(""));
    TrimOfUnpadded("");
    ExactPhrasePart(t);
    QuotedAlone(t.exactPhrase);
  }

  /** A checked question box alone gives exactly `?`. */
  lemma QuestionOnly(f: FormValues)
    requires AllBlank(f.(hasQuestion := false)) && f.hasQuestion
    ensures BuildSearchQuery(f) == "?"
  {
    var t := TrimFields(f);
    assert Blank(t.(hasQuestion := false));
    assert Parts(t) == ["?"];
    SinglePart(Parts(t), "?");
  }

  /** Wrapping the wildcard phrase is idempotent, and its result is always
      in quotes. */
  lemma WildcardIdempotent(s: string)
    ensures StartsWith(WildcardTerm(s), "\"") && EndsWith(WildcardTerm(s), "\"")
    ensures WildcardTerm(WildcardTerm(s)) == WildcardTerm(s)
  {
    if !(StartsWith(s, "\"") && EndsWith(s, "\"")) {
      var w := "\"" + s + "\"";
      assert w[..1] == "\"";
      assert w[|w| - 1..] == "\"";
    }
  }

  /** A trimmed, non-empty field has at least one word. */
  lemma {:induction false} WordsOfTrimmed(v: string)
    requires v != [] && v[0] != ' '
    ensures Words(v) != []
  {
    var ws := Split(v, ' ');
    var rest := Split(v[1..], ' ');
    assert ws == [[v[0]] + rest[0]] + rest[1..];
    assert ws[0] != "";
    assert NonEmpty(ws) == [ws[0]] + NonEmpty(ws[1..]);
  }

  /** The split of the exclude (or force-include) transform gives back one
      marked word per non-empty word of the field. */
  lemma PrefixWordsSplit(mark: char, s: string)
    requires mark != ' ' && Words(s) != []
    ensures Split(PrefixWords(mark, s), ' ') == Marked(mark, Words(s))
    ensures forall k :: 0 <= k < |Words(s)| ==> Split(PrefixWords(mark, s), ' ')[k][1..] == Words(s)[k]
  {
    var ms := Marked(mark, Words(s));
    assert forall k :: 0 <= k < |ms| ==> ' ' !in ms[k] by {
      forall k | 0 <= k < |ms| ensures ' ' !in ms[k] {
        assert ms[k] == [mark] + Words(s)[k];
      }
    }
    SplitJoin(ms, ' ');
    forall k | 0 <= k < |Words(s)| ensures ms[k][1..] == Words(s)[k] {
      assert ms[k] == [mark] + Words(s)[k];
    }
  }

  /** The last piece of a split of a string that does not end with the
      separator is not empty and ends with the string's last character. */
  lemma {:induction false} SplitLast(s: string, sep: char)
    requires s != [] && s[|s| - 1] != sep
    ensures var ws := Split(s, sep);
            ws[|ws| - 1] != [] && ws[|ws| - 1][|ws[|ws| - 1]| - 1] == s[|s| - 1]
  {
    var t := s[1..];
    var rest := Split(t, sep);
    if t != [] {
      assert t[|t| - 1] == s[|s| - 1];
      SplitLast(t, sep);
    }
    if s[0] == sep {
      assert Split(s, sep) == [""] + rest;
    } else {
      assert Split(s, sep) == [[s[0]] + rest[0]] + rest[1..];
      if t == [] {
        assert rest == [""];
      }
    }
  }

  lemma {:induction false} NonEmptyKeepsLast(ws: seq<string>)
    requires ws != [] && ws[|ws| - 1] != ""
    ensures NonEmpty(ws) != [] && NonEmpty(ws)[|NonEmpty(ws)| - 1] == ws[|ws| - 1]
  {
    if |ws| > 1 {
      NonEmptyKeepsLast(ws[1..]);
      if ws[0] != "" {
        assert NonEmpty(ws) == [ws[0]] + NonEmpty(ws[1..]);
      }
    }
  }

  lemma {:induction false} JoinLast(ws: seq<string>, sep: string)
    requires ws != [] && ws[|ws| - 1] != ""
    ensures var j := Join(ws, sep); j != [] && j[|j| - 1] == ws[|ws| - 1][|ws[|ws| - 1]| - 1]
  {
    if |ws| > 1 {
      JoinLast(ws[1..], sep);
    }
  }

  lemma {:induction false} JoinFirst(ws: seq<string>, sep: string)
    requires ws != [] && ws[0] != ""
    ensures var j := Join(ws, sep); j != [] && j[0] == ws[0][0]
  {
  }

  /** Tagging keeps words non-empty and space-free, makes each start with
      `#`, and keeps the last character of the last word. */
  lemma TaggedShape(ws: seq<string>)
    requires ws != []
    requires forall k :: 0 <= k < |ws| ==> ws[k] != "" && ' ' !in ws[k]
    ensures var ts := Tagged(ws);
            && (forall k :: 0 <= k < |ts| ==> ts[k] != [] && ts[k][0] == '#' && ' ' !in ts[k])
            && ts[|ts| - 1][|ts[|ts| - 1]| - 1] == ws[|ws| - 1][|ws[|ws| - 1]| - 1]
  {
  }

  /** The words of a trimmed field end with the field's last character. */
  lemma WordsEnd(v: string)
    requires v != [] && v[0] != ' ' && v[|v| - 1] != ' '
    ensures var ws := Words(v); ws != [] && ws[|ws| - 1][|ws[|ws| - 1]| - 1] == v[|v| - 1]
  {
    WordsOfTrimmed(v);
    SplitLast(v, ' ');
    NonEmptyKeepsLast(Split(v, ' '));
  }

  /** The hashtag transform of a trimmed field starts with `#`. */
  lemma HashtagFirst(v: string)
    requires v != [] && v[0] != ' '
    ensures HashtagWords(v) != [] && HashtagWords(v)[0] == '#'
  {
    var ws := Words(v);
    WordsOfTrimmed(v);
    TaggedShape(ws);
    JoinFirst(Tagged(ws), " ");
  }

  /** Joining the tagged words ends with the last word's last character. */
  lemma TaggedJoinLast(ws: seq<string>)
    requires ws != [] && ws[|ws| - 1] != ""
    ensures var h := Join(Tagged(ws), " "); h != [] && h[|h| - 1] == ws[|ws| - 1][|ws[|ws| - 1]| - 1]
  {
    var ts := Tagged(ws);
    assert ts[|ts| - 1] == TagWord(ws[|ws| - 1]);
    JoinLast(ts, " ");
  }

  /** The hashtag transform of a trimmed field ends with the field's last
      character. */
  lemma HashtagLast(v: string)
    requires v != [] && v[0] != ' ' && v[|v| - 1] != ' '
    ensures var h := HashtagWords(v); h != [] && h[|h| - 1] == v[|v| - 1]
  {
    WordsEnd(v);
    TaggedJoinLast(Words(v));
  }

  /** The hashtag transform of a trimmed field needs no further trimming. */
  lemma HashtagTrimmed(v: string)
    requires v != [] && !IsJsSpace(v[0]) && !IsJsSpace(v[|v| - 1])
    ensures Trim(HashtagWords(v)) == HashtagWords(v)
  {
    var h := HashtagWords(v);
    assert v[0] != ' ' && v[|v| - 1] != ' ';
    HashtagFirst(v);
    HashtagLast(v);
    assert !IsJsSpace('#');
    TrimOfUnpadded(h);
  }

  /** Re-tagging already tagged words changes nothing. */
  lemma TaggedFixed(ts: seq<string>)
    requires forall k :: 0 <= k < |ts| ==> ts[k] != [] && ts[k][0] == '#'
    ensures Tagged(ts) == ts
  {
    forall k | 0 <= k < |ts| ensures Tagged(ts)[k] == ts[k] {
      assert StartsWith(ts[k], "#");
    }
  }

  /** The hashtag transform is idempotent: feeding its output back into the
      hashtag field gives the same part, since words that already carry `#`
      keep it. */
  lemma HashtagIdempotent(v: string)
    requires v != [] && !IsJsSpace(v[0]) && !IsJsSpace(v[|v| - 1])
    ensures Trim(HashtagWords(v)) == HashtagWords(v)
    ensures HashtagWords(HashtagWords(v)) == HashtagWords(v)
  {
    HashtagTrimmed(v);
    assert v[0] != ' ';
    var ws := Words(v);
    WordsOfTrimmed(v);
    TaggedShape(ws);
    var ts := Tagged(ws);
    SplitJoin(ts, ' ');
    assert Words(Join(ts, " ")) == ts;
    TaggedFixed(ts);
  }

  /** Text that neither starts nor ends with white space. */
  predicate Unpadded(s: string) {
    s == [] || (!IsJsSpace(s[0]) && !IsJsSpace(s[|s| - 1]))
  }

  /** Query parts that are all present and unpadded. */
  predicate Solid(ps: seq<string>) {
    forall k :: 0 <= k < |ps| ==> ps[k] != [] && Unpadded(ps[k])
  }

  /** The exclude / force-include transform of a trimmed field starts with
      its mark and ends where the field ends. */
  lemma PrefixWordsUnpadded(mark: char, v: string)
    requires !IsJsSpace(mark) && v != [] && Unpadded(v)
    ensures PrefixWords(mark, v) != [] && Unpadded(PrefixWords(mark, v))
  {
    assert v[0] != ' ' && v[|v| - 1] != ' ';
    var ws := Words(v);
    WordsEnd(v);
    var ms := Marked(mark, ws);
    assert ms[0] == [mark] + ws[0];
    JoinFirst(ms, " ");
    assert ms[|ms| - 1] == [mark] + ws[|ws| - 1];
    JoinLast(ms, " ");
  }

  /** Every rendering of a trimmed, non-empty field is a non-empty part
      with no white space at either end. */
  lemma RenderUnpadded(how: Render, v: string)
    requires v != [] && Unpadded(v)
    ensures RenderPart(how, v) != [] && Unpadded(RenderPart(how, v))
  {
    match how
    case AsIs =>
    case Quoted =>
    case Wildcard =>
    case Excluded => PrefixWordsUnpadded('-', v);
    case Forced => PrefixWordsUnpadded('+', v);
    case Hashtags =>
      assert v[0] != ' ' && v[|v| - 1] != ' ';
      HashtagFirst(v);
      HashtagLast(v);
    case Url =>
  }

  lemma TextPartSolid(v: string, how: Render)
    requires Unpadded(v)
    ensures Solid(TextPart(v, how))
  {
    if v != "" {
      RenderUnpadded(how, v);
    }
  }

  lemma SolidConcat(a: seq<string>, b: seq<string>)
    requires Solid(a) && Solid(b)
    ensures Solid(a + b)
  {
    forall k | 0 <= k < |a + b| ensures (a + b)[k] != [] && Unpadded((a + b)[k]) {
      if k < |a| {
        assert (a + b)[k] == a[k];
      } else {
        assert (a + b)[k] == b[k - |a|];
      }
    }
  }

  /** Every field of the form, as the script uses it, is unpadded. */
  predicate FieldsUnpadded(t: FormValues) {
    && Unpadded(t.keywords) && Unpadded(t.orKeywords) && Unpadded(t.exactPhrase)
    && Unpadded(t.wildcardPhrase) && Unpadded(t.excludeWord) && Unpadded(t.hashtag)
    && Unpadded(t.forceIncludeWord) && Unpadded(t.urlContains)
    && Unpadded(t.language) && Unpadded(t.sentiment)
  }

  /** The eight text fields' parts, in the order `Parts` lists them. */
  function TextParts(t: FormValues): seq<string> {
    TextPart(t.keywords, AsIs)
    + TextPart(t.orKeywords, AsIs)
    + TextPart(t.exactPhrase, Quoted)
    + TextPart(t.wildcardPhrase, Wildcard)
    + TextPart(t.excludeWord, Excluded)
    + TextPart(t.hashtag, Hashtags)
    + TextPart(t.forceIncludeWord, Forced)
    + TextPart(t.urlContains, Url)
  }

  lemma TextPartsSolid(t: FormValues)
    requires FieldsUnpadded(t)
    ensures Solid(TextParts(t))
  {
    TextPartSolid(t.keywords, AsIs);
    TextPartSolid(t.orKeywords, AsIs);
    var p := TextPart(t.keywords, AsIs) + TextPart(t.orKeywords, AsIs);
    SolidConcat(TextPart(t.keywords, AsIs), TextPart(t.orKeywords, AsIs));
    TextPartSolid(t.exactPhrase, Quoted);
    SolidConcat(p, TextPart(t.exactPhrase, Quoted));
    p := p + TextPart(t.exactPhrase, Quoted);
    TextPartSolid(t.wildcardPhrase, Wildcard);
    SolidConcat(p, TextPart(t.wildcardPhrase, Wildcard));
    p := p + TextPart(t.wildcardPhrase, Wildcard);
    TextPartSolid(t.excludeWord, Excluded);
    SolidConcat(p, TextPart(t.excludeWord, Excluded));
    p := p + TextPart(t.excludeWord, Excluded);
    TextPartSolid(t.hashtag, Hashtags);
    SolidConcat(p, TextPart(t.hashtag, Hashtags));
    p := p + TextPart(t.hashtag, Hashtags);
    TextPartSolid(t.forceIncludeWord, Forced);
    SolidConcat(p, TextPart(t.forceIncludeWord, Forced));
    p := p + TextPart(t.forceIncludeWord, Forced);
    TextPartSolid(t.urlContains, Url);
    SolidConcat(p, TextPart(t.urlContains, Url));
  }

  /** An optional part that is unpadded whenever it is present. */
  lemma OptionalSolid(present: bool, q: string)
    requires present ==> q != [] && Unpadded(q)
    ensures Solid(if present then [q] else [])
  {
  }

  /** Unpadded fields give parts that are all present and unpadded. */
  lemma PartsSolid(t: FormValues)
    requires FieldsUnpadded(t)
    ensures Solid(Parts(t))
  {
    TextPartsSolid(t);
    var lang := if t.language == "" then [] else ["lang:" + t.language];
    OptionalSolid(t.language != "", "lang:" + t.language);
    SolidConcat(TextParts(t), lang);
    var question := if t.hasQuestion then ["?"] else [];
    OptionalSolid(t.hasQuestion, "?");
    SolidConcat(TextParts(t) + lang, question);
    var mood := if t.sentiment == "" then [] else [t.sentiment];
    OptionalSolid(t.sentiment != "", t.sentiment);
    SolidConcat(TextParts(t) + lang + question, mood);
    assert Parts(t) == TextParts(t) + lang + question + mood;
  }

  /** Parts that are all present and unpadded join into unpadded text. */
  lemma JoinUnpadded(ps: seq<string>)
    requires Solid(ps)
    ensures Unpadded(Join(ps, " "))
  {
    if ps != [] {
      JoinFirst(ps, " ");
      JoinLast(ps, " ");
    }
  }

  /** The script's trimming leaves every text field unpadded. */
  lemma TrimFieldsUnpadded(f: FormValues)
    requires Unpadded(f.language) && Unpadded(f.sentiment)
    ensures FieldsUnpadded(TrimFields(f))
  {
  }

  /** Unpadded fields join into an unpadded query. */
  lemma JoinedPartsUnpadded(t: FormValues)
    requires FieldsUnpadded(t)
    ensures Unpadded(Join(Parts(t), " "))
  {
    PartsSolid(t);
    JoinUnpadded(Parts(t));
  }

  /** The final `trim()` only matters when the language or sentiment value
      carries white space: otherwise the query is exactly the present parts
      joined by single spaces. */
  lemma FinalTrimIsNoOp(f: FormValues)
    requires Unpadded(f.language) && Unpadded(f.sentiment)
    ensures BuildSearchQuery(f) == Join(Parts(TrimFields(f)), " ")
  {
    TrimFieldsUnpadded(f);
    JoinedPartsUnpadded(TrimFields(f));
    TrimOfUnpadded(Join(Parts(TrimFields(f)), " "));
  }
}

/** The two reducers over a condition list besides `build`: the
    human-readable description (`getDescription`) and the rule checks
    (`validate`). */
module QueryReducers {
  import opened JsStrings

  /** The description of an empty condition list. */
  const NoConditions := "无搜索条件"

  /** One row of the description dispatch: a condition starting with
      `prefix` is described as `caption` followed by the condition, with the
      prefix cut off when `strip` holds. */
  datatype Rule = Rule(prefix: string, caption: string, strip: bool)

  /** The dispatch rows in the order the source tries them. */
  const Rules: seq<Rule> := [
    Rule("from:", "来自用户: ", true),
    Rule("to:", "回复用户: ", true),
    Rule("@", "提及用户: ", true),
    Rule("#", "话题标签: ", false),
    Rule("$", "股票代码: ", false),
    Rule("lang:", "语言: ", true),
    Rule("since:", "开始时间: ", true),
    Rule("until:", "结束时间: ", true),
    Rule("filter:", "筛选: ", true),
    Rule("min_", "最少互动: ", false),
    Rule("near:", "地理位置: ", true)
  ]

  const ExactPhraseLabel := "精确短语: "
  const KeywordLabel := "关键词: "

  /** The label of one condition, as the source's if-chain computes it. */
  function Label(c: string): string {
    if StartsWith(c, "from:") then "来自用户: " + c[5..]
    else if StartsWith(c, "to:") then "回复用户: " + c[3..]
    else if StartsWith(c, "@") then "提及用户: " + c[1..]
    else if StartsWith(c, "#") then "话题标签: " + c
    else if StartsWith(c, "$") then "股票代码: " + c
    else if StartsWith(c, "lang:") then "语言: " + c[5..]
    else if StartsWith(c, "since:") then "开始时间: " + c[6..]
    else if StartsWith(c, "until:") then "结束时间: " + c[6..]
    else if StartsWith(c, "filter:") then "筛选: " + c[7..]
    else if StartsWith(c, "min_") then "最少互动: " + c
    else if StartsWith(c, "near:") then "地理位置: " + c[5..]
    else if StartsWith(c, "\"") && EndsWith(c, "\"") then ExactPhraseLabel + c
    else KeywordLabel + c
  }

  /** Index of the first row of `Rules[from..]` whose prefix starts `c`,
      or `|Rules|` when none does. */
  function FirstRule(c: string, from: nat): (k: nat)
    requires from <= |Rules|
    ensures from <= k <= |Rules|
    ensures k < |Rules| ==> StartsWith(c, Rules[k].prefix)
    ensures forall j :: from <= j < k ==> !StartsWith(c, Rules[j].prefix)
    decreases |Rules| - from
  {
    if from == |Rules| then from
    else if StartsWith(c, Rules[from].prefix) then from
    else FirstRule(c, from + 1)
  }

  /** The label by table lookup: the first matching row wins; otherwise a
      quoted condition is an exact phrase and anything else a keyword. */
  function TableLabel(c: string): string {
    var k := FirstRule(c, 0);
    if k < |Rules| then
      var rule := Rules[k];
      rule.caption + (if rule.strip then c[|rule.prefix|..] else c)
    else if StartsWith(c, "\"") && EndsWith(c, "\"") then ExactPhraseLabel + c
    else KeywordLabel + c
  }

  /** The labels of a condition list, one per condition, in order. */
  function Labels(cs: seq<string>): (r: seq<string>)
    ensures |r| == |cs|
    ensures forall k :: 0 <= k < |cs| ==> r[k] == Label(cs[k])
  {
    if |cs| == 0 then [] else [Label(cs[0])] + Labels(cs[1..])
  }

  /** `getDescription()`. */
  function Describe(cs: seq<string>): string {
    if |cs| == 0 then NoConditions else Join(Labels(cs), ", ")
  }

  // --------------------------------------------------------------- validate

  const TooManyUsers := "用户条件过多，可能导致搜索结果为空"
  const TooManySince := "只能设置一个开始时间"
  const TooManyUntil := "只能设置一个结束时间"
  const TooManyLocations := "只能设置一个地理位置条件"

  datatype Validation = Validation(isValid: bool, errors: seq<string>)

  /** Number of conditions starting with `prefix`. */
  function CountPrefix(cs: seq<string>, prefix: string): (n: nat)
    ensures n <= |cs|
    ensures n == 0 <==> forall k :: 0 <= k < |cs| ==> !StartsWith(cs[k], prefix)
  {
    if |cs| == 0 then 0
    else (if StartsWith(cs[0], prefix) then 1 else 0) + CountPrefix(cs[1..], prefix)
  }

  predicate HasPrefix(cs: seq<string>, prefix: string) {
    exists k :: 0 <= k < |cs| && StartsWith(cs[k], prefix)
  }

  /** The four rules of `validate()`, each checked on its own. */
  predicate UserOverConstrained(cs: seq<string>) {
    HasPrefix(cs, "from:") && HasPrefix(cs, "to:") && HasPrefix(cs, "@")
  }

  predicate SinceRepeated(cs: seq<string>) { CountPrefix(cs, "since:") > 1 }

  predicate UntilRepeated(cs: seq<string>) { CountPrefix(cs, "until:") > 1 }

  predicate LocationRepeated(cs: seq<string>) {
    CountPrefix(cs, "near:") > 1 || CountPrefix(cs, "geocode:") > 1
  }

  function ErrorIf(fires: bool, message: string): seq<string> {
    if fires then [message] else []
  }

  /** `validate()`: the messages of the rules that fire, in rule order;
      valid exactly when none fires. */
  function Validate(cs: seq<string>): (v: Validation)
    ensures v.isValid <==> v.errors == []
    ensures v.isValid <==> !UserOverConstrained(cs) && !SinceRepeated(cs)
                           && !UntilRepeated(cs) && !LocationRepeated(cs)
    ensures TooManyUsers in v.errors <==> UserOverConstrained(cs)
    ensures TooManySince in v.errors <==> SinceRepeated(cs)
    ensures TooManyUntil in v.errors <==> UntilRepeated(cs)
    ensures TooManyLocations in v.errors <==> LocationRepeated(cs)
    ensures |v.errors| <= 4
  {
    var errors :=
      ErrorIf(UserOverConstrained(cs), TooManyUsers)
      + ErrorIf(SinceRepeated(cs), TooManySince)
      + ErrorIf(UntilRepeated(cs), TooManyUntil)
      + ErrorIf(LocationRepeated(cs), TooManyLocations);
    Validation(|errors| == 0, errors)
  }
}

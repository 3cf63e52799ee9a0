/** `HelperUtils`: text truncation, key-based de-duplication, relative
    time buckets and the tweet record check.  The clock and the parse of
    a timestamp are replaced by integer millisecond readings. */
module Helpers {
  import opened JsStrings
  import opened JsValues

  // ------------------------------------------------------------ truncateText

  /** The end index `substring` uses: clamped into `[0, len]`. */
  function ClampIndex(i: int, len: nat): (r: nat)
    ensures r <= len
    ensures 0 <= i <= len ==> r == i
  {
    if i < 0 then 0 else if i > len then len else i
  }

  /** `truncateText(text, maxLength, suffix)`: `""` for a non-string or
      empty text, the text itself when it fits, otherwise its first
      `maxLength - |suffix|` characters (none when that is negative)
      followed by the suffix. */
  function TruncateText(text: JsValue, maxLength: int, suffix: string): (r: string)
    ensures !text.Str? || text.s == "" ==> r == ""
    ensures text.Str? && |text.s| <= maxLength ==> r == text.s
    ensures text.Str? && text.s != "" && |text.s| > maxLength ==>
      EndsWith(r, suffix) && StartsWith(text.s, r[..|r| - |suffix|])
      && |r| == (if maxLength < |suffix| then |suffix| else maxLength)
  {
    if !text.Str? || text.s == "" then ""
    else if |text.s| <= maxLength then text.s
    else
      var head := text.s[..ClampIndex(maxLength - |suffix|, |text.s|)];
      var r := head + suffix;
      assert r[..|r| - |suffix|] == head && r[|r| - |suffix|..] == suffix;
      r
  }

  /** A truncated text fits the limit once the limit leaves room for the
      suffix, so truncating it again changes nothing. */
  lemma TruncateIdempotent(text: string, maxLength: int, suffix: string)
    requires |suffix| <= maxLength
    ensures TruncateText(Str(TruncateText(Str(text), maxLength, suffix)), maxLength, suffix)
            == TruncateText(Str(text), maxLength, suffix)
  {
  }

  /** With a limit shorter than the suffix the result is the bare suffix,
      longer than the limit. */
  lemma TruncateBelowSuffix(text: string, maxLength: int, suffix: string)
    requires text != "" && maxLength < |suffix| && maxLength < |text|
    ensures TruncateText(Str(text), maxLength, suffix) == suffix
  {
    assert text[..0] + suffix == suffix;
  }

  // ---------------------------------------------------------------- uniqueBy

  /** The keys of the items of `xs`. */
  function KeysOf<T, K>(xs: seq<T>, key: T -> K): (r: set<K>)
    ensures forall i :: 0 <= i < |xs| ==> key(xs[i]) in r
    ensures forall k :: k in r ==> exists i :: 0 <= i < |xs| && key(xs[i]) == k
  {
    if |xs| == 0 then {}
    else
      var rest := KeysOf(xs[1..], key);
      assert forall i :: 1 <= i < |xs| ==> xs[i] == xs[1..][i - 1];
      {key(xs[0])} + rest
  }

  /** No two items share a key. */
  predicate DistinctKeys<T, K(==)>(xs: seq<T>, key: T -> K) {
    forall i, j :: 0 <= i < j < |xs| ==> key(xs[i]) != key(xs[j])
  }

  /** `a` is `b` with some items left out, the rest in their order. */
  predicate SubSeq<T(==)>(a: seq<T>, b: seq<T>)
    decreases |b|
  {
    if |b| == 0 then |a| == 0
    else (|a| > 0 && a[0] == b[0] && SubSeq(a[1..], b[1..])) || SubSeq(a, b[1..])
  }

  /** Index of the first item of `xs` whose key is `k`. */
  function FirstIndexOfKey<T, K(==)>(xs: seq<T>, key: T -> K, k: K): (r: nat)
    requires k in KeysOf(xs, key)
    ensures r < |xs| && key(xs[r]) == k
    ensures forall j :: 0 <= j < r ==> key(xs[j]) != k
  {
    if key(xs[0]) == k then 0
    else
      assert k in KeysOf(xs[1..], key);
      1 + FirstIndexOfKey(xs[1..], key, k)
  }

  /** The reference for `uniqueBy`: the items of `xs` whose key is neither
      in `seen` nor the key of an earlier item. */
  function UniqueFrom<T, K(==)>(xs: seq<T>, key: T -> K, seen: set<K>): seq<T> {
    if |xs| == 0 then []
    else if key(xs[0]) in seen then UniqueFrom(xs[1..], key, seen)
    else [xs[0]] + UniqueFrom(xs[1..], key, seen + {key(xs[0])})
  }

  /** `uniqueBy(array, key)`: filters with a set of the keys seen so far.
      A property name as the key is the function reading that property. */
  method UniqueBy<T, K(==)>(xs: seq<T>, key: T -> K) returns (r: seq<T>)
    ensures r == UniqueFrom(xs, key, {})
    ensures DistinctKeys(r, key) && KeysOf(r, key) == KeysOf(xs, key)
    ensures SubSeq(r, xs)
    ensures forall k :: 0 <= k < |r| ==>
      (key(r[k]) in KeysOf(xs, key) && r[k] == xs[FirstIndexOfKey(xs, key, key(r[k]))])
  {
    r := [];
    var seen: set<K> := {};
    var i := 0;
    while i < |xs|
      invariant 0 <= i <= |xs|
      invariant r + UniqueFrom(xs[i..], key, seen) == UniqueFrom(xs, key, {})
    {
      var v := key(xs[i]);
      assert xs[i..][1..] == xs[i + 1..];
      if v !in seen {
        r := r + [xs[i]];
        seen := seen + {v};
      }
      i := i + 1;
    }
    assert xs[i..] == [];
    UniqueFromKeys(xs, key, {});
    UniqueFromIsSubSeq(xs, key, {});
    UniqueFromKeepsFirst(xs, key, {});
  }

  /** The kept items have distinct keys, none of them in `seen`, and
      together they carry every key of `xs` outside `seen`. */
  lemma {:induction false} UniqueFromKeys<T, K>(xs: seq<T>, key: T -> K, seen: set<K>)
    ensures var r := UniqueFrom(xs, key, seen);
            DistinctKeys(r, key) && KeysOf(r, key) == KeysOf(xs, key) - seen
            && forall k :: 0 <= k < |r| ==> key(r[k]) !in seen
  {
    if |xs| > 0 {
      var x := xs[0];
      assert KeysOf(xs, key) == {key(x)} + KeysOf(xs[1..], key);
      if key(x) in seen {
        UniqueFromKeys(xs[1..], key, seen);
      } else {
        var rest := UniqueFrom(xs[1..], key, seen + {key(x)});
        UniqueFromKeys(xs[1..], key, seen + {key(x)});
        var r := [x] + rest;
        assert r[1..] == rest;
        assert KeysOf(r, key) == {key(x)} + KeysOf(rest, key);
        forall i, j | 0 <= i < j < |r| ensures key(r[i]) != key(r[j]) {
          if i == 0 { assert r[j] == rest[j - 1]; }
          else { assert r[i] == rest[i - 1] && r[j] == rest[j - 1]; }
        }
        forall k | 0 <= k < |r| ensures key(r[k]) !in seen {
          if k > 0 { assert r[k] == rest[k - 1]; }
        }
      }
    }
  }

  /** The kept items are a subsequence of the input. */
  lemma {:induction false} UniqueFromIsSubSeq<T, K>(xs: seq<T>, key: T -> K, seen: set<K>)
    ensures SubSeq(UniqueFrom(xs, key, seen), xs)
  {
    if |xs| > 0 {
      if key(xs[0]) in seen {
        UniqueFromIsSubSeq(xs[1..], key, seen);
      } else {
        var rest := UniqueFrom(xs[1..], key, seen + {key(xs[0])});
        UniqueFromIsSubSeq(xs[1..], key, seen + {key(xs[0])});
        assert ([xs[0]] + rest)[1..] == rest;
      }
    }
  }

  /** Each kept item is the first item of the input with its key. */
  lemma {:induction false} UniqueFromKeepsFirst<T, K>(xs: seq<T>, key: T -> K, seen: set<K>)
    ensures var r := UniqueFrom(xs, key, seen);
            forall k :: 0 <= k < |r| ==>
              (key(r[k]) in KeysOf(xs, key) && r[k] == xs[FirstIndexOfKey(xs, key, key(r[k]))])
  {
    if |xs| > 0 {
      var x := xs[0];
      var r := UniqueFrom(xs, key, seen);
      var seen' := if key(x) in seen then seen else seen + {key(x)};
      var rest := UniqueFrom(xs[1..], key, seen');
      UniqueFromKeepsFirst(xs[1..], key, seen');
      UniqueFromKeys(xs[1..], key, seen');
      assert key(x) in seen';
      assert r == (if key(x) in seen then rest else [x] + rest);
      forall k | 0 <= k < |r|
        ensures key(r[k]) in KeysOf(xs, key) && r[k] == xs[FirstIndexOfKey(xs, key, key(r[k]))]
      {
        if key(x) in seen || k > 0 {
          var m := if key(x) in seen then k else k - 1;
          assert r[k] == rest[m];
          assert key(rest[m]) != key(x);
          assert FirstIndexOfKey(xs, key, key(r[k]))
                 == 1 + FirstIndexOfKey(xs[1..], key, key(rest[m]));
        }
      }
    }
  }

  // -------------------------------------------------------------- getTimeAgo

  /** `Math.floor((now - time) / 1000)` for millisecond readings. */
  function SecondsBetween(now: int, time: int): (r: int)
    ensures r * 1000 <= now - time < (r + 1) * 1000
  {
    (now - time) / 1000
  }

  /** The phrase `getTimeAgo` picks: a count of one unit. */
  datatype TimeAgo =
    | JustNow
    | MinutesAgo(n: nat)
    | HoursAgo(n: nat)
    | DaysAgo(n: nat)
    | MonthsAgo(n: nat)
    | YearsAgo(n: nat)

  /** Seconds in the bucket's unit; a month is 30 days, a year 365. */
  function UnitSeconds(t: TimeAgo): nat {
    match t
    case JustNow => 1
    case MinutesAgo(_) => 60
    case HoursAgo(_) => 3600
    case DaysAgo(_) => 86400
    case MonthsAgo(_) => 2592000
    case YearsAgo(_) => 31536000
  }

  /** Buckets in increasing order of age. */
  function Rank(t: TimeAgo): nat {
    match t
    case JustNow => 0
    case MinutesAgo(_) => 1
    case HoursAgo(_) => 2
    case DaysAgo(_) => 3
    case MonthsAgo(_) => 4
    case YearsAgo(_) => 5
  }

  /** The bucket for an age of `d` seconds. */
  function Bucket(d: int): (r: TimeAgo)
    ensures r == JustNow <==> d < 60
    ensures r != JustNow ==> r.n >= 1 && r.n * UnitSeconds(r) <= d < (r.n + 1) * UnitSeconds(r)
    ensures r.MinutesAgo? ==> r.n < 60
    ensures r.HoursAgo? ==> r.n < 24
    ensures r.DaysAgo? ==> r.n < 30
    ensures r.MonthsAgo? ==> r.n <= 12
  {
    if d < 60 then JustNow
    else if d < 3600 then MinutesAgo(d / 60)
    else if d < 86400 then HoursAgo(d / 3600)
    else if d < 2592000 then DaysAgo(d / 86400)
    else if d < 31536000 then MonthsAgo(d / 2592000)
    else YearsAgo(d / 31536000)
  }

  /** `getTimeAgo(timestamp)` for the clock reading `now` and the
      timestamp's value `time`, both in milliseconds. */
  function GetTimeAgo(now: int, time: int): (r: TimeAgo)
    ensures r == JustNow <==> now - time < 60000
  {
    Bucket(SecondsBetween(now, time))
  }

  /** The text shown for a bucket. */
  function TimeAgoText(t: TimeAgo): (r: string)
    ensures t == JustNow <==> r == "刚刚"
  {
    match t
    case JustNow => "刚刚"
    case MinutesAgo(n) => NatToString(n) + "分钟前"
    case HoursAgo(n) => NatToString(n) + "小时前"
    case DaysAgo(n) => NatToString(n) + "天前"
    case MonthsAgo(n) => NatToString(n) + "个月前"
    case YearsAgo(n) => NatToString(n) + "年前"
  }

  /** The unit word that follows the count. */
  function UnitWord(t: TimeAgo): string {
    match t
    case JustNow => ""
    case MinutesAgo(_) => "分钟前"
    case HoursAgo(_) => "小时前"
    case DaysAgo(_) => "天前"
    case MonthsAgo(_) => "个月前"
    case YearsAgo(_) => "年前"
  }

  /** The count can be read back from the text in front of the unit word. */
  lemma TimeAgoTextCount(t: TimeAgo)
    requires t != JustNow
    ensures var s := TimeAgoText(t);
            |UnitWord(t)| < |s| && EndsWith(s, UnitWord(t))
            && var digits := s[..|s| - |UnitWord(t)|];
               (forall k :: 0 <= k < |digits| ==> IsDigit(digits[k])) && DigitsValue(digits) == t.n
  {
    var s := TimeAgoText(t);
    var d := NatToString(t.n);
    assert s == d + UnitWord(t);
    assert s[..|s| - |UnitWord(t)|] == d;
    assert s[|s| - |UnitWord(t)|..] == UnitWord(t);
    NatToStringRoundTrip(t.n);
  }

  /** An older timestamp never lands in a younger bucket, nor with a
      smaller count in the same bucket. */
  lemma BucketMonotone(d1: int, d2: int)
    requires d1 <= d2
    ensures Rank(Bucket(d1)) <= Rank(Bucket(d2))
    ensures Rank(Bucket(d1)) == Rank(Bucket(d2)) && Bucket(d1) != JustNow ==>
      Bucket(d1).n <= Bucket(d2).n
  {
    var b1, b2 := Bucket(d1), Bucket(d2);
    if Rank(b1) == Rank(b2) && b1 != JustNow {
      var u := UnitSeconds(b1);
      assert u == UnitSeconds(b2);
      if b1.n > b2.n {
        assert b1.n * u >= (b2.n + 1) * u by { MulMonotone(b2.n + 1, b1.n, u); }
      }
    }
  }

  lemma MulMonotone(a: nat, b: nat, u: nat)
    requires a <= b
    ensures a * u <= b * u
  {
  }

  /** As the clock moves on, the phrase for a fixed timestamp only ages. */
  lemma TimeAgoMonotone(now1: int, now2: int, time: int)
    requires now1 <= now2
    ensures Rank(GetTimeAgo(now1, time)) <= Rank(GetTimeAgo(now2, time))
  {
    BucketMonotone(SecondsBetween(now1, time), SecondsBetween(now2, time));
  }

  // ------------------------------------------------------- validateTweetData

  /** The properties a tweet record must carry. */
  const RequiredTweetFields: seq<string> := ["id", "text", "createdAt"]

  /** `fields.every(f => v.hasOwnProperty(f) && v[f] !== null)`. */
  function EveryFieldSet(v: JsValue, fields: seq<string>): (r: bool)
    ensures r <==> forall k :: 0 <= k < |fields| ==> HasOwn(v, fields[k]) && Get(v, fields[k]) != Null
  {
    if |fields| == 0 then true
    else
      assert forall k :: 1 <= k < |fields| ==> fields[k] == fields[1..][k - 1];
      HasOwn(v, fields[0]) && Get(v, fields[0]) != Null && EveryFieldSet(v, fields[1..])
  }

  /** `validateTweetData(tweet)`: a truthy value of object type with an
      own, non-null `id`, `text` and `createdAt`. */
  function ValidateTweetData(v: JsValue): (r: bool)
    ensures r <==> v.Obj? && forall f :: f in RequiredTweetFields ==> f in v.fields && v.fields[f] != Null
  {
    if !Truthy(v) || !IsObjectType(v) then false
    else EveryFieldSet(v, RequiredTweetFields)
  }

  /** A property that is present but `undefined` passes the check: only
      `null` is refused. */
  lemma UndefinedFieldPasses(text: JsValue, createdAt: JsValue)
    requires text != Null && createdAt != Null
    ensures ValidateTweetData(Obj(map["id" := Undefined, "text" := text, "createdAt" := createdAt]))
  {
  }
}

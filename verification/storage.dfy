/** `StorageManager`: the tweets kept in the local storage area, the
    settings kept in the sync area, first-run initialisation and data
    import.  Each area is a record of the keys the manager uses; a read
    that fails is `None`.  The clock's ISO reading that `saveTweets`
    stamps is a parameter, and `createdAt` is a millisecond count. */
module Storage {
  import opened Results
  import opened JsValues
  import Helpers

  datatype Tweet = Tweet(id: string, text: string, createdAt: int)

  /** The local area: `tweets`, `lastSync` and `isFirstRun`, the latter
      `Undefined` until written. */
  datatype LocalArea = LocalArea(tweets: Option<seq<Tweet>>, lastSync: Option<string>, isFirstRun: JsValue)

  /** The sync area's `settings` object. */
  datatype SyncArea = SyncArea(settings: Option<map<string, JsValue>>)

  /** What `getTweets()` resolves to. */
  datatype TweetsView = TweetsView(tweets: seq<Tweet>, lastSync: Option<string>)

  /** The tweet as the object stored and exported. */
  function EncodeTweet(t: Tweet): JsValue {
    Obj(map["id" := Str(t.id), "text" := Str(t.text), "createdAt" := Num(t.createdAt)])
  }

  /** `saveTweets(tweets)`: writes the list and stamps `lastSync`. */
  function SaveTweets(a: LocalArea, tweets: seq<Tweet>, nowIso: string): (r: LocalArea)
    ensures r.tweets == Some(tweets) && r.lastSync == Some(nowIso)
    ensures r.isFirstRun == a.isFirstRun
  {
    a.(tweets := Some(tweets), lastSync := Some(nowIso))
  }

  /** `getTweets()`: a missing list reads as `[]`, a missing or empty
      `lastSync` as `null`, and a failed read as both. */
  function GetTweets(read: Option<LocalArea>): (r: TweetsView)
    ensures read.None? || read.value.tweets.None? ==> r.tweets == []
    ensures read.None? || read.value.lastSync.None? ==> r.lastSync == None
    ensures read.Some? && read.value.tweets.Some? ==> r.tweets == read.value.tweets.value
    ensures read.Some? && read.value.lastSync.Some? && read.value.lastSync.value != "" ==>
      r.lastSync == read.value.lastSync
    ensures r.lastSync.Some? ==> r.lastSync.value != ""
  {
    match read
    case None => TweetsView([], None)
    case Some(a) =>
      TweetsView(
        if a.tweets.Some? then a.tweets.value else [],
        if a.lastSync.Some? && a.lastSync.value != "" then a.lastSync else None)
  }

  /** What was saved is what is read back. */
  lemma GetAfterSave(a: LocalArea, tweets: seq<Tweet>, nowIso: string)
    requires nowIso != ""
    ensures GetTweets(Some(SaveTweets(a, tweets, nowIso))) == TweetsView(tweets, Some(nowIso))
  {
  }

  // --------------------------------------------------------------- addTweets

  /** The ids of a list of tweets. */
  function IdsOf(ts: seq<Tweet>): (r: set<string>)
    ensures forall t :: t in ts ==> t.id in r
    ensures forall id :: id in r ==> exists k :: 0 <= k < |ts| && ts[k].id == id
  {
    if |ts| == 0 then {}
    else
      assert forall k :: 1 <= k < |ts| ==> ts[k] == ts[1..][k - 1];
      {ts[0].id} + IdsOf(ts[1..])
  }

  /** `newTweets.filter(t => !existingIds.has(t.id))`. */
  function DropKnown(ts: seq<Tweet>, ids: set<string>): (r: seq<Tweet>)
    ensures forall t :: t in r <==> t in ts && t.id !in ids
    ensures Helpers.SubSeq(r, ts)
  {
    if |ts| == 0 then []
    else if ts[0].id in ids then DropKnown(ts[1..], ids)
    else
      var rest := DropKnown(ts[1..], ids);
      assert ([ts[0]] + rest)[1..] == rest;
      [ts[0]] + rest
  }

  /** Newest first. */
  predicate NewestFirst(ts: seq<Tweet>) {
    forall i, j :: 0 <= i < j < |ts| ==> ts[i].createdAt >= ts[j].createdAt
  }

  /** Places `t` before the first tweet not newer than it. */
  function InsertByDate(t: Tweet, ts: seq<Tweet>): (r: seq<Tweet>)
    requires NewestFirst(ts)
    ensures NewestFirst(r) && multiset(r) == multiset(ts) + multiset{t}
    ensures |r| == |ts| + 1
  {
    if |ts| == 0 || ts[0].createdAt <= t.createdAt then [t] + ts
    else
      NewestFirstTail(ts);
      var rest := InsertByDate(t, ts[1..]);
      HeadKeepsMultiset(ts, t, rest);
      NotNewerThanHead(ts, t, rest);
      [ts[0]] + rest
  }

  lemma NewestFirstTail(ts: seq<Tweet>)
    requires |ts| > 0 && NewestFirst(ts)
    ensures NewestFirst(ts[1..])
  {
    forall i, j | 0 <= i < j < |ts| - 1 ensures ts[1..][i].createdAt >= ts[1..][j].createdAt {
      assert ts[1..][i] == ts[i + 1] && ts[1..][j] == ts[j + 1];
    }
  }

  lemma HeadKeepsMultiset(ts: seq<Tweet>, t: Tweet, rest: seq<Tweet>)
    requires |ts| > 0 && multiset(rest) == multiset(ts[1..]) + multiset{t}
    ensures multiset([ts[0]] + rest) == multiset(ts) + multiset{t}
  {
    assert ts == [ts[0]] + ts[1..];
  }

  /** What `InsertByDate` puts after the head of a sorted list is not
      newer than the head, so the head may stay in front. */
  lemma NotNewerThanHead(ts: seq<Tweet>, t: Tweet, rest: seq<Tweet>)
    requires |ts| > 0 && NewestFirst(ts) && t.createdAt < ts[0].createdAt
    requires NewestFirst(rest) && multiset(rest) == multiset(ts[1..]) + multiset{t}
    ensures NewestFirst([ts[0]] + rest)
  {
    var r := [ts[0]] + rest;
    forall j | 0 <= j < |rest| ensures rest[j].createdAt <= ts[0].createdAt {
      assert rest[j] in multiset(rest);
      if rest[j] != t {
        assert rest[j] in multiset(ts[1..]);
        var k :| 0 <= k < |ts[1..]| && ts[1..][k] == rest[j];
        assert ts[k + 1] == rest[j];
      }
    }
    forall i, j | 0 <= i < j < |r| ensures r[i].createdAt >= r[j].createdAt {
      assert r[j] == rest[j - 1];
      if i > 0 { assert r[i] == rest[i - 1]; }
    }
  }

  /** The `sort((a, b) => b.createdAt - a.createdAt)` of the merged list:
      newest first, and, since `Array.prototype.sort` is stable, tweets
      with the same date in their order before the sort. */
  function SortByNewest(ts: seq<Tweet>): (r: seq<Tweet>)
    ensures NewestFirst(r) && multiset(r) == multiset(ts) && |r| == |ts|
  {
    if |ts| == 0 then []
    else
      assert ts == [ts[0]] + ts[1..];
      InsertByDate(ts[0], SortByNewest(ts[1..]))
  }

  /** The tweets dated `c`, in order. */
  function WithDate(ts: seq<Tweet>, c: int): seq<Tweet> {
    if |ts| == 0 then []
    else (if ts[0].createdAt == c then [ts[0]] else []) + WithDate(ts[1..], c)
  }

  lemma WithDateCons(x: Tweet, ts: seq<Tweet>, c: int)
    ensures WithDate([x] + ts, c) == (if x.createdAt == c then [x] else []) + WithDate(ts, c)
  {
    assert ([x] + ts)[1..] == ts;
  }

  lemma {:induction false} InsertKeepsTies(t: Tweet, ts: seq<Tweet>, c: int)
    requires NewestFirst(ts)
    ensures WithDate(InsertByDate(t, ts), c)
            == (if t.createdAt == c then [t] else []) + WithDate(ts, c)
  {
    if |ts| == 0 || ts[0].createdAt <= t.createdAt {
      WithDateCons(t, ts, c);
    } else {
      var rest := InsertByDate(t, ts[1..]);
      InsertKeepsTies(t, ts[1..], c);
      WithDateCons(ts[0], rest, c);
      WithDateCons(ts[0], ts[1..], c);
      assert [ts[0]] + ts[1..] == ts;
    }
  }

  /** The sort is stable: for every date, the tweets with that date keep
      their order. */
  lemma {:induction false} SortIsStable(ts: seq<Tweet>, c: int)
    ensures WithDate(SortByNewest(ts), c) == WithDate(ts, c)
  {
    if |ts| > 0 {
      SortIsStable(ts[1..], c);
      InsertKeepsTies(ts[0], SortByNewest(ts[1..]), c);
    }
  }

  /** What reading an area gives: the area, or nothing when the read
      fails. */
  function ReadOf<T>(area: T, readOk: bool): (r: Option<T>)
    ensures r.Some? <==> readOk
    ensures readOk ==> r.value == area
  {
    if readOk then Some(area) else None
  }

  /** The tweets `addTweets` sees as stored: `getTweets()` swallows a
      failed read and reports none. */
  function Existing(a: LocalArea, readOk: bool): seq<Tweet> {
    GetTweets(ReadOf(a, readOk)).tweets
  }

  /** The new tweets `addTweets` keeps: those whose id it sees stored are
      dropped. */
  function Fresh(a: LocalArea, readOk: bool, newTweets: seq<Tweet>): seq<Tweet> {
    DropKnown(newTweets, IdsOf(Existing(a, readOk)))
  }

  /** `addTweets(newTweets)`, where `readOk` says whether the read inside
      `getTweets()` succeeded: tweets whose id is seen stored are dropped;
      with nothing left the seen list is returned and nothing is written;
      otherwise the seen and the new tweets are merged, sorted newest
      first, saved over the stored list and returned. */
  function AddTweets(a: LocalArea, readOk: bool, newTweets: seq<Tweet>, nowIso: string)
    : (r: (seq<Tweet>, LocalArea))
    ensures Fresh(a, readOk, newTweets) == [] ==> r == (Existing(a, readOk), a)
    ensures Fresh(a, readOk, newTweets) != [] ==> r.1 == SaveTweets(a, r.0, nowIso) && NewestFirst(r.0)
    ensures multiset(r.0) == multiset(Existing(a, readOk)) + multiset(Fresh(a, readOk, newTweets))
    ensures |r.0| == |Existing(a, readOk)| + |Fresh(a, readOk, newTweets)|
  {
    var existing := Existing(a, readOk);
    var added := Fresh(a, readOk, newTweets);
    if |added| == 0 then (existing, a)
    else
      var all := SortByNewest(existing + added);
      (all, SaveTweets(a, all, nowIso))
  }

  /** Adding the same batch again changes nothing: all its ids are stored
      by then. */
  lemma AddTweetsTwice(a: LocalArea, newTweets: seq<Tweet>, nowIso: string, laterIso: string)
    ensures var r := AddTweets(a, true, newTweets, nowIso);
            AddTweets(r.1, true, newTweets, laterIso) == r
  {
    var r := AddTweets(a, true, newTweets, nowIso);
    assert Existing(r.1, true) == r.0;
    var existing := Existing(a, true);
    forall t | t in newTweets ensures t.id in IdsOf(r.0) {
      if t.id !in IdsOf(existing) {
        assert t in Fresh(a, true, newTweets);
        assert t in multiset(r.0);
      } else {
        var k :| 0 <= k < |existing| && existing[k].id == t.id;
        assert existing[k] in multiset(r.0);
      }
    }
    DropAllKnown(newTweets, IdsOf(r.0));
  }

  lemma DropAllKnown(ts: seq<Tweet>, ids: set<string>)
    requires forall t :: t in ts ==> t.id in ids
    ensures DropKnown(ts, ids) == []
  {
    var r := DropKnown(ts, ids);
    assert forall k :: 0 <= k < |r| ==> r[k] in r;
  }

  /** Only ids already stored are filtered out: two new tweets sharing an
      id are both added. */
  lemma BatchDuplicatesKept(a: LocalArea, t: Tweet, u: Tweet, nowIso: string)
    requires a.tweets.None? && t.id == u.id
    ensures AddTweets(a, true, [t, u], nowIso).0 == SortByNewest([t, u])
    ensures |AddTweets(a, true, [t, u], nowIso).0| == 2
  {
    assert Existing(a, true) == [];
    assert IdsOf([]) == {};
    assert DropKnown([u], {}) == [u];
    assert Fresh(a, true, [t, u]) == [t, u];
    assert [] + [t, u] == [t, u];
  }

  lemma {:induction false} DropNothing(ts: seq<Tweet>)
    ensures DropKnown(ts, {}) == ts
  {
    if |ts| > 0 {
      DropNothing(ts[1..]);
    }
  }

  /** When the read fails, `addTweets` sees no stored tweets: a non-empty
      batch, sorted, is saved over the stored list, which is lost. */
  lemma AddTweetsAfterFailedRead(a: LocalArea, newTweets: seq<Tweet>, nowIso: string)
    ensures AddTweets(a, false, newTweets, nowIso)
            == if newTweets == [] then ([], a)
               else (SortByNewest(newTweets), SaveTweets(a, SortByNewest(newTweets), nowIso))
  {
    assert Existing(a, false) == [];
    assert IdsOf([]) == {};
    DropNothing(newTweets);
    assert [] + newTweets == newTweets;
  }

  // ------------------------------------------------------------ settings

  /** `getDefaultSettings()`. */
  const DefaultSettings: map<string, JsValue> := map[
    "theme" := Str("light"),
    "autoSync" := Bool(true),
    "displayCount" := Num(50),
    "syncInterval" := Num(30),
    "enableNotifications" := Bool(true),
    "language" := Str("zh-CN")
  ]

  /** `getSettings()`: the stored object, or the defaults when there is
      none or the read fails. */
  function GetSettings(read: Option<SyncArea>): (r: map<string, JsValue>)
    ensures read.None? || read.value.settings.None? ==> r == DefaultSettings
    ensures read.Some? && read.value.settings.Some? ==> r == read.value.settings.value
  {
    if read.Some? && read.value.settings.Some? then read.value.settings.value else DefaultSettings
  }

  /** `updateSettings(newSettings)`, where `readOk` says whether the read
      inside `getSettings()` succeeded: `{ ...current, ...newSettings }`,
      saved over the stored settings and returned. */
  function UpdateSettings(s: SyncArea, readOk: bool, newSettings: map<string, JsValue>)
    : (r: (map<string, JsValue>, SyncArea))
    ensures r.1 == SyncArea(Some(r.0))
    ensures var current := GetSettings(ReadOf(s, readOk));
            && r.0.Keys == current.Keys + newSettings.Keys
            && (forall k :: k in newSettings ==> r.0[k] == newSettings[k])
            && (forall k :: k in current && k !in newSettings ==> r.0[k] == current[k])
  {
    var merged := GetSettings(ReadOf(s, readOk)) + newSettings;
    (merged, SyncArea(Some(merged)))
  }

  /** The merged settings are what a later read returns; merging nothing
      keeps the current settings; merging the same values twice is
      merging them once. */
  lemma UpdateSettingsLaws(s: SyncArea, newSettings: map<string, JsValue>)
    ensures GetSettings(Some(UpdateSettings(s, true, newSettings).1)) == UpdateSettings(s, true, newSettings).0
    ensures UpdateSettings(s, true, map[]).0 == GetSettings(Some(s))
    ensures UpdateSettings(UpdateSettings(s, true, newSettings).1, true, newSettings)
            == UpdateSettings(s, true, newSettings)
  {
    var cur := GetSettings(Some(s));
    assert UpdateSettings(s, true, map[]).0 == cur by {
      var m := UpdateSettings(s, true, map[]).0;
      assert m.Keys == cur.Keys;
    }
    var once := UpdateSettings(s, true, newSettings).0;
    var twice := UpdateSettings(UpdateSettings(s, true, newSettings).1, true, newSettings).0;
    assert twice.Keys == once.Keys;
    assert twice == once;
  }

  /** When the read fails, the stored settings are replaced by the
      defaults with the new values on top, whatever was stored. */
  lemma UpdateSettingsAfterFailedRead(s: SyncArea, t: SyncArea, newSettings: map<string, JsValue>)
    ensures UpdateSettings(s, false, newSettings) == UpdateSettings(t, false, newSettings)
    ensures UpdateSettings(s, false, newSettings).1 == SyncArea(Some(DefaultSettings + newSettings))
  {
  }

  // --------------------------------------------------------- cleanupOldData

  /** The default `maxAgeInDays`. */
  const DefaultMaxAgeDays := 180

  const MsPerDay := 86400000

  /** The cutoff `maxAgeInDays` days before `now`. */
  function Cutoff(now: int, maxAgeInDays: int): int {
    now - maxAgeInDays * MsPerDay
  }

  /** `tweets.filter(t => new Date(t.createdAt) >= cutoffDate)`. */
  function KeepSince(ts: seq<Tweet>, cutoff: int): (r: seq<Tweet>)
    ensures forall t :: t in r <==> t in ts && t.createdAt >= cutoff
    ensures Helpers.SubSeq(r, ts) && |r| <= |ts|
    ensures |r| == |ts| <==> forall k :: 0 <= k < |ts| ==> ts[k].createdAt >= cutoff
  {
    if |ts| == 0 then []
    else
      var rest := KeepSince(ts[1..], cutoff);
      assert forall k :: 1 <= k < |ts| ==> ts[k] == ts[1..][k - 1];
      if ts[0].createdAt >= cutoff then
        assert ([ts[0]] + rest)[1..] == rest;
        [ts[0]] + rest
      else rest
  }

  /** `cleanupOldData(maxAgeInDays)`, where `readOk` says whether the
      read inside `getTweets()` succeeded: returns how many of the tweets
      it sees are older than the cutoff, and writes the rest back only
      when that number is positive. */
  function CleanupOldData(a: LocalArea, readOk: bool, now: int, maxAgeInDays: int, nowIso: string)
    : (r: (nat, LocalArea))
    ensures var ts := Existing(a, readOk);
            var kept := KeepSince(ts, Cutoff(now, maxAgeInDays));
            && r.0 == |ts| - |kept|
            && (r.0 == 0 <==> forall k :: 0 <= k < |ts| ==> ts[k].createdAt >= Cutoff(now, maxAgeInDays))
            && (r.0 == 0 ==> r.1 == a)
            && (r.0 > 0 ==> r.1 == SaveTweets(a, kept, nowIso))
  {
    var ts := Existing(a, readOk);
    if |ts| == 0 then (0, a)
    else
      var kept := KeepSince(ts, Cutoff(now, maxAgeInDays));
      var removed := |ts| - |kept|;
      if removed > 0 then (removed, SaveTweets(a, kept, nowIso)) else (0, a)
  }

  /** A second cleanup at the same moment finds nothing to remove. */
  lemma CleanupTwice(a: LocalArea, now: int, maxAgeInDays: int, nowIso: string, laterIso: string)
    ensures var r := CleanupOldData(a, true, now, maxAgeInDays, nowIso);
            CleanupOldData(r.1, true, now, maxAgeInDays, laterIso) == (0, r.1)
  {
    var r := CleanupOldData(a, true, now, maxAgeInDays, nowIso);
    var ts := Existing(r.1, true);
    var cutoff := Cutoff(now, maxAgeInDays);
    forall k | 0 <= k < |ts| ensures ts[k].createdAt >= cutoff {
      if r.0 > 0 {
        assert ts[k] in KeepSince(Existing(a, true), cutoff);
      }
    }
  }

  /** When the read fails, the cleanup sees no tweets: it removes nothing
      and writes nothing. */
  lemma CleanupAfterFailedRead(a: LocalArea, now: int, maxAgeInDays: int, nowIso: string)
    ensures CleanupOldData(a, false, now, maxAgeInDays, nowIso) == (0, a)
  {
  }

  // ------------------------------------------------------ initializeStorage

  /** `initializeStorage()`: unless `isFirstRun` is exactly `false`, resets
      the tweets and `lastSync`, clears the flag and saves the default
      settings, reporting `true`. */
  function InitializeStorage(a: LocalArea, s: SyncArea): (r: (bool, LocalArea, SyncArea))
    ensures r.0 <==> a.isFirstRun != Bool(false)
    ensures !r.0 ==> r.1 == a && r.2 == s
    ensures r.0 ==> r.1.isFirstRun == Bool(false) && GetTweets(Some(r.1)) == TweetsView([], None)
                    && GetSettings(Some(r.2)) == DefaultSettings
  {
    if a.isFirstRun != Bool(false) then
      (true, LocalArea(Some([]), None, Bool(false)), SyncArea(Some(DefaultSettings)))
    else (false, a, s)
  }

  /** Initialising a second time finds the flag cleared and does nothing. */
  lemma InitializeOnce(a: LocalArea, s: SyncArea)
    ensures var r := InitializeStorage(a, s);
            InitializeStorage(r.1, r.2) == (false, r.1, r.2)
  {
  }

  // ---------------------------------------------------- exportData / importData

  datatype StorageError = InvalidImportFormat

  /** The writes `importData` performs: `tweets` when it is an array, and
      `userInfo` and `settings` when they are truthy. */
  datatype ImportWrites = ImportWrites(tweets: Option<JsValue>, userInfo: Option<JsValue>, settings: Option<JsValue>)

  /** The value written when `v` is truthy. */
  function WhenTruthy(v: JsValue): (r: Option<JsValue>)
    ensures r.Some? <==> Truthy(v)
    ensures r.Some? ==> r.value == v
  {
    if Truthy(v) then Some(v) else None
  }

  /** `importData(data)`: refuses data without a truthy `version`, then
      writes what is present. */
  function ImportData(data: JsValue): (r: Result<ImportWrites, StorageError>)
    ensures r.Ok? <==> Truthy(Get(data, "version"))
    ensures r.Err? ==> r.error == InvalidImportFormat
    ensures r.Ok? ==> (r.value.tweets.Some? <==> Get(data, "tweets").Arr?)
    ensures r.Ok? && r.value.tweets.Some? ==> r.value.tweets.value == Get(data, "tweets")
    ensures r.Ok? ==> r.value.userInfo == WhenTruthy(Get(data, "userInfo"))
                      && r.value.settings == WhenTruthy(Get(data, "settings"))
  {
    if !Truthy(data) || !Truthy(Get(data, "version")) then Err(InvalidImportFormat)
    else
      var tweets := Get(data, "tweets");
      Ok(ImportWrites(
        if Truthy(tweets) && tweets.Arr? then Some(tweets) else None,
        WhenTruthy(Get(data, "userInfo")),
        WhenTruthy(Get(data, "settings"))))
  }

  /** The stored tweets as the exported array. */
  function EncodeAll(ts: seq<Tweet>): (r: seq<JsValue>)
    ensures |r| == |ts| && forall k :: 0 <= k < |ts| ==> r[k] == EncodeTweet(ts[k])
  {
    seq(|ts|, k requires 0 <= k < |ts| => EncodeTweet(ts[k]))
  }

  /** `exportData()` for the values the three reads returned and the
      clock's ISO reading. */
  function ExportData(tweets: TweetsView, userInfo: JsValue, settings: map<string, JsValue>, exportDate: string)
    : JsValue
  {
    Obj(map[
      "version" := Str("1.0.0"),
      "exportDate" := Str(exportDate),
      "tweets" := Arr(EncodeAll(tweets.tweets)),
      "userInfo" := userInfo,
      "settings" := Obj(settings)])
  }

  /** Importing an export is accepted and writes back its tweets and its
      settings, and its user info when there is one. */
  lemma ImportOfExport(tweets: TweetsView, userInfo: JsValue, settings: map<string, JsValue>, exportDate: string)
    ensures ImportData(ExportData(tweets, userInfo, settings, exportDate))
            == Ok(ImportWrites(Some(Arr(EncodeAll(tweets.tweets))), WhenTruthy(userInfo), Some(Obj(settings))))
  {
    var d := ExportData(tweets, userInfo, settings, exportDate);
    assert Get(d, "version") == Str("1.0.0");
    assert Get(d, "tweets") == Arr(EncodeAll(tweets.tweets));
    assert Get(d, "userInfo") == userInfo;
    assert Get(d, "settings") == Obj(settings);
  }

  /** Every stored tweet, as exported, passes `validateTweetData`. */
  lemma EncodedTweetsValidate(ts: seq<Tweet>)
    ensures forall k :: 0 <= k < |ts| ==> Helpers.ValidateTweetData(EncodeAll(ts)[k])
  {
    forall k | 0 <= k < |ts| ensures Helpers.ValidateTweetData(EncodeAll(ts)[k]) {
      var v := EncodeAll(ts)[k];
      assert v.fields["id"] != Null && v.fields["text"] != Null && v.fields["createdAt"] != Null;
      assert forall f :: f in Helpers.RequiredTweetFields ==> f in v.fields && v.fields[f] != Null;
    }
  }
}

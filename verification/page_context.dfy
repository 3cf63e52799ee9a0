/** The page context of the sidebar search: which user's page the browser
    shows (`detectCurrentUser`), whether that user may scope a search
    (`isValidUserContext`) and how the sidebar search box composes its
    query (`performSearch`).  The location is passed in as its path; the
    profile enrichment from the DOM and the navigation to the search URL
    are not modelled. */
module PageContext {
  import opened Results
  import opened JsStrings

  /** First path segments that name a site section, not a user. */
  const SystemPaths: seq<string> := [
    "home", "search", "explore", "notifications", "messages",
    "bookmarks", "lists", "profile", "settings", "help",
    "i", "compose", "login", "signup", "tos", "privacy",
    "about", "download", "jobs", "ads", "business"
  ]

  /** Second segments that still show the user's own timeline. */
  const ProfileTabs: seq<string> := ["with_replies", "media", "likes"]

  /** Second segments listed as user sub-pages. */
  const UserSubPages: seq<string> := ["followers", "following", "likes", "media", "with_replies"]

  /** The `currentUser` record the detection stores. */
  datatype PageUser = PageUser(
    username: string,
    isUserPage: bool,
    isOnUserProfilePage: bool,
    isOnTweetDetailPage: bool,
    isOnUserSubPage: bool,
    subPageType: Option<string>)

  function ProfileUser(u: string): PageUser {
    PageUser(u, true, true, false, false, None)
  }

  function TweetDetailUser(u: string): PageUser {
    PageUser(u, false, false, true, false, None)
  }

  function SubPageUser(u: string, tab: string): PageUser {
    PageUser(u, true, false, false, true, Some(tab))
  }

  /** The first segment names a user: present, not `i/…` and not a
      system section in any letter case. */
  predicate NamesUser(parts: seq<string>) {
    |parts| >= 2 && parts[1] != "" && !StartsWith(parts[1], "i/")
    && ToLower(parts[1]) !in SystemPaths
  }

  /** The second segment, `""` when the path has none. */
  function Tab(parts: seq<string>): string {
    if |parts| >= 3 then parts[2] else ""
  }

  /** The classification of the path segments `pathname.split('/')`. */
  function ClassifyPath(parts: seq<string>): (r: Option<PageUser>)
    ensures !NamesUser(parts) ==> r == None
    ensures NamesUser(parts) && (Tab(parts) == "" || Tab(parts) in ProfileTabs) ==>
      r == Some(ProfileUser(parts[1]))
    ensures NamesUser(parts) && Tab(parts) == "status" ==> r == Some(TweetDetailUser(parts[1]))
    ensures NamesUser(parts) && Tab(parts) in ["followers", "following"] ==>
      r == Some(SubPageUser(parts[1], Tab(parts)))
    ensures NamesUser(parts) && Tab(parts) !in ["", "status", "followers", "following"] + ProfileTabs ==>
      r == None
  {
    if NamesUser(parts) then
      var username := parts[1];
      var tab := Tab(parts);
      if tab == "" || tab in ProfileTabs then Some(ProfileUser(username))
      else if tab == "status" then Some(TweetDetailUser(username))
      else if tab in UserSubPages then Some(SubPageUser(username, tab))
      else None
    else None
  }

  /** `detectCurrentUser()` for the location's path. */
  function DetectCurrentUser(pathname: string): Option<PageUser> {
    ClassifyPath(Split(pathname, '/'))
  }

  /** `isValidUserContext()`. */
  predicate IsValidUserContext(user: Option<PageUser>) {
    && user.Some?
    && |user.value.username| > 0
    && !StartsWith(user.value.username, "i/")
    && user.value.username != "home"
    && user.value.username != "search"
    && user.value.username != "explore"
  }

  /** The query `performSearch` sends for the search box's value: `None`
      when the trimmed value is empty (the search is abandoned), the value
      scoped to the page's user when the context is valid and the user is
      on a profile, tweet detail or sub-page, the value itself otherwise. */
  function SearchQuery(value: string, user: Option<PageUser>): (r: Option<string>)
    ensures Trim(value) == "" <==> r == None
    ensures r.Some? ==> StartsWith(r.value, Trim(value))
  {
    var query := Trim(value);
    if query == "" then None
    else if user.Some? && user.value.username != "" && IsValidUserContext(user)
            && (user.value.isOnUserProfilePage || user.value.isOnTweetDetailPage
                || user.value.isOnUserSubPage)
    then
      StartsWithConcat(query, " from:" + user.value.username);
      assert query + " from:" + user.value.username == query + (" from:" + user.value.username);
      Some(query + " from:" + user.value.username)
    else
      StartsWithConcat(query, "");
      assert query + "" == query;
      Some(query)
  }

  // ------------------------------------------------------------ properties

  /** No segment of a split path contains `/`, so the `i/` test on the
      first segment never fires. */
  lemma SegmentsNeverStartWithISlash(pathname: string)
    ensures var parts := Split(pathname, '/');
            forall k :: 0 <= k < |parts| ==> !StartsWith(parts[k], "i/")
  {
    var parts := Split(pathname, '/');
    forall k | 0 <= k < |parts| ensures !StartsWith(parts[k], "i/") {
      assert '/' !in parts[k];
      if |parts[k]| >= 2 {
        assert parts[k][1] in parts[k];
      }
    }
  }

  /** The system sections are spelled in lower case, so lowering one gives
      it back: a section typed exactly as listed is refused. */
  lemma SystemNamesRefused(u: string)
    requires u in SystemPaths
    ensures ToLower(u) in SystemPaths
  {
    forall k | 0 <= k < |u| ensures LowerChar(u[k]) == u[k] {
      SystemPathsAreLower(u, k);
    }
    assert ToLower(u) == u;
  }

  lemma SystemPathsAreLower(u: string, k: nat)
    requires u in SystemPaths && k < |u|
    ensures !('A' <= u[k] <= 'Z')
  {
    var i :| 0 <= i < |SystemPaths| && SystemPaths[i] == u;
    assert forall j :: 0 <= j < |SystemPaths| ==> forall m :: 0 <= m < |SystemPaths[j]| ==> 'a' <= SystemPaths[j][m] <= 'z';
  }

  /** Every user the detection finds is a valid search context. */
  lemma DetectedUserIsValid(pathname: string)
    requires DetectCurrentUser(pathname).Some?
    ensures IsValidUserContext(DetectCurrentUser(pathname))
  {
    var parts := Split(pathname, '/');
    var u := parts[1];
    assert NamesUser(parts);
    assert ToLower(u) !in SystemPaths;
    if u == "home" || u == "search" || u == "explore" {
      assert u in SystemPaths;
      SystemNamesRefused(u);
      assert false;
    }
  }

  /** Every user the detection finds carries one of the three page flags. */
  lemma DetectedUserIsOnUserPage(pathname: string)
    requires DetectCurrentUser(pathname).Some?
    ensures var u := DetectCurrentUser(pathname).value;
            u.isOnUserProfilePage || u.isOnTweetDetailPage || u.isOnUserSubPage
  {
  }

  /** On a detected user's page, a non-empty search is always scoped to
      that user: the unscoped branch for a detected user is unreachable. */
  lemma DetectedUserScopesSearch(pathname: string, value: string)
    requires DetectCurrentUser(pathname).Some? && Trim(value) != ""
    ensures SearchQuery(value, DetectCurrentUser(pathname))
            == Some(Trim(value) + " from:" + DetectCurrentUser(pathname).value.username)
  {
    DetectedUserIsValid(pathname);
    DetectedUserIsOnUserPage(pathname);
  }

  /** Without a user the query is the trimmed value. */
  lemma NoUserKeepsQuery(value: string)
    requires Trim(value) != ""
    ensures SearchQuery(value, None) == Some(Trim(value))
  {
  }

  /** Of the listed sub-pages only `followers` and `following` are ever
      recorded: the other three are taken by the profile branch first. */
  lemma SubPagesAreFollowLists(parts: seq<string>)
    requires ClassifyPath(parts).Some? && ClassifyPath(parts).value.isOnUserSubPage
    ensures ClassifyPath(parts).value.subPageType == Some(Tab(parts))
    ensures Tab(parts) == "followers" || Tab(parts) == "following"
  {
    var tab := Tab(parts);
    assert tab != "" && tab !in ProfileTabs && tab != "status";
    assert tab != "likes" && tab != "media" && tab != "with_replies" by {
      assert ProfileTabs[0] == "with_replies" && ProfileTabs[1] == "media" && ProfileTabs[2] == "likes";
    }
    assert tab in UserSubPages;
  }

  /** A tweet's page `/<user>/status/<id>` names its author. */
  lemma TweetPagePath(u: string, id: string)
    requires u != "" && '/' !in u && '/' !in id && ToLower(u) !in SystemPaths
    ensures DetectCurrentUser("/" + u + "/status/" + id) == Some(TweetDetailUser(u))
  {
    var parts := ["", u, "status", id];
    TweetPathSplits(u, id);
    assert !StartsWith(u, "i/") by { SlashFreeNotISlash(u); }
    assert NamesUser(parts);
  }

  /** A profile page `/<user>` names its user. */
  lemma ProfilePath(u: string)
    requires u != "" && '/' !in u && ToLower(u) !in SystemPaths
    ensures DetectCurrentUser("/" + u) == Some(ProfileUser(u))
  {
    var parts := ["", u];
    assert Split("/" + u, '/') == parts by {
      SplitJoin(parts, '/');
      assert Join(parts, "/") == "/" + u;
    }
    assert !StartsWith(u, "i/") by { SlashFreeNotISlash(u); }
    assert NamesUser(parts);
  }

  /** A section page `/<section>`, in any letter case, has no page user. */
  lemma SectionPath(u: string)
    requires '/' !in u && ToLower(u) in SystemPaths
    ensures DetectCurrentUser("/" + u) == None
  {
    var parts := ["", u];
    assert Split("/" + u, '/') == parts by {
      SplitJoin(parts, '/');
      assert Join(parts, "/") == "/" + u;
    }
  }

  /** The segments of `/<user>/status/<id>`. */
  lemma TweetPathSplits(u: string, id: string)
    requires '/' !in u && '/' !in id
    ensures Split("/" + u + "/status/" + id, '/') == ["", u, "status", id]
  {
    var t3 := "status" + "/" + id;
    var t2 := u + "/" + t3;
    var t1 := "" + "/" + t2;
    TweetPathShape(u, id);
    assert Split(t3, '/') == ["status", id] by {
      SplitAtSeparator("status", '/', id);
      SplitWithoutSeparator(id, '/');
    }
    assert Split(t2, '/') == [u, "status", id] by {
      SplitAtSeparator(u, '/', t3);
    }
    SplitAtSeparator("", '/', t2);
  }

  lemma TweetPathShape(u: string, id: string)
    ensures "/" + u + "/status/" + id == "" + "/" + (u + "/" + ("status" + "/" + id))
  {
    var sl: string := "/";
    assert "/status/" == sl + "status" + sl;
    assert "/" + u + "/status/" + id == sl + (u + (sl + ("status" + (sl + id))));
  }

  lemma SlashFreeNotISlash(u: string)
    requires '/' !in u
    ensures !StartsWith(u, "i/")
  {
    if |u| >= 2 {
      assert u[1] in u;
    }
  }
}

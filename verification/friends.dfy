/** The sidebar's friends list: adding, deleting, editing and reordering
    friends, and the built-in default list.  Ids are the caller's clock
    reading (`Date.now()` in the extension) passed in as `now`; saving the
    list to storage and rendering it are not modelled. */
module Friends {
  import opened Results
  import opened JsStrings

  datatype Friend = Friend(id: int, name: string, username: string)

  /** The errors the list operations throw. */
  datatype FriendError =
    | MissingField    // a name or username is empty
    | UsernameExists  // adding a username already in the list
    | UsernameTaken   // renaming to a username another friend has
    | NotFound        // no friend with that id

  /** Usernames are compared with `toLowerCase()` on both sides. */
  predicate SameUsername(a: string, b: string) {
    ToLower(a) == ToLower(b)
  }

  /** The username as stored: trimmed, then its first `@` removed. */
  function CleanUsername(username: string): (r: string)
    ensures '@' !in Trim(username) ==> r == Trim(username)
    ensures '@' in Trim(username) ==> |r| == |Trim(username)| - 1
  {
    ReplaceFirst(Trim(username), '@', "")
  }

  /** No two friends share a username, ignoring letter case. */
  predicate UniqueUsernames(fs: seq<Friend>) {
    forall i, j :: 0 <= i < j < |fs| ==> !SameUsername(fs[i].username, fs[j].username)
  }

  /** No two friends share an id. */
  predicate UniqueIds(fs: seq<Friend>) {
    forall i, j :: 0 <= i < j < |fs| ==> fs[i].id != fs[j].id
  }

  predicate HasId(fs: seq<Friend>, id: int) {
    exists k :: 0 <= k < |fs| && fs[k].id == id
  }

  /** `friends.some(f => f.username.toLowerCase() === username.toLowerCase())`. */
  predicate UsernameInUse(fs: seq<Friend>, username: string) {
    exists k :: 0 <= k < |fs| && SameUsername(fs[k].username, username)
  }

  /** The same test restricted to the friends whose id is not `id`. */
  predicate UsernameUsedByOther(fs: seq<Friend>, id: int, username: string) {
    exists k :: 0 <= k < |fs| && fs[k].id != id && SameUsername(fs[k].username, username)
  }

  /** `friends.findIndex(f => f.id === id)`. */
  function IndexOfId(fs: seq<Friend>, id: int): (r: Option<nat>)
    ensures r.None? <==> !HasId(fs, id)
    ensures r.Some? ==> r.value < |fs| && fs[r.value].id == id
                        && forall k :: 0 <= k < r.value ==> fs[k].id != id
  {
    if |fs| == 0 then None
    else if fs[0].id == id then Some(0)
    else match IndexOfId(fs[1..], id)
      case None =>
        assert forall k :: 1 <= k < |fs| ==> fs[k] == fs[1..][k - 1];
        None
      case Some(k) => Some(k + 1)
  }

  /** `addFriend(name, username)`: both fields must be non-empty and the
      username, as typed, must not match an existing one; the new friend
      is appended with its name trimmed and its username cleaned. */
  function AddFriend(fs: seq<Friend>, name: string, username: string, now: int)
    : (r: Result<seq<Friend>, FriendError>)
    ensures name == "" || username == "" ==> r == Err(MissingField)
    ensures name != "" && username != "" && UsernameInUse(fs, username) ==> r == Err(UsernameExists)
    ensures r.Ok? <==> name != "" && username != "" && !UsernameInUse(fs, username)
    ensures r.Ok? ==> |r.value| == |fs| + 1 && r.value[..|fs|] == fs
                      && r.value[|fs|] == Friend(now, Trim(name), CleanUsername(username))
  {
    if name == "" || username == "" then Err(MissingField)
    else if UsernameInUse(fs, username) then Err(UsernameExists)
    else
      var r := fs + [Friend(now, Trim(name), CleanUsername(username))];
      assert r[..|fs|] == fs;
      Ok(r)
  }

  /** `deleteFriend(id)`: removes the first friend with that id and
      returns it. */
  function DeleteFriend(fs: seq<Friend>, id: int): (r: Result<(seq<Friend>, Friend), FriendError>)
    ensures r.Err? <==> !HasId(fs, id)
    ensures r.Err? ==> r.error == NotFound
    ensures r.Ok? ==> r.value.1.id == id && |r.value.0| == |fs| - 1
    ensures r.Ok? ==> multiset(r.value.0) + multiset{r.value.1} == multiset(fs)
    ensures r.Ok? ==> var i := IndexOfId(fs, id).value;
                      r.value.0[..i] == fs[..i] && r.value.0[i..] == fs[i + 1..]
  {
    match IndexOfId(fs, id)
      case None => Err(NotFound)
      case Some(i) =>
        assert fs == fs[..i] + [fs[i]] + fs[i + 1..];
        var rest := fs[..i] + fs[i + 1..];
        assert rest[..i] == fs[..i] && rest[i..] == fs[i + 1..];
        Ok((rest, fs[i]))
  }

  /** `updateFriend(id, name, username)`: the id must exist, both fields
      must be non-empty, and no friend with another id may have the
      username as typed; then the first friend with the id gets the
      trimmed name and the cleaned username. */
  function UpdateFriend(fs: seq<Friend>, id: int, name: string, username: string)
    : (r: Result<(seq<Friend>, Friend), FriendError>)
    ensures !HasId(fs, id) ==> r == Err(NotFound)
    ensures HasId(fs, id) && (name == "" || username == "") ==> r == Err(MissingField)
    ensures HasId(fs, id) && name != "" && username != "" && UsernameUsedByOther(fs, id, username) ==>
      r == Err(UsernameTaken)
    ensures r.Ok? <==>
      HasId(fs, id) && name != "" && username != "" && !UsernameUsedByOther(fs, id, username)
    ensures r.Ok? ==> r.value.1 == Friend(id, Trim(name), CleanUsername(username))
    ensures r.Ok? ==> |r.value.0| == |fs|
    ensures r.Ok? ==> var i := IndexOfId(fs, id).value;
                      r.value.0[i] == r.value.1
                      && forall k :: 0 <= k < |fs| && k != i ==> r.value.0[k] == fs[k]
  {
    match IndexOfId(fs, id)
      case None => Err(NotFound)
      case Some(i) =>
        if name == "" || username == "" then Err(MissingField)
        else if UsernameUsedByOther(fs, id, username) then Err(UsernameTaken)
        else
          var f := fs[i].(name := Trim(name), username := CleanUsername(username));
          Ok((fs[i := f], f))
  }

  /** The list with the entries at `i` and `j` exchanged. */
  function Swap(fs: seq<Friend>, i: nat, j: nat): (r: seq<Friend>)
    requires i < |fs| && j < |fs|
    ensures |r| == |fs| && r[i] == fs[j] && r[j] == fs[i]
    ensures forall k :: 0 <= k < |fs| && k != i && k != j ==> r[k] == fs[k]
    ensures multiset(r) == multiset(fs)
  {
    fs[i := fs[j]][j := fs[i]]
  }

  /** `moveFriend(id, direction)`: exchanges the friend with its upper or
      lower neighbour; an unknown id, another direction or a move past
      either end leaves the list as it is. */
  function MoveFriend(fs: seq<Friend>, id: int, direction: string): (r: seq<Friend>)
    ensures |r| == |fs| && multiset(r) == multiset(fs)
    ensures !HasId(fs, id) || (direction != "up" && direction != "down") ==> r == fs
    ensures direction == "up" && IndexOfId(fs, id) == Some(0) ==> r == fs
    ensures direction == "down" && IndexOfId(fs, id) == Some(|fs| - 1) ==> r == fs
  {
    match IndexOfId(fs, id)
      case None => fs
      case Some(i) =>
        if direction == "up" && i > 0 then Swap(fs, i, i - 1)
        else if direction == "down" && i < |fs| - 1 then Swap(fs, i, i + 1)
        else fs
  }

  /** Clock readings taken one after another never go back. */
  predicate NonDecreasing(clock: seq<int>) {
    forall i, j :: 0 <= i <= j < |clock| ==> clock[i] <= clock[j]
  }

  /** `getDefaultFriends()`: five preset accounts; the k-th (from 0) takes
      its id from its own `Date.now()` reading plus k + 1. */
  function DefaultFriends(clock: seq<int>): (r: seq<Friend>)
    requires |clock| == 5
    ensures |r| == 5
    ensures forall k :: 0 <= k < 5 ==> r[k].id == clock[k] + k + 1
  {
    [ Friend(clock[0] + 1, "橘子", "oran_ge"),
      Friend(clock[1] + 2, "小互", "imxiaohu"),
      Friend(clock[2] + 3, "福祥", "fuxiangPro"),
      Friend(clock[3] + 4, "七娘", "GlocalTerapy"),
      Friend(clock[4] + 5, "歸藏", "op7418") ]
  }

  // ------------------------------------------------------------ properties

  /** Deleting the friend just added gives back the list it was added to,
      when its id was new. */
  lemma DeleteUndoesAdd(fs: seq<Friend>, name: string, username: string, now: int)
    requires AddFriend(fs, name, username, now).Ok? && !HasId(fs, now)
    ensures DeleteFriend(AddFriend(fs, name, username, now).value, now)
            == Ok((fs, Friend(now, Trim(name), CleanUsername(username))))
  {
    var added := AddFriend(fs, name, username, now).value;
    var i := IndexOfId(added, now).value;
    assert forall k :: 0 <= k < |fs| ==> added[k] == fs[k] && fs[k].id != now;
    assert added[|fs|].id == now && i == |fs|;
    assert added == fs + [added[|fs|]];
    assert added[..|fs|] + added[|fs| + 1..] == fs;
  }

  /** A typed username that is already clean (trimmed, no `@`) keeps the
      usernames unique when the friend is added. */
  lemma AddKeepsUniqueForCleanInput(fs: seq<Friend>, name: string, username: string, now: int)
    requires UniqueUsernames(fs) && CleanUsername(username) == username
    requires AddFriend(fs, name, username, now).Ok?
    ensures UniqueUsernames(AddFriend(fs, name, username, now).value)
  {
    var r := AddFriend(fs, name, username, now).value;
    forall i, j | 0 <= i < j < |r| ensures !SameUsername(r[i].username, r[j].username) {
      if j == |fs| {
        assert r[i] == fs[i];
        assert !SameUsername(fs[i].username, username);
      } else {
        assert r[i] == fs[i] && r[j] == fs[j];
      }
    }
  }

  /** The duplicate test looks at the username as typed, before the `@`
      is stripped: `@u` is accepted next to `u`, and the list then holds
      the same username twice. */
  lemma AtPrefixSlipsPastDuplicateCheck(f: Friend, name: string, now: int)
    requires f.username != [] && '@' !in f.username && !IsJsSpace(f.username[|f.username| - 1])
    requires name != ""
    ensures AddFriend([f], name, "@" + f.username, now).Ok?
    ensures !UniqueUsernames(AddFriend([f], name, "@" + f.username, now).value)
  {
    var u := f.username;
    var typed := "@" + u;
    assert |ToLower(typed)| != |ToLower(u)|;
    assert !UsernameInUse([f], typed);
    assert CleanUsername(typed) == u by { StripsFirstAtOnly(u); }
    var r := AddFriend([f], name, typed, now).value;
    assert r[0].username == u && r[1].username == u;
  }

  /** Only the first `@` is removed: `@` followed by a username that itself
      starts with `@` keeps that one. */
  lemma StripsFirstAtOnly(u: string)
    requires u != [] && !IsJsSpace(u[|u| - 1])
    ensures CleanUsername("@" + u) == u
  {
    var s := "@" + u;
    assert s[|s| - 1] == u[|u| - 1];
    TrimOfUnpadded(s);
    assert s[1..] == u;
  }

  /** Deleting keeps the remaining friends' relative order, so unique
      usernames and ids stay unique. */
  lemma DeleteKeepsUnique(fs: seq<Friend>, id: int)
    requires DeleteFriend(fs, id).Ok?
    ensures UniqueUsernames(fs) ==> UniqueUsernames(DeleteFriend(fs, id).value.0)
    ensures UniqueIds(fs) ==> UniqueIds(DeleteFriend(fs, id).value.0)
  {
    var r := DeleteFriend(fs, id).value.0;
    var i := IndexOfId(fs, id).value;
    assert forall k :: 0 <= k < |r| ==> r[k] == fs[if k < i then k else k + 1] by {
      forall k | 0 <= k < |r| ensures r[k] == fs[if k < i then k else k + 1] {
        if k < i {
          assert r[k] == r[..i][k];
        } else {
          assert r[k] == r[i..][k - i];
        }
      }
    }
  }

  /** Once ids are unique, a successful update with a clean username keeps
      the usernames unique. */
  lemma UpdateKeepsUniqueForCleanInput(fs: seq<Friend>, id: int, name: string, username: string)
    requires UniqueUsernames(fs) && UniqueIds(fs) && CleanUsername(username) == username
    requires UpdateFriend(fs, id, name, username).Ok?
    ensures UniqueUsernames(UpdateFriend(fs, id, name, username).value.0)
  {
    var r := UpdateFriend(fs, id, name, username).value.0;
    var i := IndexOfId(fs, id).value;
    forall k | 0 <= k < |fs| && k != i ensures !SameUsername(fs[k].username, username) {
      if k < i { assert fs[k].id != fs[i].id; } else { assert fs[i].id != fs[k].id; }
    }
    forall a, b | 0 <= a < b < |r| ensures !SameUsername(r[a].username, r[b].username) {
      if a == i {
        assert !SameUsername(fs[b].username, username);
      } else if b == i {
        assert !SameUsername(fs[a].username, username);
      } else {
        assert r[a] == fs[a] && r[b] == fs[b];
      }
    }
  }

  /** Updating never changes which id sits where. */
  lemma UpdateKeepsIds(fs: seq<Friend>, id: int, name: string, username: string)
    requires UpdateFriend(fs, id, name, username).Ok?
    ensures var r := UpdateFriend(fs, id, name, username).value.0;
            forall k :: 0 <= k < |fs| ==> r[k].id == fs[k].id
  {
  }

  /** Saving a friend's own, already clean, values again changes nothing. */
  lemma UpdateWithOwnValues(fs: seq<Friend>, i: nat)
    requires i < |fs| && UniqueUsernames(fs) && UniqueIds(fs)
    requires fs[i].name != "" && Trim(fs[i].name) == fs[i].name
    requires fs[i].username != "" && CleanUsername(fs[i].username) == fs[i].username
    ensures UpdateFriend(fs, fs[i].id, fs[i].name, fs[i].username) == Ok((fs, fs[i]))
  {
    UniqueIdIndex(fs, i);
    OwnUsernameIsFree(fs, i);
    assert fs[i := fs[i]] == fs;
  }

  /** With unique ids, a friend is the first one with its id. */
  lemma UniqueIdIndex(fs: seq<Friend>, i: nat)
    requires i < |fs| && UniqueIds(fs)
    ensures IndexOfId(fs, fs[i].id) == Some(i)
  {
  }

  /** With unique usernames, no other friend has a friend's own username. */
  lemma OwnUsernameIsFree(fs: seq<Friend>, i: nat)
    requires i < |fs| && UniqueUsernames(fs) && UniqueIds(fs)
    ensures !UsernameUsedByOther(fs, fs[i].id, fs[i].username)
  {
    forall k | 0 <= k < |fs| && fs[k].id != fs[i].id ensures !SameUsername(fs[k].username, fs[i].username) {
      if k < i { assert !SameUsername(fs[k].username, fs[i].username); }
      else { assert !SameUsername(fs[i].username, fs[k].username); }
    }
  }

  /** Moving the friend at `i` up exchanges it with the one above. */
  lemma MoveUpSwaps(fs: seq<Friend>, id: int, i: nat)
    requires IndexOfId(fs, id) == Some(i) && i > 0
    ensures MoveFriend(fs, id, "up") == Swap(fs, i, i - 1)
  {
  }

  /** Moving the friend at `i` down exchanges it with the one below. */
  lemma MoveDownSwaps(fs: seq<Friend>, id: int, i: nat)
    requires IndexOfId(fs, id) == Some(i) && i < |fs| - 1
    ensures MoveFriend(fs, id, "down") == Swap(fs, i, i + 1)
  {
    assert "down" != "up";
  }

  lemma SwapTwice(fs: seq<Friend>, i: nat, j: nat)
    requires i < |fs| && j < |fs|
    ensures Swap(Swap(fs, i, j), j, i) == fs
  {
  }

  /** Moving a friend up and then down again restores the list. */
  lemma MoveUpThenDown(fs: seq<Friend>, id: int)
    requires IndexOfId(fs, id).Some? && IndexOfId(fs, id).value > 0
    ensures MoveFriend(MoveFriend(fs, id, "up"), id, "down") == fs
  {
    var i := IndexOfId(fs, id).value;
    MoveUpSwaps(fs, id, i);
    var up := Swap(fs, i, i - 1);
    assert IndexOfId(up, id) == Some(i - 1) by {
      assert forall k :: 0 <= k < i - 1 ==> up[k].id != id;
    }
    MoveDownSwaps(up, id, i - 1);
    SwapTwice(fs, i, i - 1);
  }

  /** Moving a friend down and then up again restores the list, when no
      other friend shares its id. */
  lemma MoveDownThenUp(fs: seq<Friend>, id: int)
    requires UniqueIds(fs)
    requires IndexOfId(fs, id).Some? && IndexOfId(fs, id).value < |fs| - 1
    ensures MoveFriend(MoveFriend(fs, id, "down"), id, "up") == fs
  {
    var i := IndexOfId(fs, id).value;
    MoveDownSwaps(fs, id, i);
    var down := Swap(fs, i, i + 1);
    FoundBelowAfterMoveDown(fs, id, i);
    MoveUpSwaps(down, id, i + 1);
    SwapTwice(fs, i, i + 1);
  }

  lemma FoundBelowAfterMoveDown(fs: seq<Friend>, id: int, i: nat)
    requires UniqueIds(fs) && IndexOfId(fs, id) == Some(i) && i < |fs| - 1
    ensures IndexOfId(Swap(fs, i, i + 1), id) == Some(i + 1)
  {
    var down := Swap(fs, i, i + 1);
    assert fs[i].id != fs[i + 1].id;
    assert forall k :: 0 <= k < i + 1 ==> down[k].id != id;
  }

  /** Moving the middle of three friends down, when the first has another
      id. */
  lemma MiddleMovesDown(a: Friend, b: Friend, c: Friend)
    requires a.id != b.id
    ensures MoveFriend([a, b, c], b.id, "down") == [a, c, b]
  {
    var fs := [a, b, c];
    assert IndexOfId(fs, b.id) == Some(1);
    MoveDownSwaps(fs, b.id, 1);
    assert Swap(fs, 1, 2) == [a, c, b];
  }

  /** Moving the middle of three friends up, when the first has another
      id. */
  lemma MiddleMovesUp(a: Friend, b: Friend, c: Friend)
    requires a.id != b.id
    ensures MoveFriend([a, b, c], b.id, "up") == [b, a, c]
  {
    var fs := [a, b, c];
    assert IndexOfId(fs, b.id) == Some(1);
    MoveUpSwaps(fs, b.id, 1);
    assert Swap(fs, 1, 0) == [b, a, c];
  }

  /** With two friends sharing an id, the first is found both times, so
      moving down and back up does not restore the list. */
  lemma MoveDownThenUpNeedsUniqueIds(a: Friend, b: Friend, c: Friend)
    requires a.id != b.id && b.id == c.id && b != c
    ensures MoveFriend(MoveFriend([a, b, c], b.id, "down"), b.id, "up") == [c, a, b]
  {
    MiddleMovesDown(a, b, c);
    MiddleMovesUp(a, c, b);
  }

  /** Reordering keeps the usernames and ids unique. */
  lemma MoveKeepsUnique(fs: seq<Friend>, id: int, direction: string)
    ensures UniqueUsernames(fs) ==> UniqueUsernames(MoveFriend(fs, id, direction))
    ensures UniqueIds(fs) ==> UniqueIds(MoveFriend(fs, id, direction))
  {
    match IndexOfId(fs, id)
      case None =>
      case Some(i) =>
        if direction == "up" && i > 0 {
          SwapKeepsUnique(fs, i, i - 1);
        } else if direction == "down" && i < |fs| - 1 {
          SwapKeepsUnique(fs, i, i + 1);
        }
  }

  /** Where entry `k` of the exchanged list comes from. */
  function SwapSource(k: nat, i: nat, j: nat): nat {
    if k == i then j else if k == j then i else k
  }

  /** Exchanging two entries keeps the usernames and ids unique. */
  lemma SwapKeepsUnique(fs: seq<Friend>, i: nat, j: nat)
    requires i < |fs| && j < |fs|
    ensures UniqueUsernames(fs) ==> UniqueUsernames(Swap(fs, i, j))
    ensures UniqueIds(fs) ==> UniqueIds(Swap(fs, i, j))
  {
    if UniqueUsernames(fs) { SwapKeepsUniqueUsernames(fs, i, j); }
    if UniqueIds(fs) { SwapKeepsUniqueIds(fs, i, j); }
  }

  lemma SwapKeepsUniqueUsernames(fs: seq<Friend>, i: nat, j: nat)
    requires i < |fs| && j < |fs| && UniqueUsernames(fs)
    ensures UniqueUsernames(Swap(fs, i, j))
  {
    var r := Swap(fs, i, j);
    forall a, b | 0 <= a < b < |r| ensures !SameUsername(r[a].username, r[b].username) {
      var pa, pb := SwapSource(a, i, j), SwapSource(b, i, j);
      assert r[a] == fs[pa] && r[b] == fs[pb] && pa != pb;
      if pa < pb { assert !SameUsername(fs[pa].username, fs[pb].username); }
      else { assert !SameUsername(fs[pb].username, fs[pa].username); }
    }
  }

  lemma SwapKeepsUniqueIds(fs: seq<Friend>, i: nat, j: nat)
    requires i < |fs| && j < |fs| && UniqueIds(fs)
    ensures UniqueIds(Swap(fs, i, j))
  {
    var r := Swap(fs, i, j);
    forall a, b | 0 <= a < b < |r| ensures r[a].id != r[b].id {
      var pa, pb := SwapSource(a, i, j), SwapSource(b, i, j);
      assert r[a] == fs[pa] && r[b] == fs[pb] && pa != pb;
      if pa < pb { assert fs[pa].id != fs[pb].id; }
      else { assert fs[pb].id != fs[pa].id; }
    }
  }

  /** Usernames of different lengths never clash. */
  lemma LengthsDiffer(a: string, b: string)
    requires |a| != |b|
    ensures !SameUsername(a, b)
  {
    assert |ToLower(a)| != |ToLower(b)|;
  }

  /** The default list has distinct ids as long as the clock does not go
      back between the five readings. */
  lemma DefaultFriendsHaveUniqueIds(clock: seq<int>)
    requires |clock| == 5 && NonDecreasing(clock)
    ensures UniqueIds(DefaultFriends(clock))
  {
    var r := DefaultFriends(clock);
    forall i, j | 0 <= i < j < 5 ensures r[i].id != r[j].id {
      assert clock[i] <= clock[j];
    }
  }

  /** A clock that steps back by one millisecond between the first two
      readings gives the first two default friends the same id. */
  lemma BackwardClockRepeatsId(t: int)
    ensures !UniqueIds(DefaultFriends([t + 1, t, t, t, t]))
  {
    var r := DefaultFriends([t + 1, t, t, t, t]);
    assert r[0].id == t + 2 == r[1].id;
  }

  /** The default usernames are distinct in any letter case: their
      lengths already differ. */
  lemma DefaultFriendsHaveUniqueUsernames(clock: seq<int>)
    requires |clock| == 5
    ensures UniqueUsernames(DefaultFriends(clock))
  {
    var r := DefaultFriends(clock);
    var lengths := [7, 8, 10, 12, 6];
    assert forall k :: 0 <= k < 5 ==> |r[k].username| == lengths[k];
    forall i, j | 0 <= i < j < 5 ensures !SameUsername(r[i].username, r[j].username) {
      LengthsDiffer(r[i].username, r[j].username);
    }
  }
}

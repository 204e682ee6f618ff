/**
 * service/UserService.java: accounts persisted one JSON file per account,
 * `user_<userId>.json`, in the directory repository/users.
 */
module UserStore {
  import opened Wrappers
  import opened Text
  import opened Entities

  /** The name an account's file gets: the pattern "user_%s.json". */
  function UserFileName(userId: string): string
  {
    "user_" + userId + ".json"
  }

  /** The listing filter of loadAllUsers: ends with ".json" and starts with "user_". */
  predicate IsUserFileName(name: string)
  {
    EndsWith(name, ".json") && StartsWith(name, "user_")
  }

  /** What a file in the directory holds: an account Hutool can read back, or anything else. */
  datatype StoredFile = UserJson(user: UserInfo) | Unreadable

  /** The directory: file name to content. A directory that does not exist is the empty map. */
  type Files = map<string, StoredFile>

  /**
   * What reading back a saved account yields. Hutool leaves null values out of the JSON,
   * and `new UserInfo()` starts with an empty cookie list, so a null cookie list returns as [].
   */
  function Persisted(u: UserInfo): (r: UserInfo)
    ensures r.cookies.Some?
    ensures r.cookies.value == (if u.cookies.Some? then u.cookies.value else [])
    ensures r.(cookies := u.cookies) == u
  {
    u.(cookies := Some(u.cookies.GetOr([])))
  }

  /** saveUserInfo fills a missing last-login time with the current time. */
  function Stamped(u: UserInfo, now: Timestamp): (r: UserInfo)
  {
    if u.lastLoginTime.None? then u.(lastLoginTime := Some(now)) else u
  }

  /** The directory after saveUserInfo(user): unchanged for a null account or a null id. */
  function Saved(files: Files, user: Option<UserInfo>, now: Timestamp): (r: Files)
    ensures user.None? || user.value.userId.None? ==> r == files
    ensures user.Some? && user.value.userId.Some? ==>
      r == files[UserFileName(user.value.userId.value) := UserJson(Persisted(Stamped(user.value, now)))]
  {
    if user.None? || user.value.userId.None? then files
    else files[UserFileName(user.value.userId.value) := UserJson(Persisted(Stamped(user.value, now)))]
  }

  /**
   * loadUserInfo(userId): null for a null or empty id and for a missing file.
   * A file that does not parse makes the source throw; here it reads as missing.
   */
  function Lookup(files: Files, userId: Option<string>): (r: Option<UserInfo>)
    ensures IsNullOrEmpty(userId) ==> r.None?
    ensures !IsNullOrEmpty(userId) && UserFileName(userId.value) !in files ==> r.None?
    ensures r.Some? <==>
      (!IsNullOrEmpty(userId) && UserFileName(userId.value) in files && files[UserFileName(userId.value)].UserJson?)
    ensures r.Some? ==> files[UserFileName(userId.value)] == UserJson(r.value)
  {
    if IsNullOrEmpty(userId) then None
    else
      var name := UserFileName(userId.value);
      if name in files && files[name].UserJson? then Some(files[name].user) else None
  }

  /** The names loadAllUsers considers. */
  function Listed(files: Files): set<string>
  {
    set n | n in files && IsUserFileName(n)
  }

  /** The accounts read from the files `names`, in that order, skipping those that fail to parse. */
  function ReadableUsers(files: Files, names: seq<string>): (r: seq<UserInfo>)
    requires forall i :: 0 <= i < |names| ==> names[i] in files
    ensures |r| <= |names|
  {
    if names == [] then []
    else
      var rest := ReadableUsers(files, names[..|names| - 1]);
      var last := files[names[|names| - 1]];
      if last.UserJson? then rest + [last.user] else rest
  }

  /** The file of every account that is readable is named after the account's own id. */
  ghost predicate WellFormed(files: Files)
  {
    forall n :: n in files && files[n].UserJson? ==>
      files[n].user.userId.Some? && n == UserFileName(files[n].user.userId.value)
  }

  /** The record markUserLoginExpired writes: inactive, cookies cleared, last-login time now. */
  function Expired(u: UserInfo, now: Timestamp): (r: UserInfo)
    ensures !r.active && r.cookies.None? && r.lastLoginTime == Some(now)
    ensures r.userId == u.userId && r.nickname == u.nickname && r.avatar == u.avatar
    ensures r.description == u.description && r.redId == u.redId
  {
    u.(active := false, cookies := None, lastLoginTime := Some(now))
  }

  /** The directory after markUserLoginExpired(userId): the reloaded account re-saved as expired, or unchanged. */
  function MarkedExpired(files: Files, userId: Option<string>, now: Timestamp): (r: Files)
    ensures Lookup(files, userId).None? ==> r == files
    ensures Lookup(files, userId).Some? ==> r == Saved(files, Some(Expired(Lookup(files, userId).value, now)), now)
  {
    var u := Lookup(files, userId);
    if u.None? then files else Saved(files, Some(Expired(u.value, now)), now)
  }

  /** The directory after markUserLoginExpired(user): unchanged for a null account or a null id, else by the account's id. */
  function MarkedRecordExpired(files: Files, user: Option<UserInfo>, now: Timestamp): Files
  {
    if user.None? || user.value.userId.None? then files else MarkedExpired(files, user.value.userId, now)
  }

  /** Two ids name the same file only if they are the same id. */
  lemma {:induction false} UserFileNameInjective(a: string, b: string)
    requires UserFileName(a) == UserFileName(b)
    ensures a == b
  {
    var fa, fb := UserFileName(a), UserFileName(b);
    assert |a| == |b|;
    assert a == fa[5..5 + |a|];
    assert b == fb[5..5 + |b|];
  }

  /** Every account file name passes the listing filter. */
  lemma UserFileNameIsListed(userId: string)
    ensures IsUserFileName(UserFileName(userId))
  {
    var n := UserFileName(userId);
    assert n[..5] == "user_";
    assert n[|n| - 5..] == ".json";
  }

  /** Loading by id after saving an account with that (non-empty) id yields the saved record as persisted. */
  lemma SaveThenLoad(files: Files, u: UserInfo, now: Timestamp)
    requires u.userId.Some? && u.userId.value != ""
    ensures Lookup(Saved(files, Some(u), now), u.userId) == Some(Persisted(Stamped(u, now)))
    ensures Persisted(Stamped(u, now)).lastLoginTime.Some?
  {
  }

  /** Saving one account leaves every other account as it was. */
  lemma SaveLeavesOthers(files: Files, u: UserInfo, now: Timestamp, other: string)
    requires u.userId.Some? && other != u.userId.value
    ensures Lookup(Saved(files, Some(u), now), Some(other)) == Lookup(files, Some(other))
  {
    if other != "" && UserFileName(other) == UserFileName(u.userId.value) {
      UserFileNameInjective(other, u.userId.value);
    }
  }

  /** Saving keeps every readable file named after its account. */
  lemma SavePreservesWellFormed(files: Files, user: Option<UserInfo>, now: Timestamp)
    requires WellFormed(files)
    ensures WellFormed(Saved(files, user, now))
  {
  }

  /** Deleting keeps every readable file named after its account. */
  lemma DeletePreservesWellFormed(files: Files, name: string)
    requires WellFormed(files)
    ensures WellFormed(files - {name})
  {
  }

  /** After deleting an account's file, loading it yields null, and every other account loads as before. */
  lemma DeleteThenLoad(files: Files, userId: string, other: string)
    requires userId != "" && other != userId
    ensures Lookup(files - {UserFileName(userId)}, Some(userId)).None?
    ensures Lookup(files - {UserFileName(userId)}, Some(other)) == Lookup(files, Some(other))
  {
    if other != "" && UserFileName(other) == UserFileName(userId) {
      UserFileNameInjective(other, userId);
    }
  }

  /** Under WellFormed, a loaded account carries the id it was looked up by. */
  lemma LookupCarriesId(files: Files, userId: string)
    requires WellFormed(files)
    requires Lookup(files, Some(userId)).Some?
    ensures Lookup(files, Some(userId)).value.userId == Some(userId)
  {
    var u := Lookup(files, Some(userId)).value;
    UserFileNameInjective(u.userId.value, userId);
  }

  /** An account in a listed readable file is among the accounts read, and nothing else is. */
  lemma {:induction false} ReadableUsersExactly(files: Files, names: seq<string>, u: UserInfo)
    requires forall i :: 0 <= i < |names| ==> names[i] in files
    ensures u in ReadableUsers(files, names) <==> exists i :: 0 <= i < |names| && files[names[i]] == UserJson(u)
  {
    if names != [] {
      var init := names[..|names| - 1];
      ReadableUsersExactly(files, init, u);
      var last := |names| - 1;
      if u in ReadableUsers(files, names) && u !in ReadableUsers(files, init) {
        assert files[names[last]] == UserJson(u);
      }
      if u !in ReadableUsers(files, names) {
        forall i | 0 <= i < |names|
          ensures files[names[i]] != UserJson(u)
        {
          if i < last {
            assert names[i] == init[i];
          }
        }
      }
      else if exists i :: 0 <= i < |init| && files[init[i]] == UserJson(u) {
        var i :| 0 <= i < |init| && files[init[i]] == UserJson(u);
        assert names[i] == init[i];
      }
    }
  }

  /** The accounts `users` are what loadAllUsers can return for `files`, in some listing order. */
  ghost predicate IsListing(files: Files, users: seq<UserInfo>)
  {
    exists names: seq<string> ::
      && (forall i :: 0 <= i < |names| ==> names[i] in Listed(files))
      && (forall n :: n in Listed(files) ==> n in names)
      && (forall i, j :: 0 <= i < j < |names| ==> names[i] != names[j])
      && users == ReadableUsers(files, names)
  }

  /** The account store. Its one piece of state is the directory's content. */
  class UserService {
    var files: Files

    constructor(initial: Files)
      ensures files == initial
    {
      files := initial;
    }

    /** saveUserInfo. */
    method SaveUserInfo(user: Option<UserInfo>, now: Timestamp)
      modifies this
      ensures files == Saved(old(files), user, now)
    {
      if user.None? || user.value.userId.None? {
        return;
      }
      var u := Stamped(user.value, now);
      files := files[UserFileName(u.userId.value) := UserJson(Persisted(u))];
    }

    /** loadUserInfo; getUserById is the same call with its IOException mapped to null. */
    function LoadUserInfo(userId: Option<string>): Option<UserInfo>
      reads this
    {
      Lookup(files, userId)
    }

    /**
     * loadAllUsers and getAllUsers: each listed file once, in the order the directory
     * listing gives (left unspecified, so chosen arbitrarily), skipping unreadable ones.
     */
    method LoadAllUsers() returns (users: seq<UserInfo>, ghost names: seq<string>)
      ensures forall i :: 0 <= i < |names| ==> names[i] in Listed(files)
      ensures forall n :: n in Listed(files) ==> n in names
      ensures forall i, j :: 0 <= i < j < |names| ==> names[i] != names[j]
      ensures users == ReadableUsers(files, names)
      ensures IsListing(files, users)
    {
      var remaining := Listed(files);
      users, names := [], [];
      while remaining != {}
        invariant remaining <= Listed(files)
        invariant forall i :: 0 <= i < |names| ==> names[i] in Listed(files) && names[i] !in remaining
        invariant forall n :: n in Listed(files) ==> n in names || n in remaining
        invariant forall i, j :: 0 <= i < j < |names| ==> names[i] != names[j]
        invariant users == ReadableUsers(files, names)
        decreases |remaining|
      {
        var n :| n in remaining;
        assert (names + [n])[..|names|] == names;
        if files[n].UserJson? {
          users := users + [files[n].user];
        }
        names := names + [n];
        remaining := remaining - {n};
      }
    }

    /** deleteUserInfo: false for a null or empty id; otherwise whether a file was removed. */
    method DeleteUserInfo(userId: Option<string>) returns (deleted: bool)
      modifies this
      ensures deleted <==> !IsNullOrEmpty(userId) && UserFileName(userId.value) in old(files)
      ensures IsNullOrEmpty(userId) ==> files == old(files)
      ensures !IsNullOrEmpty(userId) ==> files == old(files) - {UserFileName(userId.value)}
    {
      if IsNullOrEmpty(userId) {
        return false;
      }
      var name := UserFileName(userId.value);
      deleted := name in files;
      files := files - {name};
    }

    /**
     * markUserLoginExpired(String): reload the account, mark it inactive with its cookies
     * cleared and the last-login time now, and save it back.
     */
    method MarkUserLoginExpired(userId: Option<string>, now: Timestamp) returns (marked: bool)
      modifies this
      ensures marked <==> Lookup(old(files), userId).Some?
      ensures files == MarkedExpired(old(files), userId, now)
    {
      var user := Lookup(files, userId);
      if user.None? {
        return false;
      }
      SaveUserInfo(Some(Expired(user.value, now)), now);
      marked := true;
    }

    /** markUserLoginExpired(UserInfo): false for a null account or a null id, else by the account's id. */
    method MarkRecordLoginExpired(user: Option<UserInfo>, now: Timestamp) returns (marked: bool)
      modifies this
      ensures marked <==> user.Some? && user.value.userId.Some? && Lookup(old(files), user.value.userId).Some?
      ensures files == MarkedRecordExpired(old(files), user, now)
    {
      if user.None? || user.value.userId.None? {
        return false;
      }
      marked := MarkUserLoginExpired(user.value.userId, now);
    }
  }

  /** After an expiry mark, the account reads back inactive, with an empty cookie list and the current time. */
  lemma MarkExpiredThenLoad(files: Files, userId: string, now: Timestamp)
    requires WellFormed(files)
    requires Lookup(files, Some(userId)).Some?
    ensures var u := Lookup(files, Some(userId)).value;
      Lookup(MarkedExpired(files, Some(userId), now), Some(userId))
        == Some(u.(active := false, cookies := Some([]), lastLoginTime := Some(now)))
  {
    LookupCarriesId(files, userId);
  }

  /** Every account that loads by its id is in any listing of the directory. */
  lemma ListingHoldsLoaded(files: Files, userId: string, listing: seq<UserInfo>)
    requires IsListing(files, listing)
    requires Lookup(files, Some(userId)).Some?
    ensures Lookup(files, Some(userId)).value in listing
  {
    var names :| && (forall i :: 0 <= i < |names| ==> names[i] in Listed(files))
                 && (forall n :: n in Listed(files) ==> n in names)
                 && (forall i, j :: 0 <= i < j < |names| ==> names[i] != names[j])
                 && listing == ReadableUsers(files, names);
    var n := UserFileName(userId);
    UserFileNameIsListed(userId);
    assert n in Listed(files);
    var i :| 0 <= i < |names| && names[i] == n;
    ReadableUsersExactly(files, names, Lookup(files, Some(userId)).value);
  }

  /** In a well-formed directory, a listed account with a given id is the one that loads by that id. */
  lemma ListedIsLoaded(files: Files, listing: seq<UserInfo>, u: UserInfo)
    requires WellFormed(files) && IsListing(files, listing) && u in listing
    ensures u.userId.Some? && (u.userId.value != "" ==> Lookup(files, u.userId) == Some(u))
  {
    var names :| && (forall i :: 0 <= i < |names| ==> names[i] in Listed(files))
                 && (forall n :: n in Listed(files) ==> n in names)
                 && (forall i, j :: 0 <= i < j < |names| ==> names[i] != names[j])
                 && listing == ReadableUsers(files, names);
    ReadableUsersExactly(files, names, u);
    var i :| 0 <= i < |names| && files[names[i]] == UserJson(u);
    var n := names[i];
    assert n in files && files[n].UserJson?;
    assert n == UserFileName(u.userId.value);
  }

  /**
   * After markUserLoginExpired(userId), no listing of a well-formed directory holds an active
   * account with that id.
   */
  lemma ExpiredLeavesNoActive(files: Files, userId: string, now: Timestamp, listing: seq<UserInfo>)
    requires WellFormed(files) && userId != ""
    requires IsListing(MarkedExpired(files, Some(userId), now), listing)
    ensures forall u :: u in listing && u.userId == Some(userId) ==> !u.active
  {
    var after := MarkedExpired(files, Some(userId), now);
    if Lookup(files, Some(userId)).Some? {
      LookupCarriesId(files, userId);
      SavePreservesWellFormed(files, Some(Expired(Lookup(files, Some(userId)).value, now)), now);
      MarkExpiredThenLoad(files, userId, now);
    }
    forall u | u in listing && u.userId == Some(userId)
      ensures !u.active
    {
      ListedIsLoaded(after, listing, u);
    }
  }
}

/**
 * ui/viewmodel/UserManagementViewModel.java: the account list of the account page, its
 * empty-state flag and the login-in-progress flag around the login operations.
 */
module UserViewModel {
  import opened Wrappers
  import opened Text
  import opened Entities
  import opened UserStore
  import opened Login

  /** `users.get(i).getUserId().equals(userId)`; an entry without an id is taken as no match. */
  predicate SameUser(u: UserInfo, userId: Option<string>)
  {
    u.userId.Some? && userId.Some? && u.userId.value == userId.value
  }

  /** The first entry whose id is userId, or -1. */
  function FirstOfUser(users: seq<UserInfo>, userId: Option<string>): (i: int)
    ensures -1 <= i < |users|
    ensures i == -1 <==> forall k :: 0 <= k < |users| ==> !SameUser(users[k], userId)
    ensures 0 <= i ==> SameUser(users[i], userId) && forall k :: 0 <= k < i ==> !SameUser(users[k], userId)
  {
    if users == [] then -1
    else if SameUser(users[0], userId) then 0
    else
      var j := FirstOfUser(users[1..], userId);
      if j == -1 then -1 else j + 1
  }

  /** The list after the refresh loop of refreshUserLoginStatus. */
  function RefreshedList(users: seq<UserInfo>, userId: Option<string>, updated: UserInfo): (r: seq<UserInfo>)
    ensures |r| == |users|
  {
    var i := FirstOfUser(users, userId);
    if i < 0 then users else users[i := updated]
  }

  /** Only the first entry with the id is replaced; every other entry stays where it was. */
  lemma RefreshedOnlyFirst(users: seq<UserInfo>, userId: Option<string>, updated: UserInfo)
    ensures var r := RefreshedList(users, userId, updated);
      var i := FirstOfUser(users, userId);
      && (i >= 0 ==> r[i] == updated)
      && (i < 0 ==> r == users)
      && forall k :: 0 <= k < |users| && k != i ==> r[k] == users[k]
  {
  }

  /** users.removeIf(matching id). */
  function WithoutUser(users: seq<UserInfo>, userId: Option<string>): (r: seq<UserInfo>)
    ensures |r| <= |users|
  {
    if users == [] then []
    else
      var last := users[|users| - 1];
      WithoutUser(users[..|users| - 1], userId) + (if SameUser(last, userId) then [] else [last])
  }

  /** Exactly the entries with other ids remain. */
  lemma {:induction false} WithoutUserMembers(users: seq<UserInfo>, userId: Option<string>, u: UserInfo)
    ensures u in WithoutUser(users, userId) <==> u in users && !SameUser(u, userId)
    decreases |users|
  {
    if users != [] {
      var init := users[..|users| - 1];
      WithoutUserMembers(init, userId, u);
      assert users == init + [users[|users| - 1]];
    }
  }

  class UserManagementViewModel {
    const login: LoginService
    /** The account store: one UserService instance, shared with the login service. */
    const store: UserService := login.users
    var users: seq<UserInfo>
    var loading: bool
    var noUsersFound: bool
    var loginInProgress: bool

    constructor(login: LoginService)
      ensures this.login == login && store == login.users
      ensures users == [] && !loading && !noUsersFound && !loginInProgress
    {
      this.login := login;
      users := [];
      loading, noUsersFound, loginInProgress := false, false, false;
    }

    /** loadUsers: the list becomes one listing of the store, and the empty state tells whether it is empty. */
    method LoadUsers() returns (ghost loaded: seq<UserInfo>)
      modifies this
      ensures IsListing(store.files, loaded)
      ensures users == loaded && noUsersFound == (users == []) && !loading
      ensures loginInProgress == old(loginInProgress)
    {
      loading := true;
      noUsersFound := false;
      var listing, names := store.LoadAllUsers();
      users := [];
      if listing == [] {
        noUsersFound := true;
      } else {
        users := users + listing;
        noUsersFound := false;
      }
      loading := false;
      loaded := listing;
    }

    /** The UI-thread loop of refreshUserLoginStatus: over the list until the first entry with the id. */
    method ReplaceUser(userId: Option<string>, updated: UserInfo)
      modifies this
      ensures users == RefreshedList(old(users), userId, updated)
      ensures noUsersFound == old(noUsersFound) && loading == old(loading) && loginInProgress == old(loginInProgress)
    {
      var i := 0;
      while i < |users|
        invariant 0 <= i <= |users| && users == old(users)
        invariant forall k :: 0 <= k < i ==> !SameUser(users[k], userId)
      {
        if SameUser(users[i], userId) {
          users := users[i := updated];
          return;
        }
        i := i + 1;
      }
    }

    /**
     * refreshUserLoginStatus(userId): log in for the account; on success replace its entry by
     * the account as now stored. The flag is raised for the duration and lowered at the end.
     */
    method RefreshUserLoginStatus(userId: Option<string>, env: nat -> CookieCheckEnv, scan: ScanEnv, now: Timestamp)
      returns (ok: bool, ghost listing: seq<UserInfo>)
      modifies this, store
      ensures LoginEffect(old(store.files), userId, listing, env, scan, now, ok, store.files)
      ensures var stored := Lookup(store.files, userId);
        users == (if ok && stored.Some? then RefreshedList(old(users), userId, stored.value) else old(users))
      ensures !loginInProgress && noUsersFound == old(noUsersFound) && loading == old(loading)
    {
      loginInProgress := true;
      ok, listing := login.LoginAndSaveCookies(userId, env, scan, now);
      if ok {
        var updated := login.users.LoadUserInfo(userId);
        if updated.Some? {
          ReplaceUser(userId, updated.value);
        }
      }
      loginInProgress := false;
    }

    /** The reload after a successful new login, as in loginNewAccount and performNewLogin. */
    method ReloadAfterLogin() returns (ghost loaded: seq<UserInfo>)
      modifies this
      ensures IsListing(store.files, loaded)
      ensures users == loaded && noUsersFound == (loaded == [])
      ensures loading == old(loading) && loginInProgress == old(loginInProgress)
    {
      var listing, names := store.LoadAllUsers();
      users := [];
      users := users + listing;
      noUsersFound := listing == [];
      loaded := listing;
    }

    /** loginNewAccount: loginAndSaveCookies() without an id, then a reload when it succeeded. */
    method LoginNewAccount(env: nat -> CookieCheckEnv, scan: ScanEnv, now: Timestamp)
      returns (ok: bool, ghost listing: seq<UserInfo>, ghost loaded: Option<seq<UserInfo>>)
      modifies this, store
      ensures LoginEffect(old(store.files), None, listing, env, scan, now, ok, store.files)
      ensures loaded.Some? <==> ok
      ensures loaded.Some? ==> IsListing(store.files, loaded.value) && users == loaded.value && noUsersFound == (users == [])
      ensures loaded.None? ==> users == old(users) && noUsersFound == old(noUsersFound)
      ensures !loginInProgress && loading == old(loading)
    {
      loginInProgress := true;
      ok, listing := login.LoginAndSaveCookies(None, env, scan, now);
      loaded := None;
      if ok {
        var l := ReloadAfterLogin();
        loaded := Some(l);
      }
      loginInProgress := false;
    }

    /**
     * performNewLogin: a scan login alone, then a reload when it succeeded. The reloaded list shows
     * the scanned account whenever it has an id.
     */
    method PerformNewLogin(scan: ScanEnv, now: Timestamp) returns (ok: bool, ghost loaded: Option<seq<UserInfo>>)
      modifies this, store
      ensures ok <==> ScanOutcome(scan, now).Some?
      ensures store.files == AfterScan(old(store.files), scan, now)
      ensures loaded.Some? <==> ok
      ensures loaded.Some? ==> IsListing(store.files, loaded.value) && users == loaded.value && noUsersFound == (users == [])
      ensures loaded.None? ==> users == old(users) && noUsersFound == old(noUsersFound)
      ensures ok && !IsNullOrEmpty(ScanOutcome(scan, now).value.userId) ==> ScanOutcome(scan, now).value in users
      ensures !loginInProgress && loading == old(loading)
    {
      loginInProgress := true;
      ok := login.ScanLogin(scan, now);
      loaded := None;
      if ok {
        var l := ReloadAfterLogin();
        loaded := Some(l);
        var scanned := ScanOutcome(scan, now).value;
        if !IsNullOrEmpty(scanned.userId) {
          ScannedAccountStored(old(store.files), scan, now);
          ListingHoldsLoaded(store.files, scanned.userId.value, l);
        }
      }
      loginInProgress := false;
    }

    /** deleteUser: the entries with the id leave the list only when the store removed a file. */
    method DeleteUser(userId: Option<string>) returns (ok: bool)
      modifies this, store
      ensures ok <==> !IsNullOrEmpty(userId) && UserFileName(userId.value) in old(store.files)
      ensures store.files == (if IsNullOrEmpty(userId) then old(store.files) else old(store.files) - {UserFileName(userId.value)})
      ensures ok ==> users == WithoutUser(old(users), userId) && noUsersFound == (users == [])
      ensures !ok ==> users == old(users) && noUsersFound == old(noUsersFound)
      ensures loginInProgress == old(loginInProgress) && loading == old(loading)
    {
      ok := store.DeleteUserInfo(userId);
      if ok {
        users := WithoutUser(users, userId);
        noUsersFound := users == [];
      }
    }
  }
}

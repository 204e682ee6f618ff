/** The records the services exchange: accounts, publish/search notes and the identity reply. */
module Entities {
  import opened Wrappers

  /** LocalDateTime.now(), as an opaque instant supplied by the caller. */
  type Timestamp = int

  /** One browser cookie as Playwright reports it. */
  datatype Cookie = Cookie(name: string, value: string, domain: string, path: string, expires: int)

  /** An account stored under repository/users (entity/UserInfo.java). */
  datatype UserInfo = UserInfo(
    userId: Option<string>,
    nickname: Option<string>,
    avatar: Option<string>,
    description: Option<string>,
    redId: Option<string>,
    cookies: Option<seq<Cookie>>,
    active: bool,
    lastLoginTime: Option<Timestamp>)

  /** `new UserInfo()`: no fields set, an empty cookie list, inactive. */
  function NewUserInfo(): (u: UserInfo)
    ensures u.cookies == Some([]) && !u.active
    ensures u.userId.None? && u.nickname.None? && u.lastLoginTime.None?
  {
    UserInfo(None, None, None, None, None, Some([]), false, None)
  }

  /** The account holds a non-null, non-empty cookie list. */
  predicate HasCookies(u: UserInfo)
  {
    u.cookies.Some? && u.cookies.value != []
  }

  /** The accounts marked as logged in, in their original order (the UI filters on isActive). */
  function ActiveUsers(us: seq<UserInfo>): (r: seq<UserInfo>)
    ensures |r| <= |us|
    ensures forall i :: 0 <= i < |r| ==> r[i].active
  {
    if us == [] then []
    else ActiveUsers(us[..|us| - 1]) + (if us[|us| - 1].active then [us[|us| - 1]] else [])
  }

  /** One more account in a filtering loop. */
  lemma ActiveUsersStep(us: seq<UserInfo>, i: nat)
    requires i < |us|
    ensures ActiveUsers(us[..i + 1]) == ActiveUsers(us[..i]) + (if us[i].active then [us[i]] else [])
  {
    assert us[..i + 1][..i] == us[..i];
  }

  /** Filtering distributes over concatenation, so the relative order of the kept accounts is the input order. */
  lemma {:induction false} ActiveUsersAppend(a: seq<UserInfo>, b: seq<UserInfo>)
    ensures ActiveUsers(a + b) == ActiveUsers(a) + ActiveUsers(b)
    decreases |b|
  {
    if b == [] {
      assert a + b == a;
    } else {
      assert (a + b)[..|a + b| - 1] == a + b[..|b| - 1];
      ActiveUsersAppend(a, b[..|b| - 1]);
    }
  }

  /** An account is kept exactly when it is in the input and active. */
  lemma {:induction false} ActiveUsersMembers(us: seq<UserInfo>, u: UserInfo)
    ensures u in ActiveUsers(us) <==> u in us && u.active
    decreases |us|
  {
    if us != [] {
      var init := us[..|us| - 1];
      ActiveUsersMembers(init, u);
      assert us == init + [us[|us| - 1]];
    }
  }

  /** A list of logged-in accounts passes unchanged; one without any gives nothing. */
  lemma {:induction false} ActiveUsersExtremes(us: seq<UserInfo>)
    ensures (forall i :: 0 <= i < |us| ==> us[i].active) ==> ActiveUsers(us) == us
    ensures (forall i :: 0 <= i < |us| ==> !us[i].active) ==> ActiveUsers(us) == []
    decreases |us|
  {
    if us != [] {
      var init := us[..|us| - 1];
      ActiveUsersExtremes(init);
      assert forall i :: 0 <= i < |init| ==> init[i] == us[i];
      assert us == init + [us[|us| - 1]];
    }
  }

  /** A note as scraped from a search page or a detail page, or composed for publishing (entity/NoteInfo.java). */
  datatype NoteInfo = NoteInfo(
    noteId: Option<string>,
    noteUrl: Option<string>,
    title: Option<string>,
    coverImageUrl: Option<string>,
    authorId: Option<string>,
    authorUrl: Option<string>,
    authorName: Option<string>,
    likeCount: Option<string>,
    content: Option<string>,
    tags: Option<seq<string>>,
    imageUrls: Option<seq<string>>)

  /** `new NoteInfo()`: every field null. */
  function NewNoteInfo(): (n: NoteInfo)
    ensures n.noteId.None? && n.title.None? && n.tags.None? && n.imageUrls.None?
  {
    NoteInfo(None, None, None, None, None, None, None, None, None, None, None)
  }

  /** The `data` object of the identity reply (entity/UserInfoResponse.java); `gender` is a Java int, 0 when absent. */
  datatype UserInfoResponse = UserInfoResponse(
    userId: Option<string>,
    nickname: Option<string>,
    desc: Option<string>,
    gender: int,
    images: Option<string>,
    imageb: Option<string>,
    guest: bool,
    redId: Option<string>)

  /** `new UserInfoResponse()`. */
  function NewUserInfoResponse(): (r: UserInfoResponse)
    ensures r.userId.None? && r.gender == 0 && !r.guest
  {
    UserInfoResponse(None, None, None, 0, None, None, false, None)
  }

  /** Outcome of a QR-code login (entity/LoginResult.java); userId defaults to "unknown". */
  datatype LoginResult = LoginResult(success: bool, userId: string, userInfoResponse: Option<UserInfoResponse>)

  function NewLoginResult(): (r: LoginResult)
    ensures !r.success && r.userId == "unknown" && r.userInfoResponse.None?
  {
    LoginResult(false, "unknown", None)
  }
}

/**
 * service/LoginService.java: logging in with saved cookies or by QR code.
 * The browser is an input: what the identity endpoint answered, what each poll
 * round observed, and whether a browser step threw.
 */
module Login {
  import opened Wrappers
  import opened Text
  import opened Entities
  import opened UserStore
  import opened Browser

  // ---------------------------------------------------------------------------
  // The identity endpoint's reply (GET /api/sns/web/v2/user/me)

  /** A JSON scalar as Hutool hands it back; null members are dropped when Hutool parses. */
  datatype Scalar = JStr(s: string) | JInt(n: int) | JBool(b: bool)

  /** A top-level member of the reply: a scalar, or an object of scalars. */
  datatype Member = Value(v: Scalar) | Object(fields: map<string, Scalar>)

  /** The reply body: a JSON object, or text that does not parse as one. */
  datatype IdentityReply = Reply(members: map<string, Member>) | Malformed

  /** JSONObject.getStr. */
  function GetStr(v: Scalar): string
  {
    match v
    case JStr(s) => s
    case JInt(n) => IntToString(n)
    case JBool(b) => if b then "true" else "false"
  }

  /** JSONObject.getBool(key, false), for boolean members. */
  function GetBool(v: Scalar): bool
  {
    v.JBool? && v.b
  }

  /** JSONObject.getInt(key, 0), for integer members. */
  function GetInt(v: Scalar): int
  {
    if v.JInt? then v.n else 0
  }

  /** The value a string setter receives from member `key`, when the data object has it. */
  function StrField(data: map<string, Scalar>, key: string): Option<string>
  {
    if key in data then Some(GetStr(data[key])) else None
  }

  /** The setters for user_id, nickname, desc and gender. */
  function FillIdentity(r: UserInfoResponse, data: map<string, Scalar>): (r': UserInfoResponse)
    ensures r'.userId == (if "user_id" in data then StrField(data, "user_id") else r.userId)
    ensures r'.nickname == (if "nickname" in data then StrField(data, "nickname") else r.nickname)
    ensures r'.desc == (if "desc" in data then StrField(data, "desc") else r.desc)
    ensures r'.gender == (if "gender" in data then GetInt(data["gender"]) else r.gender)
    ensures r'.images == r.images && r'.imageb == r.imageb && r'.redId == r.redId && r'.guest == r.guest
  {
    var r1 := if "user_id" in data then r.(userId := StrField(data, "user_id")) else r;
    var r2 := if "nickname" in data then r1.(nickname := StrField(data, "nickname")) else r1;
    var r3 := if "desc" in data then r2.(desc := StrField(data, "desc")) else r2;
    if "gender" in data then r3.(gender := GetInt(data["gender"])) else r3
  }

  /** The setters for image, then images, then imageb: a later setter overwrites an earlier one. */
  function FillImages(r: UserInfoResponse, data: map<string, Scalar>): (r': UserInfoResponse)
    ensures r'.images == (if "images" in data then StrField(data, "images")
                          else if "image" in data then StrField(data, "image") else r.images)
    ensures r'.imageb == (if "imageb" in data then StrField(data, "imageb") else r.imageb)
    ensures r'.userId == r.userId && r'.nickname == r.nickname && r'.desc == r.desc
    ensures r'.gender == r.gender && r'.redId == r.redId && r'.guest == r.guest
  {
    var r1 := if "image" in data then r.(images := StrField(data, "image")) else r;
    var r2 := if "images" in data then r1.(images := StrField(data, "images")) else r1;
    if "imageb" in data then r2.(imageb := StrField(data, "imageb")) else r2
  }

  /** The setters for red_id, then redId. */
  function FillRedId(r: UserInfoResponse, data: map<string, Scalar>): (r': UserInfoResponse)
    ensures r'.redId == (if "redId" in data then StrField(data, "redId")
                         else if "red_id" in data then StrField(data, "red_id") else r.redId)
    ensures r' == r.(redId := r'.redId)
  {
    var r1 := if "red_id" in data then r.(redId := StrField(data, "red_id")) else r;
    if "redId" in data then r1.(redId := StrField(data, "redId")) else r1
  }

  /** The setters of the route handler, applied one after another to `new UserInfoResponse()`. */
  function FillResponse(data: map<string, Scalar>): UserInfoResponse
  {
    FillRedId(FillImages(FillIdentity(NewUserInfoResponse(), data), data), data)
  }

  /** A reply whose `success` is true and whose `data` is an object. */
  predicate HasData(reply: IdentityReply)
  {
    && reply.Reply?
    && "success" in reply.members && reply.members["success"].Value? && GetBool(reply.members["success"].v)
    && "data" in reply.members && reply.members["data"].Object?
  }

  /** The data object of a reply satisfying HasData. */
  function DataOf(reply: IdentityReply): map<string, Scalar>
    requires HasData(reply)
  {
    reply.members["data"].fields
  }

  /** The data object marks a guest session. */
  predicate IsGuest(data: map<string, Scalar>)
  {
    "guest" in data && GetBool(data["guest"])
  }

  /** What the route handler captures from one reply, if anything. */
  function ReadIdentityReply(reply: IdentityReply): (r: Option<UserInfoResponse>)
    ensures r.Some? <==>
      (HasData(reply) && !IsGuest(DataOf(reply)) && "user_id" in DataOf(reply) && GetStr(DataOf(reply)["user_id"]) != "")
    ensures r.Some? ==> r.value == FillResponse(DataOf(reply))
    ensures r.Some? ==> r.value.userId.Some? && r.value.userId.value != ""
  {
    if !HasData(reply) then None
    else
      var data := DataOf(reply);
      if IsGuest(data) then None
      else
        var info := FillResponse(data);
        if info.userId.Some? && info.userId.value != "" then Some(info) else None
  }

  /** A guest reply captures nothing, whatever else it holds. */
  lemma GuestReplyIgnored(data: map<string, Scalar>)
    requires "guest" in data && data["guest"] == JBool(true)
    ensures ReadIdentityReply(Reply(map["success" := Value(JBool(true)), "data" := Object(data)])).None?
  {
  }

  /** When both spellings are present, "images" wins over "image" and "redId" over "red_id". */
  lemma LaterSpellingWins(data: map<string, Scalar>)
    ensures "images" in data ==> FillResponse(data).images == Some(GetStr(data["images"]))
    ensures "images" !in data && "image" in data ==> FillResponse(data).images == Some(GetStr(data["image"]))
    ensures "redId" in data ==> FillResponse(data).redId == Some(GetStr(data["redId"]))
    ensures "redId" !in data && "red_id" in data ==> FillResponse(data).redId == Some(GetStr(data["red_id"]))
    ensures FillResponse(data).userId == StrField(data, "user_id") && !FillResponse(data).guest
  {
  }

  /** One request the route handler sees: a reply, or a fetch that threw (maybe because the page closed). */
  datatype RouteEvent = Fetched(reply: IdentityReply) | FetchFailed(pageClosed: bool)

  /** The handler's flags after some requests: the first capture wins; later requests are passed through. */
  datatype RouteState = RouteState(captured: Option<UserInfoResponse>, closed: bool)

  /** A captured response always carries a non-empty user id. */
  predicate CaptureValid(st: RouteState)
  {
    st.captured.Some? ==> st.captured.value.userId.Some? && st.captured.value.userId.value != ""
  }

  function RouteStep(st: RouteState, e: RouteEvent): (r: RouteState)
    ensures CaptureValid(st) ==> CaptureValid(r)
  {
    if st.captured.Some? then st
    else match e
      case Fetched(reply) => st.(captured := ReadIdentityReply(reply))
      case FetchFailed(pageClosed) => if pageClosed then st.(closed := true) else st
  }

  function Route(st: RouteState, events: seq<RouteEvent>): (r: RouteState)
    ensures CaptureValid(st) ==> CaptureValid(r)
    decreases |events|
  {
    if events == [] then st else Route(RouteStep(st, events[0]), events[1..])
  }

  /** The requests handled before any capture: those that capture nothing. */
  predicate NoCapture(events: seq<RouteEvent>)
  {
    forall i :: 0 <= i < |events| && events[i].Fetched? ==> ReadIdentityReply(events[i].reply).None?
  }

  /** The handler captures the first reply that yields a response, and nothing when none does. */
  lemma {:induction false} RouteCapturesFirst(st: RouteState, events: seq<RouteEvent>, k: nat)
    requires st.captured.None?
    requires k < |events| && events[k].Fetched? && ReadIdentityReply(events[k].reply).Some?
    requires NoCapture(events[..k])
    ensures Route(st, events).captured == ReadIdentityReply(events[k].reply)
    decreases k
  {
    if k == 0 {
      RouteKeepsCapture(RouteStep(st, events[0]), events[1..]);
    } else {
      assert events[0] == events[..k][0];
      assert events[1..][..k - 1] == events[..k][1..];
      RouteCapturesFirst(RouteStep(st, events[0]), events[1..], k - 1);
    }
  }

  lemma {:induction false} RouteKeepsCapture(st: RouteState, events: seq<RouteEvent>)
    requires st.captured.Some?
    ensures Route(st, events).captured == st.captured
    decreases |events|
  {
    if events != [] {
      RouteKeepsCapture(RouteStep(st, events[0]), events[1..]);
    }
  }

  lemma {:induction false} RouteWithoutCapture(st: RouteState, events: seq<RouteEvent>)
    requires st.captured.None?
    requires NoCapture(events)
    ensures Route(st, events).captured.None?
    decreases |events|
  {
    if events != [] {
      assert NoCapture(events[1..]) by {
        forall i | 0 <= i < |events[1..]| && events[1..][i].Fetched?
          ensures ReadIdentityReply(events[1..][i].reply).None?
        {
          assert events[1..][i] == events[i + 1];
        }
      }
      RouteWithoutCapture(RouteStep(st, events[0]), events[1..]);
    }
  }

  const Fresh: RouteState := RouteState(None, false)

  // ---------------------------------------------------------------------------
  // checkLoginWithCookies: the poll loop

  /**
   * One round of the poll loop: the requests the route handler saw since the previous
   * round, whether waitForTimeout threw, the login container probe, and whether the
   * 10-second budget was used up.
   */
  datatype CheckRound = CheckRound(arrivals: seq<RouteEvent>, pauseFailed: bool, container: Probe, pastDeadline: bool)

  /** How the poll loop ended: a captured identity, the login container, or neither. */
  datatype CheckOutcome = Captured(response: UserInfoResponse) | LoginRequired | Undetermined

  /** A round ends the loop without a capture: the wait returned and the container showed or time ran out. */
  predicate EndsRound(r: CheckRound)
  {
    !r.pauseFailed && (r.container == Shown || r.pastDeadline)
  }

  /** The outcome of the rounds; running out of rounds counts as running out of time. */
  function CheckLoop(rounds: seq<CheckRound>): (r: CheckOutcome)
    ensures r.Captured? ==> r.response.userId.Some? && r.response.userId.value != ""
    decreases |rounds|
  {
    if rounds == [] then Undetermined
    else
      var r := rounds[0];
      var seen := Route(Fresh, r.arrivals).captured;
      if seen.Some? then Captured(seen.value)
      else if EndsRound(r) then (if r.container == Shown then LoginRequired else Undetermined)
      else CheckLoop(rounds[1..])
  }

  /** The loop captures exactly when some round captures and no earlier round ended the loop. */
  lemma {:induction false} CheckLoopCaptures(rounds: seq<CheckRound>)
    ensures CheckLoop(rounds).Captured? <==>
      exists i :: 0 <= i < |rounds| && Route(Fresh, rounds[i].arrivals).captured.Some?
        && forall j :: 0 <= j < i ==> Route(Fresh, rounds[j].arrivals).captured.None? && !EndsRound(rounds[j])
    decreases |rounds|
  {
    if rounds != [] {
      CheckLoopCaptures(rounds[1..]);
      if Route(Fresh, rounds[0].arrivals).captured.None? && !EndsRound(rounds[0]) {
        if CheckLoop(rounds).Captured? {
          var i :| 0 <= i < |rounds[1..]| && Route(Fresh, rounds[1..][i].arrivals).captured.Some?
            && forall j :: 0 <= j < i ==> Route(Fresh, rounds[1..][j].arrivals).captured.None? && !EndsRound(rounds[1..][j]);
          assert forall j :: 0 <= j < i + 1 ==> Route(Fresh, rounds[j].arrivals).captured.None? && !EndsRound(rounds[j]) by {
            forall j | 0 < j < i + 1
              ensures Route(Fresh, rounds[j].arrivals).captured.None? && !EndsRound(rounds[j])
            {
              assert rounds[j] == rounds[1..][j - 1];
            }
          }
          assert Route(Fresh, rounds[i + 1].arrivals).captured.Some?;
        } else {
          forall i | 0 < i < |rounds| && Route(Fresh, rounds[i].arrivals).captured.Some?
            ensures exists j :: 0 <= j < i && !(Route(Fresh, rounds[j].arrivals).captured.None? && !EndsRound(rounds[j]))
          {
            assert rounds[i] == rounds[1..][i - 1];
            var j :| 0 <= j < i - 1 && !(Route(Fresh, rounds[1..][j].arrivals).captured.None? && !EndsRound(rounds[1..][j]));
            assert rounds[1..][j] == rounds[j + 1];
          }
        }
      }
    }
  }

  /** The loop of checkLoginWithCookies over its rounds. */
  method PollCookieCheck(rounds: seq<CheckRound>) returns (outcome: CheckOutcome)
    ensures outcome == CheckLoop(rounds)
  {
    var i := 0;
    while i < |rounds|
      invariant 0 <= i <= |rounds|
      invariant CheckLoop(rounds) == CheckLoop(rounds[i..])
    {
      var round := rounds[i];
      var seen := Route(Fresh, round.arrivals);
      if seen.captured.Some? {
        return Captured(seen.captured.value);
      }
      if !round.pauseFailed {
        if round.container == Shown {
          return LoginRequired;
        }
        if round.pastDeadline {
          return Undetermined;
        }
      }
      assert rounds[i..][1..] == rounds[i + 1..];
      i := i + 1;
    }
    return Undetermined;
  }

  /**
   * The browser facts of one cookie check: whether opening the context/page threw,
   * the poll rounds, and the session cookies afterwards (None when reading them threw).
   */
  datatype CookieCheckEnv = CookieCheckEnv(setupFails: bool, rounds: seq<CheckRound>, sessionCookies: Option<seq<Cookie>>)

  /** How a cookie check ends. */
  datatype CookieVerdict =
    | NoCookies            // no account or no cookies: false, no browser work
    | BrowserFailed        // a browser step threw: false, nothing stored
    | Refreshed(user: UserInfo)  // identity captured: the account is updated and saved
    | Rejected             // no capture: the account is marked expired

  /** The stored account after a captured identity: fresh cookies, active, and the reply's profile fields. */
  function RefreshedUser(u: UserInfo, resp: UserInfoResponse, cookies: seq<Cookie>, now: Timestamp): (r: UserInfo)
    ensures r.active && r.cookies == Some(cookies) && r.lastLoginTime == Some(now)
    ensures r.userId == resp.userId && r.nickname == resp.nickname && r.avatar == resp.images
    ensures r.redId == resp.redId && r.description == resp.desc
  {
    u.(cookies := Some(cookies), active := true, lastLoginTime := Some(now),
       userId := resp.userId, nickname := resp.nickname, avatar := resp.images,
       redId := resp.redId, description := resp.desc)
  }

  function CookieCheck(user: Option<UserInfo>, env: CookieCheckEnv, now: Timestamp): (r: CookieVerdict)
    ensures r == NoCookies <==> user.None? || !HasCookies(user.value)
    ensures r.Refreshed? <==>
      (user.Some? && HasCookies(user.value) && !env.setupFails && CheckLoop(env.rounds).Captured? && env.sessionCookies.Some?)
    ensures r == Rejected <==>
      (user.Some? && HasCookies(user.value) && !env.setupFails && !CheckLoop(env.rounds).Captured?)
  {
    if user.None? || !HasCookies(user.value) then NoCookies
    else if env.setupFails then BrowserFailed
    else match CheckLoop(env.rounds)
      case Captured(resp) =>
        if env.sessionCookies.None? then BrowserFailed
        else Refreshed(RefreshedUser(user.value, resp, env.sessionCookies.value, now))
      case _ => Rejected
  }

  /** The account directory after a cookie check. */
  function AfterCookieCheck(files: Files, user: Option<UserInfo>, env: CookieCheckEnv, now: Timestamp): Files
  {
    match CookieCheck(user, env, now)
    case Refreshed(u) => Saved(files, Some(u), now)
    case Rejected => MarkedRecordExpired(files, user, now)
    case _ => files
  }

  /** A refreshed account reads back under the reply's id: active, with the session's cookies. */
  lemma RefreshedAccountStored(files: Files, user: UserInfo, env: CookieCheckEnv, now: Timestamp)
    requires CookieCheck(Some(user), env, now).Refreshed?
    ensures var u := CookieCheck(Some(user), env, now).user;
      && u.userId.Some? && u.userId.value != ""
      && Lookup(AfterCookieCheck(files, Some(user), env, now), u.userId) == Some(u)
      && u.active && u.cookies == env.sessionCookies && u.lastLoginTime == Some(now)
  {
  }

  /** A rejected account reads back inactive with no cookies, when it was stored under its own id. */
  lemma RejectedAccountExpired(files: Files, user: UserInfo, env: CookieCheckEnv, now: Timestamp)
    requires WellFormed(files)
    requires CookieCheck(Some(user), env, now) == Rejected
    requires user.userId.Some? && Lookup(files, user.userId).Some?
    ensures var stored := Lookup(AfterCookieCheck(files, Some(user), env, now), user.userId);
      stored.Some? && !stored.value.active && stored.value.cookies == Some([])
  {
    MarkExpiredThenLoad(files, user.userId.value, now);
  }

  // ---------------------------------------------------------------------------
  // tryLoginWithSavedCookies over all stored accounts

  /** The first account, from position `from` on, whose cookie check succeeds (attempt i sees env(i)). */
  function FirstSuccess(users: seq<UserInfo>, env: nat -> CookieCheckEnv, from: nat, now: Timestamp): Option<UserInfo>
    decreases |users| - from
  {
    if from >= |users| then None
    else match CookieCheck(Some(users[from]), env(from), now)
      case Refreshed(u) => Some(u)
      case _ => FirstSuccess(users, env, from + 1, now)
  }

  /** The directory after trying the accounts from position `from` on, stopping after the first success. */
  function TryEachEffect(files: Files, users: seq<UserInfo>, env: nat -> CookieCheckEnv, from: nat, now: Timestamp): Files
    decreases |users| - from
  {
    if from >= |users| then files
    else
      var after := AfterCookieCheck(files, Some(users[from]), env(from), now);
      if CookieCheck(Some(users[from]), env(from), now).Refreshed? then after
      else TryEachEffect(after, users, env, from + 1, now)
  }

  /** The search returns the first success in order, and None exactly when no attempt succeeds. */
  lemma {:induction false} FirstSuccessIsFirst(users: seq<UserInfo>, env: nat -> CookieCheckEnv, from: nat, now: Timestamp)
    ensures FirstSuccess(users, env, from, now).None? <==>
      forall i :: from <= i < |users| ==> !CookieCheck(Some(users[i]), env(i), now).Refreshed?
    ensures FirstSuccess(users, env, from, now).Some? ==>
      exists i :: from <= i < |users| && CookieCheck(Some(users[i]), env(i), now) == Refreshed(FirstSuccess(users, env, from, now).value)
        && forall j :: from <= j < i ==> !CookieCheck(Some(users[j]), env(j), now).Refreshed?
    decreases |users| - from
  {
    if from < |users| {
      FirstSuccessIsFirst(users, env, from + 1, now);
    }
  }

  /** The account tryLoginWithSavedCookies returns: by id when one is given, else the first success in `listing`. */
  function SavedLogin(files: Files, userId: Option<string>, listing: seq<UserInfo>, env: nat -> CookieCheckEnv, now: Timestamp): Option<UserInfo>
  {
    if IsNullOrEmpty(userId) then FirstSuccess(listing, env, 0, now)
    else
      var stored := Lookup(files, userId);
      if stored.None? then None
      else match CookieCheck(stored, env(0), now)
        case Refreshed(u) => Some(u)
        case _ => None
  }

  /** The directory after tryLoginWithSavedCookies. */
  function SavedLoginEffect(files: Files, userId: Option<string>, listing: seq<UserInfo>, env: nat -> CookieCheckEnv, now: Timestamp): Files
  {
    if IsNullOrEmpty(userId) then TryEachEffect(files, listing, env, 0, now)
    else
      var stored := Lookup(files, userId);
      if stored.None? then files else AfterCookieCheck(files, stored, env(0), now)
  }

  /** With an id, only that account is tried; a missing account yields nothing and changes nothing. */
  lemma SavedLoginById(files: Files, userId: string, listing: seq<UserInfo>, env: nat -> CookieCheckEnv, now: Timestamp)
    requires userId != ""
    ensures Lookup(files, Some(userId)).None? ==>
      SavedLogin(files, Some(userId), listing, env, now).None? && SavedLoginEffect(files, Some(userId), listing, env, now) == files
    ensures SavedLogin(files, Some(userId), listing, env, now).Some? <==>
      CookieCheck(Lookup(files, Some(userId)), env(0), now).Refreshed?
  {
  }

  // ---------------------------------------------------------------------------
  // waitForLoginSuccess: the QR-code poll loop

  /** How waitForTimeout returned: normally, with the page-closed error, or with another error. */
  datatype Pause = Paused | PauseClosed | PauseFailed

  /** The profile-link probe on the explore page: visible with its href (maybe null), hidden, or threw. */
  datatype ProfileProbe = ProfileVisible(href: Option<string>) | ProfileHidden | ProfileError

  /**
   * One round of the QR-code wait: the requests the handler saw during the pause, how the
   * pause returned, whether five minutes had passed, whether the page is on the explore
   * URL, and the profile-link probe.
   */
  datatype ScanRound = ScanRound(arrivals: seq<RouteEvent>, pause: Pause, pastDeadline: bool, onExplore: bool, profile: ProfileProbe)

  const ProfilePrefix: string := "/user/profile/"

  /** extractUserId: the text after "/user/profile/", or "unknown". */
  function ExtractUserId(href: Option<string>): (r: string)
    ensures href.Some? && StartsWith(href.value, ProfilePrefix) ==> ProfilePrefix + r == href.value
    ensures !(href.Some? && StartsWith(href.value, ProfilePrefix)) ==> r == "unknown"
  {
    if href.None? || !StartsWith(href.value, ProfilePrefix) then "unknown"
    else href.value[|ProfilePrefix|..]
  }

  lemma ExtractUserIdOfProfile(id: string)
    ensures ExtractUserId(Some(ProfilePrefix + id)) == id
  {
    var h := ProfilePrefix + id;
    assert h[..|ProfilePrefix|] == ProfilePrefix;
    assert h[|ProfilePrefix|..] == id;
  }

  /** The outcome of the QR-code wait, as waitForLoginSuccess builds its LoginResult. */
  function ScanLoop(rounds: seq<ScanRound>): (r: LoginResult)
    decreases |rounds|
  {
    if rounds == [] then NewLoginResult()
    else
      var r := rounds[0];
      var st := Route(Fresh, r.arrivals);
      match r.pause
      case PauseClosed => NewLoginResult()
      case PauseFailed =>
        if st.captured.Some? || st.closed then NewLoginResult() else ScanLoop(rounds[1..])
      case Paused =>
        if st.captured.Some? then
          LoginResult(true, st.captured.value.userId.value, Some(st.captured.value))
        else if r.pastDeadline then
          if r.onExplore && r.profile.ProfileVisible? then LoginResult(true, ExtractUserId(r.profile.href), None)
          else NewLoginResult()
        else if st.closed then NewLoginResult()
        else ScanLoop(rounds[1..])
  }

  /** A round in which the wait returned and either an identity was captured or the explore/profile fallback applied. */
  predicate LogsIn(r: ScanRound)
  {
    r.pause == Paused
    && (Route(Fresh, r.arrivals).captured.Some? || (r.pastDeadline && r.onExplore && r.profile.ProfileVisible?))
  }

  /** The wait succeeds only in a round that captured an identity or found the profile link after the timeout. */
  lemma {:induction false} ScanLoopSucceedsOnlyBy(rounds: seq<ScanRound>)
    ensures ScanLoop(rounds).success ==> exists i :: 0 <= i < |rounds| && LogsIn(rounds[i])
    ensures ScanLoop(rounds).success && ScanLoop(rounds).userInfoResponse.Some? ==>
      ScanLoop(rounds).userInfoResponse.value.userId == Some(ScanLoop(rounds).userId)
    decreases |rounds|
  {
    if rounds != [] {
      ScanLoopSucceedsOnlyBy(rounds[1..]);
      if ScanLoop(rounds).success && !LogsIn(rounds[0]) {
        var i :| 0 <= i < |rounds[1..]| && LogsIn(rounds[1..][i]);
        assert rounds[1..][i] == rounds[i + 1];
      }
    }
  }

  /** Closing the browser during a pause ends the wait unsuccessfully. */
  lemma ClosedBrowserFails(r: ScanRound, rest: seq<ScanRound>)
    requires r.pause == PauseClosed
    ensures !ScanLoop([r] + rest).success
  {
  }

  /** A reply captured during a pause that fails for another reason is not reported: the loop exits through its condition. */
  lemma CaptureDuringFailedPauseLost(r: ScanRound, rest: seq<ScanRound>)
    requires r.pause == PauseFailed && Route(Fresh, r.arrivals).captured.Some?
    ensures !ScanLoop([r] + rest).success
  {
  }

  /** The loop of waitForLoginSuccess over its rounds. */
  method WaitForLoginSuccess(rounds: seq<ScanRound>) returns (result: LoginResult)
    ensures result == ScanLoop(rounds)
  {
    result := NewLoginResult();
    var i := 0;
    while i < |rounds|
      invariant 0 <= i <= |rounds|
      invariant ScanLoop(rounds) == ScanLoop(rounds[i..])
    {
      var round := rounds[i];
      var st := Route(Fresh, round.arrivals);
      assert rounds[i..][1..] == rounds[i + 1..];
      if round.pause == PauseClosed {
        return NewLoginResult();
      } else if round.pause == PauseFailed {
        if st.captured.Some? || st.closed {
          return NewLoginResult();
        }
      } else {
        if st.captured.Some? {
          return LoginResult(true, st.captured.value.userId.value, Some(st.captured.value));
        }
        if round.pastDeadline {
          if round.onExplore && round.profile.ProfileVisible? {
            return LoginResult(true, ExtractUserId(round.profile.href), None);
          }
          return NewLoginResult();
        }
        if st.closed {
          return NewLoginResult();
        }
      }
      i := i + 1;
    }
  }

  /** The browser facts of one QR-code login: setup failure, the wait rounds, the session cookies afterwards. */
  datatype ScanEnv = ScanEnv(setupFails: bool, rounds: seq<ScanRound>, sessionCookies: Option<seq<Cookie>>)

  /** The account scanLogin builds from a successful wait. */
  function ScannedUser(result: LoginResult, cookies: seq<Cookie>, now: Timestamp): (u: UserInfo)
    ensures u.active && u.cookies == Some(cookies) && u.lastLoginTime == Some(now)
    ensures result.userInfoResponse.Some? ==>
      u.userId == result.userInfoResponse.value.userId && u.nickname == result.userInfoResponse.value.nickname
      && u.avatar == result.userInfoResponse.value.images && u.redId == result.userInfoResponse.value.redId
      && u.description == result.userInfoResponse.value.desc
    ensures result.userInfoResponse.None? ==>
      u.userId == Some(result.userId) && u.nickname == Some("未知用户") && u.avatar.None? && u.redId.None?
  {
    match result.userInfoResponse
    case Some(resp) =>
      NewUserInfo().(userId := resp.userId, nickname := resp.nickname, avatar := resp.images,
        redId := resp.redId, description := resp.desc, cookies := Some(cookies), active := true,
        lastLoginTime := Some(now))
    case None =>
      NewUserInfo().(userId := Some(result.userId), nickname := Some("未知用户"), cookies := Some(cookies),
        active := true, lastLoginTime := Some(now))
  }

  /** The account a QR-code login saves, or None when it fails. */
  function ScanOutcome(env: ScanEnv, now: Timestamp): (r: Option<UserInfo>)
    ensures r.Some? <==> !env.setupFails && ScanLoop(env.rounds).success && env.sessionCookies.Some?
  {
    if env.setupFails then None
    else
      var result := ScanLoop(env.rounds);
      if !result.success || env.sessionCookies.None? then None
      else Some(ScannedUser(result, env.sessionCookies.value, now))
  }

  function AfterScan(files: Files, env: ScanEnv, now: Timestamp): Files
  {
    if ScanOutcome(env, now).Some? then Saved(files, ScanOutcome(env, now), now) else files
  }

  /** A scanned account with a non-empty id reads back active with the session's cookies. */
  lemma ScannedAccountStored(files: Files, env: ScanEnv, now: Timestamp)
    requires ScanOutcome(env, now).Some?
    requires var u := ScanOutcome(env, now).value; u.userId.Some? && u.userId.value != ""
    ensures var u := ScanOutcome(env, now).value;
      Lookup(AfterScan(files, env, now), u.userId) == Some(u) && u.active && u.cookies == env.sessionCookies
  {
  }

  /**
   * What loginAndSaveCookies(userId) does to the directory `before`, having tried the accounts of
   * `listing` when no id was given: saved cookies first, the QR login only when they yield nothing;
   * the result is true when either logged in.
   */
  ghost predicate LoginEffect(before: Files, userId: Option<string>, listing: seq<UserInfo>, env: nat -> CookieCheckEnv,
                              scan: ScanEnv, now: Timestamp, ok: bool, after: Files)
  {
    && (IsNullOrEmpty(userId) ==> IsListing(before, listing))
    && var viaCookies := SavedLogin(before, userId, listing, env, now).Some?;
       var afterCookies := SavedLoginEffect(before, userId, listing, env, now);
       && ok == (viaCookies || ScanOutcome(scan, now).Some?)
       && after == (if viaCookies then afterCookies else AfterScan(afterCookies, scan, now))
  }

  /** The login service; the account store is the state it changes. */
  class LoginService {
    const users: UserService

    constructor(users: UserService)
      ensures this.users == users
    {
      this.users := users;
    }

    /** checkLoginWithCookies(user), over the browser facts `env`. */
    method CheckLoginWithCookies(user: Option<UserInfo>, env: CookieCheckEnv, now: Timestamp) returns (ok: bool)
      modifies users
      ensures ok <==> CookieCheck(user, env, now).Refreshed?
      ensures users.files == AfterCookieCheck(old(users.files), user, env, now)
    {
      if user.None? || !HasCookies(user.value) {
        return false;
      }
      if env.setupFails {
        return false;
      }
      var outcome := PollCookieCheck(env.rounds);
      if outcome.Captured? {
        if env.sessionCookies.None? {
          return false;
        }
        users.SaveUserInfo(Some(RefreshedUser(user.value, outcome.response, env.sessionCookies.value, now)), now);
        return true;
      }
      var _ := users.MarkRecordLoginExpired(user, now);
      return false;
    }

    /**
     * tryLoginWithSavedCookies(userId): only that account when an id is given; otherwise the
     * listed accounts in order until the first success. Attempt i sees the browser facts env(i).
     */
    method TryLoginWithSavedCookies(userId: Option<string>, env: nat -> CookieCheckEnv, now: Timestamp)
      returns (found: Option<UserInfo>, ghost listing: seq<UserInfo>)
      modifies users
      ensures IsNullOrEmpty(userId) ==> IsListing(old(users.files), listing)
      ensures found == SavedLogin(old(users.files), userId, listing, env, now)
      ensures users.files == SavedLoginEffect(old(users.files), userId, listing, env, now)
    {
      listing := [];
      if !IsNullOrEmpty(userId) {
        var stored := users.LoadUserInfo(userId);
        if stored.None? {
          return None, listing;
        }
        var ok := CheckLoginWithCookies(stored, env(0), now);
        found := if ok then Some(CookieCheck(stored, env(0), now).user) else None;
        return found, listing;
      }
      ghost var start := users.files;
      var all;
      ghost var names;
      all, names := users.LoadAllUsers();
      listing := all;
      found := None;
      var i := 0;
      while i < |all|
        invariant 0 <= i <= |all|
        invariant FirstSuccess(all, env, 0, now) == FirstSuccess(all, env, i, now)
        invariant TryEachEffect(start, all, env, 0, now) == TryEachEffect(users.files, all, env, i, now)
      {
        var ok := CheckLoginWithCookies(Some(all[i]), env(i), now);
        if ok {
          return Some(CookieCheck(Some(all[i]), env(i), now).user), listing;
        }
        i := i + 1;
      }
    }

    /** scanLogin, and performNewScanLogin which is scanLogin alone. */
    method ScanLogin(env: ScanEnv, now: Timestamp) returns (ok: bool)
      modifies users
      ensures ok <==> ScanOutcome(env, now).Some?
      ensures users.files == AfterScan(old(users.files), env, now)
    {
      if env.setupFails {
        return false;
      }
      var result := WaitForLoginSuccess(env.rounds);
      if !result.success || env.sessionCookies.None? {
        return false;
      }
      users.SaveUserInfo(Some(ScannedUser(result, env.sessionCookies.value, now)), now);
      return true;
    }

    /** loginAndSaveCookies(userId): saved cookies first, the QR-code login only when they yield nothing. */
    method LoginAndSaveCookies(userId: Option<string>, env: nat -> CookieCheckEnv, scan: ScanEnv, now: Timestamp)
      returns (ok: bool, ghost listing: seq<UserInfo>)
      modifies users
      ensures LoginEffect(old(users.files), userId, listing, env, scan, now, ok, users.files)
    {
      var found;
      found, listing := TryLoginWithSavedCookies(userId, env, now);
      if found.Some? {
        return true, listing;
      }
      ok := ScanLogin(scan, now);
    }

    /** checkUserLoginStatus(userId): the stored account's cookie check, false for an empty id or no account. */
    method CheckUserLoginStatus(userId: Option<string>, env: CookieCheckEnv, now: Timestamp) returns (ok: bool)
      modifies users
      ensures IsNullOrEmpty(userId) || Lookup(old(users.files), userId).None? ==> !ok && users.files == old(users.files)
      ensures ok <==> CookieCheck(Lookup(old(users.files), userId), env, now).Refreshed?
      ensures users.files == AfterCookieCheck(old(users.files), Lookup(old(users.files), userId), env, now)
    {
      if IsNullOrEmpty(userId) {
        return false;
      }
      var stored := users.LoadUserInfo(userId);
      if stored.None? {
        return false;
      }
      ok := CheckLoginWithCookies(stored, env, now);
    }
  }
}

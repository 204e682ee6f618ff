/**
 * service/ArticleCrawlService.java: searching by keyword with a stored account's cookies
 * and scraping the result cards. The page is an input: probe answers per poll round, the
 * result cards as abstract elements, and which browser steps threw.
 */
module Crawl {
  import opened Wrappers
  import opened Text
  import opened Entities
  import opened Dto
  import opened UserStore
  import opened Browser

  const BaseUrl: string := "https://www.xiaohongshu.com"
  const NotePathPrefix: string := "/search_result/"
  const AuthorPathPrefix: string := "/user/profile/"
  const DefaultTitle: string := "未获取到标题"
  const DefaultAuthor: string := "未获取到作者"
  const DefaultLikes: string := "0"
  const DefaultEstimate: int := 20

  // ---------------------------------------------------------------------------
  // checkLoginStatus: is the login expired? (Some(true) expired, Some(false) valid, None unknown)

  /**
   * One round of the login check: the logged-in probe (its backup is asked only when it
   * threw), the two logged-out probes, the "登录" text probe, and whether the 200 ms pause threw.
   */
  datatype LoginRound = LoginRound(
    loggedIn: Probe, loggedInBackup: Probe,
    loggedOut: Probe, loggedOutBackup: Probe, loginText: Probe,
    pauseFailed: bool)

  /** What one round decides: Some(false) a logged-in marker, Some(true) a logged-out marker, None neither. */
  function RoundVerdict(r: LoginRound): (v: Option<bool>)
    ensures v == Some(false) <==> r.loggedIn == Shown || (r.loggedIn == ProbeFailed && r.loggedInBackup == Shown)
    ensures v == Some(true) <==>
      (v != Some(false) && (r.loggedOut == Shown || r.loggedOutBackup == Shown || r.loginText == Shown))
  {
    if r.loggedIn == Shown then Some(false)
    else if r.loggedIn == ProbeFailed && r.loggedInBackup == Shown then Some(false)
    else if r.loggedOut == Shown || r.loggedOutBackup == Shown || r.loginText == Shown then Some(true)
    else None
  }

  /** The decision over the rounds that fit in the 10-second budget; a failing pause gives None. */
  function LoginDecision(rounds: seq<LoginRound>): Option<bool>
    decreases |rounds|
  {
    if rounds == [] then None
    else
      var v := RoundVerdict(rounds[0]);
      if v.Some? then v
      else if rounds[0].pauseFailed then None
      else LoginDecision(rounds[1..])
  }

  /** The decision is v exactly when some round decides v and every earlier round decided nothing and paused cleanly. */
  lemma {:induction false} LoginDecisionIsFirstVerdict(rounds: seq<LoginRound>, v: bool)
    ensures LoginDecision(rounds) == Some(v) <==>
      exists i :: 0 <= i < |rounds| && RoundVerdict(rounds[i]) == Some(v)
        && forall j :: 0 <= j < i ==> RoundVerdict(rounds[j]).None? && !rounds[j].pauseFailed
    decreases |rounds|
  {
    if rounds != [] {
      LoginDecisionIsFirstVerdict(rounds[1..], v);
      if RoundVerdict(rounds[0]).None? && !rounds[0].pauseFailed {
        if LoginDecision(rounds) == Some(v) {
          var i :| 0 <= i < |rounds[1..]| && RoundVerdict(rounds[1..][i]) == Some(v)
            && forall j :: 0 <= j < i ==> RoundVerdict(rounds[1..][j]).None? && !rounds[1..][j].pauseFailed;
          assert rounds[1..][i] == rounds[i + 1];
          forall j | 0 < j < i + 1
            ensures RoundVerdict(rounds[j]).None? && !rounds[j].pauseFailed
          {
            assert rounds[j] == rounds[1..][j - 1];
          }
        } else {
          forall i | 0 < i < |rounds| && RoundVerdict(rounds[i]) == Some(v)
            ensures exists j :: 0 <= j < i && !(RoundVerdict(rounds[j]).None? && !rounds[j].pauseFailed)
          {
            assert rounds[i] == rounds[1..][i - 1];
            var j :| 0 <= j < i - 1 && !(RoundVerdict(rounds[1..][j]).None? && !rounds[1..][j].pauseFailed);
            assert rounds[1..][j] == rounds[j + 1];
          }
        }
      }
    }
  }

  /** checkLoginStatus over its poll rounds. */
  method CheckLoginStatus(rounds: seq<LoginRound>) returns (expired: Option<bool>)
    ensures expired == LoginDecision(rounds)
  {
    var loggedInFound, loggedOutFound := false, false;
    var i := 0;
    while i < |rounds|
      invariant 0 <= i <= |rounds|
      invariant !loggedInFound && !loggedOutFound
      invariant LoginDecision(rounds) == LoginDecision(rounds[i..])
    {
      var r := rounds[i];
      assert rounds[i..][1..] == rounds[i + 1..];
      if r.loggedIn == Shown || (r.loggedIn == ProbeFailed && r.loggedInBackup == Shown) {
        loggedInFound := true;
        break;
      }
      if r.loggedOut == Shown || r.loggedOutBackup == Shown || r.loginText == Shown {
        loggedOutFound := true;
        break;
      }
      if r.pauseFailed {
        return None;
      }
      i := i + 1;
    }
    if loggedOutFound {
      return Some(true);
    } else if loggedInFound {
      return Some(false);
    }
    return None;
  }

  // ---------------------------------------------------------------------------
  // estimateResultCount

  /** One count selector: no element, an element with its text (maybe null), or a lookup that threw. */
  datatype CountProbe = NoElement | ElementText(text: Option<string>) | LookupError

  /** What one selector contributes: the first digit run of its text, when Integer.parseInt accepts it. */
  function CountFrom(p: CountProbe): (r: Option<int>)
    ensures r.Some? ==> 0 <= r.value <= IntMax
    ensures r.Some? ==> p.ElementText? && p.text.Some? && FirstDigitRun(p.text.value).Some?
  {
    if !p.ElementText? || p.text.None? || p.text.value == "" then None
    else
      var run := FirstDigitRun(p.text.value);
      if run.None? then None else ParseInt(run.value)
  }

  /** The first selector, in order, that yields a count; 20 when none does. */
  function EstimatedCount(probes: seq<CountProbe>): (r: int)
    ensures 0 <= r <= IntMax
    ensures (forall i :: 0 <= i < |probes| ==> CountFrom(probes[i]).None?) ==> r == DefaultEstimate
    decreases |probes|
  {
    if probes == [] then DefaultEstimate
    else
      var c := CountFrom(probes[0]);
      if c.Some? then c.value else EstimatedCount(probes[1..])
  }

  /** estimateResultCount over the selectors div.page-count, span.result-count, div.pagination. */
  method EstimateResultCount(probes: seq<CountProbe>) returns (estimate: int)
    ensures estimate == EstimatedCount(probes)
  {
    var i := 0;
    while i < |probes|
      invariant 0 <= i <= |probes|
      invariant EstimatedCount(probes) == EstimatedCount(probes[i..])
    {
      assert probes[i..][1..] == probes[i + 1..];
      var c := CountFrom(probes[i]);
      if c.Some? {
        return c.value;
      }
      i := i + 1;
    }
    return DefaultEstimate;
  }

  /** A selector whose number is too large for an int is skipped in favour of the next one. */
  lemma OverflowingCountSkipped(p: CountProbe, rest: seq<CountProbe>)
    requires p.ElementText? && p.text.Some? && FirstDigitRun(p.text.value).Some?
    requires DecimalValue(FirstDigitRun(p.text.value).value) > IntMax
    ensures EstimatedCount([p] + rest) == EstimatedCount(rest)
  {
    assert ([p] + rest)[1..] == rest;
  }

  // ---------------------------------------------------------------------------
  // Progress while notes arrive

  /** Per-note progress: 30 + floor(count * 60 / max(estimate, 1)), capped at 90. */
  function NoteProgress(count: nat, estimate: int): (p: int)
    ensures 30 <= p <= 90
  {
    var denominator := if estimate < 1 then 1 else estimate;
    var p := 30 + count * 60 / denominator;
    if p < 90 then p else 90
  }

  /** Progress grows with the number of notes received. */
  lemma NoteProgressMonotone(a: nat, b: nat, estimate: int)
    requires a <= b
    ensures NoteProgress(a, estimate) <= NoteProgress(b, estimate)
  {
    var d := if estimate < 1 then 1 else estimate;
    MulMonotone(a, b, 60);
    DivMonotone(a * 60, b * 60, d);
  }

  /** With the estimate met, the per-note progress has reached 90. */
  lemma NoteProgressAtEstimate(count: nat, estimate: int)
    requires estimate >= 1 && count >= estimate
    ensures NoteProgress(count, estimate) == 90
  {
    MulMonotone(estimate, count, 60);
    DivOfMultiple(60, estimate);
    assert 60 * estimate == estimate * 60;
    DivMonotone(estimate * 60, count * 60, estimate);
  }

  // ---------------------------------------------------------------------------
  // extractNoteInfo

  /**
   * How one cover block (tried with the primary, then perhaps the backup selector) ran, step by
   * step: the link lookup found nothing or threw; reading the link's href threw; the href was read
   * and then the img lookup or reading its src threw; or the block completed, with the img's src
   * (maybe null) when the link has an img.
   */
  datatype CoverRead =
    | NoLink
    | LinkThrew
    | HrefThrew
    | ImgThrew(href: Option<string>)
    | Read(href: Option<string>, img: Option<Option<string>>)

  /** The author link: its href (maybe null) and the name lookups inside it. */
  datatype AuthorLink = AuthorLink(href: Option<string>, name: Query<Option<string>>, nameBackup: Query<Option<string>>)

  /**
   * One result card. Each lookup has a primary and a backup selector; an element read by
   * text carries its textContent (maybe null). `anchors` are the hrefs of every <a> in the card;
   * `anchorsFail` says listing them threw, `authorHrefFails` that reading the author link's href threw
   * (both are outside any selector fallback, so they drop the card).
   */
  datatype ResultItem = ResultItem(
    cover: CoverRead, coverBackup: CoverRead,
    anchors: seq<Option<string>>, anchorsFail: bool,
    title: Query<Option<string>>, titleBackup: Query<Option<string>>,
    author: Query<AuthorLink>, authorBackup: Query<AuthorLink>, authorHrefFails: bool,
    likes: Query<Option<string>>, likesBackup: Query<Option<string>>)

  /** A href worth taking from an arbitrary anchor: non-empty and pointing at a search result. */
  predicate IsNoteHref(h: Option<string>)
  {
    h.Some? && h.value != "" && Contains(h.value, NotePathPrefix)
  }

  /** The first anchor href that is a note link. */
  function FirstNoteAnchor(anchors: seq<Option<string>>): (r: Option<string>)
    ensures r.Some? ==> exists i :: 0 <= i < |anchors| && anchors[i] == r && IsNoteHref(anchors[i])
    ensures r.None? <==> forall i :: 0 <= i < |anchors| ==> !IsNoteHref(anchors[i])
    ensures r.Some? ==> r.value != "" && Contains(r.value, NotePathPrefix)
  {
    if anchors == [] then None
    else if IsNoteHref(anchors[0]) then anchors[0]
    else
      var r := FirstNoteAnchor(anchors[1..]);
      assert forall i :: 0 < i < |anchors| ==> anchors[i] == anchors[1..][i - 1];
      r
  }

  lemma FirstNoteAnchorIsFirst(anchors: seq<Option<string>>, k: nat)
    requires k < |anchors| && IsNoteHref(anchors[k])
    requires forall i :: 0 <= i < k ==> !IsNoteHref(anchors[i])
    ensures FirstNoteAnchor(anchors) == anchors[k]
    decreases k
  {
    if k > 0 {
      FirstNoteAnchorIsFirst(anchors[1..], k - 1);
    }
  }

  /**
   * href and coverImageUrl after one cover block, from their values before it, and whether the
   * block threw. Each variable is assigned only once its read has returned.
   */
  function CoverStep(r: CoverRead, href: Option<string>, cover: Option<string>): (Option<string>, Option<string>, bool)
  {
    match r
    case NoLink => (href, cover, false)
    case LinkThrew => (href, cover, true)
    case HrefThrew => (href, cover, true)
    case ImgThrew(h) => (h, cover, true)
    case Read(h, img) => (h, if img.Some? then img.value else cover, false)
  }

  /**
   * href and coverImageUrl after the cover blocks: both start as "", the backup block runs only
   * when the primary threw, and a throw in the backup is swallowed.
   */
  function CoverFields(item: ResultItem): (Option<string>, Option<string>)
  {
    var (href, cover, threw) := CoverStep(item.cover, Some(""), Some(""));
    if !threw then (href, cover)
    else
      var (href2, cover2, _) := CoverStep(item.coverBackup, href, cover);
      (href2, cover2)
  }

  /** The href taken from the cover blocks ("" when none was read), before the anchor fallback. */
  function CoverHref(item: ResultItem): Option<string>
  {
    CoverFields(item).0
  }

  /** The card's note href: the cover's, else the first note anchor; None drops the card. */
  function NoteHref(item: ResultItem): (r: Option<string>)
    ensures r.Some? ==> r.value != ""
    ensures !IsNullOrEmpty(CoverHref(item)) ==> r == CoverHref(item)
    ensures IsNullOrEmpty(CoverHref(item)) ==> r == (if item.anchorsFail then None else FirstNoteAnchor(item.anchors))
  {
    var h := CoverHref(item);
    if !IsNullOrEmpty(h) then h
    else if item.anchorsFail then None
    else FirstNoteAnchor(item.anchors)
  }

  /** Reading the card threw outside every fallback (the author href), so extractNoteInfo returns null. */
  predicate AuthorReadThrows(item: ResultItem)
  {
    WithBackup(item.author, item.authorBackup).Hit? && item.authorHrefFails
  }

  /** The cover image src: "" unless an img's src was read, else that src (maybe null). */
  function CoverImage(item: ResultItem): Option<string>
  {
    CoverFields(item).1
  }

  /** A text read with a default: the element's textContent (maybe null) when found, else the default. */
  function TextOr(q: Query<Option<string>>, default: string): (r: Option<string>)
    ensures !q.Hit? ==> r == Some(default)
    ensures q.Hit? ==> r == q.element
  {
    if q.Hit? then q.element else Some(default)
  }

  /** The pattern prefix([^?]+) on a href: its group, else "". */
  function IdFrom(href: string, prefix: string): string
  {
    FindGroup(href, prefix).GetOr("")
  }

  /** authorUrl, authorId and authorName of a card, from its author link if any. */
  function AuthorFields(item: ResultItem): (r: (string, string, Option<string>))
    ensures var a := WithBackup(item.author, item.authorBackup);
      && (!a.Hit? ==> r == ("", "", Some(DefaultAuthor)))
      && (a.Hit? && !IsNullOrEmpty(a.element.href) ==>
           r.0 == BaseUrl + a.element.href.value && r.1 == IdFrom(a.element.href.value, AuthorPathPrefix))
      && (a.Hit? && IsNullOrEmpty(a.element.href) ==> r.0 == "" && r.1 == "")
  {
    var a := WithBackup(item.author, item.authorBackup);
    if !a.Hit? then ("", "", Some(DefaultAuthor))
    else
      var link := a.element;
      var url := if IsNullOrEmpty(link.href) then "" else BaseUrl + link.href.value;
      var id := if IsNullOrEmpty(link.href) then "" else IdFrom(link.href.value, AuthorPathPrefix);
      (url, id, TextOr(WithBackup(link.name, link.nameBackup), DefaultAuthor))
  }

  /** extractNoteInfo: the note a card yields, or None when no href can be found. */
  function ExtractNoteInfo(item: ResultItem): (r: Option<NoteInfo>)
    ensures r.None? <==> NoteHref(item).None? || AuthorReadThrows(item)
    ensures r.Some? ==>
      && r.value.noteUrl == Some(BaseUrl + NoteHref(item).value)
      && r.value.noteId == Some(IdFrom(NoteHref(item).value, NotePathPrefix))
      && r.value.title == TextOr(WithBackup(item.title, item.titleBackup), DefaultTitle)
      && r.value.likeCount == TextOr(WithBackup(item.likes, item.likesBackup), DefaultLikes)
      && r.value.coverImageUrl == CoverImage(item)
      && r.value.content.None? && r.value.tags.None? && r.value.imageUrls.None?
  {
    var href := NoteHref(item);
    if href.None? || AuthorReadThrows(item) then None
    else
      var author := AuthorFields(item);
      Some(NoteInfo(
        noteId := Some(IdFrom(href.value, NotePathPrefix)),
        noteUrl := Some(BaseUrl + href.value),
        title := TextOr(WithBackup(item.title, item.titleBackup), DefaultTitle),
        coverImageUrl := CoverImage(item),
        authorId := Some(author.1),
        authorUrl := Some(author.0),
        authorName := author.2,
        likeCount := TextOr(WithBackup(item.likes, item.likesBackup), DefaultLikes),
        content := None, tags := None, imageUrls := None))
  }

  /** A card whose href is /search_result/<id> followed by a query or nothing yields that id. */
  lemma NoteIdOfSearchHref(item: ResultItem, id: string, query: string)
    requires NoteHref(item) == Some(NotePathPrefix + id + query) && !AuthorReadThrows(item)
    requires id != "" && forall k :: 0 <= k < |id| ==> id[k] != '?'
    requires query == "" || query[0] == '?'
    ensures ExtractNoteInfo(item).Some? && ExtractNoteInfo(item).value.noteId == Some(id)
  {
    FindGroupOfPrefixed(NotePathPrefix, id, query);
  }

  /**
   * A href read before the primary block's img step threw is kept when the backup block finds no
   * link or throws before reading its own href; the card then yields a note with that href and an
   * empty cover.
   */
  lemma CoverHrefKeptAfterImgThrow(item: ResultItem)
    requires item.cover.ImgThrew? && !IsNullOrEmpty(item.cover.href)
    requires item.coverBackup.NoLink? || item.coverBackup.LinkThrew? || item.coverBackup.HrefThrew?
    requires !AuthorReadThrows(item)
    ensures NoteHref(item) == item.cover.href
    ensures ExtractNoteInfo(item).Some?
    ensures ExtractNoteInfo(item).value.noteUrl == Some(BaseUrl + item.cover.href.value)
    ensures ExtractNoteInfo(item).value.coverImageUrl == Some("")
  {
  }

  /** A backup block that reads a href replaces whatever the primary read before it threw. */
  lemma BackupHrefReplaces(item: ResultItem)
    requires item.cover.LinkThrew? || item.cover.HrefThrew? || item.cover.ImgThrew?
    requires item.coverBackup.ImgThrew? || item.coverBackup.Read?
    ensures CoverHref(item) == item.coverBackup.href
  {
  }

  /** A card whose only href-bearing data is missing or not a note link yields nothing. */
  lemma CardWithoutHrefDropped(item: ResultItem)
    requires IsNullOrEmpty(CoverHref(item))
    requires item.anchorsFail || forall i :: 0 <= i < |item.anchors| ==> !IsNoteHref(item.anchors[i])
    ensures ExtractNoteInfo(item).None?
  {
  }

  // ---------------------------------------------------------------------------
  // crawlSearchResults

  /** The result page: whether a feeds container appeared, and the cards (None when no card selector appeared). */
  datatype CrawlPage = CrawlPage(containerFound: bool, items: Option<seq<ResultItem>>)

  /** crawlSearchResults' list: the notes the cards yield, in card order; empty without a container or cards. */
  function CrawlResult(page: CrawlPage): seq<NoteInfo>
  {
    if !page.containerFound || page.items.None? then [] else Collect(ExtractNoteInfo, page.items.value)
  }

  /** A note is in the result exactly when some card yields it, and every card with a href yields one. */
  lemma CrawlResultMembers(page: CrawlPage, note: NoteInfo)
    requires page.containerFound && page.items.Some?
    ensures note in CrawlResult(page) <==>
      exists i :: 0 <= i < |page.items.value| && ExtractNoteInfo(page.items.value[i]) == Some(note)
    ensures (forall i :: 0 <= i < |page.items.value| ==>
               NoteHref(page.items.value[i]).Some? && !AuthorReadThrows(page.items.value[i])) ==>
      |CrawlResult(page)| == |page.items.value|
  {
    CollectMembers(ExtractNoteInfo, page.items.value, note);
    if forall i :: 0 <= i < |page.items.value| ==>
         NoteHref(page.items.value[i]).Some? && !AuthorReadThrows(page.items.value[i]) {
      CollectAll(ExtractNoteInfo, page.items.value);
    }
  }

  /** crawlSearchResults: the kept notes in card order, each also handed to the consumer once, in the same order. */
  method CrawlSearchResults(page: CrawlPage) returns (notes: seq<NoteInfo>, consumed: seq<NoteInfo>)
    ensures notes == CrawlResult(page)
    ensures consumed == notes
  {
    notes, consumed := [], [];
    if !page.containerFound || page.items.None? {
      return;
    }
    var items := page.items.value;
    var i := 0;
    while i < |items|
      invariant 0 <= i <= |items|
      invariant notes == Collect(ExtractNoteInfo, items[..i]) && consumed == notes
    {
      assert items[..i + 1][..i] == items[..i];
      var note := ExtractNoteInfo(items[i]);
      if note.Some? {
        notes := notes + [note.value];
        consumed := consumed + [note.value];
      }
      i := i + 1;
    }
    assert items[..|items|] == items;
  }

  // ---------------------------------------------------------------------------
  // searchWithUserCookies

  /** The callbacks of a search: progress reports and notes handed to the note consumer. */
  type SearchEvent = Event<NoteInfo>

  /** The consumer's reports for the kept notes: each note, then the progress after it. */
  function NoteEvents(notes: seq<NoteInfo>, estimate: int): (r: seq<SearchEvent>)
    ensures |r| == 2 * |notes|
  {
    if notes == [] then []
    else NoteEvents(notes[..|notes| - 1], estimate) + [Emitted(notes[|notes| - 1]), Progress(NoteProgress(|notes|, estimate))]
  }

  /**
   * The browser facts of one search: `launch` covers starting the browser and adding the cookies,
   * `openPage` opening the tab (before the page-close listener exists), `load` the navigation,
   * `closedByUser` whether that listener has fired by the time an error surfaces.
   */
  datatype SearchEnv = SearchEnv(
    launch: Stage,
    openPage: Stage,
    load: Stage,
    loginRounds: seq<LoginRound>,
    countProbes: seq<CountProbe>,
    page: CrawlPage,
    finalPause: Stage,
    closedByUser: bool)

  /** What one search produces: the result, the callback trace, and the account directory afterwards. */
  datatype SearchRun = SearchRun(result: SearchResultDTO, trace: seq<SearchEvent>, files: Files)

  /** The reference definition of searchWithUserCookies. */
  function Search(files: Files, userId: Option<string>, keyword: Option<string>, env: SearchEnv, now: Timestamp): (run: SearchRun)
  {
    if IsNullOrEmpty(userId) || IsNullOrEmpty(keyword) then SearchRun(SearchFailed(userId, keyword, Failed), [], files)
    else
      var user := Lookup(files, userId);
      if user.None? || !HasCookies(user.value) then SearchRun(SearchFailed(userId, keyword, Failed), [], files)
      else if env.launch.Threw? then SearchRun(SearchFailed(userId, keyword, ErrorStatus(env.launch.pageClosed, false)), Reports([0]), files)
      else if env.openPage.Threw? then SearchRun(SearchFailed(userId, keyword, ErrorStatus(env.openPage.pageClosed, false)), Reports([0, 10]), files)
      else if env.load.Threw? then
        SearchRun(SearchFailed(userId, keyword, ErrorStatus(env.load.pageClosed, env.closedByUser)), Reports([0, 10]), files)
      else if LoginDecision(env.loginRounds) == Some(true) then
        SearchRun(SearchFailed(userId, keyword, LoginExpired), Reports([0, 10, 20]), MarkedRecordExpired(files, user, now))
      else
        var notes := CrawlResult(env.page);
        var trace := CrawlTrace(notes, EstimatedCount(env.countProbes));
        if env.finalPause.Threw? then SearchRun(SearchFailed(userId, keyword, ErrorStatus(env.finalPause.pageClosed, env.closedByUser)), trace, files)
        else SearchRun(SearchSucceeded(userId, keyword, notes), trace, files)
  }

  /** Missing input, a missing account or an account without cookies fail at once: no callbacks, nothing stored. */
  lemma SearchRejectsBadInput(files: Files, userId: Option<string>, keyword: Option<string>, env: SearchEnv, now: Timestamp)
    requires IsNullOrEmpty(userId) || IsNullOrEmpty(keyword) || Lookup(files, userId).None? || !HasCookies(Lookup(files, userId).value)
    ensures Search(files, userId, keyword, env, now) == SearchRun(SearchFailed(userId, keyword, Failed), [], files)
  {
  }

  /** LOGIN_EXPIRED exactly when a logged-out marker decided the check; an undecided check lets the crawl go on. */
  lemma SearchLoginExpired(files: Files, userId: string, keyword: string, env: SearchEnv, now: Timestamp)
    requires userId != "" && keyword != ""
    requires Lookup(files, Some(userId)).Some? && HasCookies(Lookup(files, Some(userId)).value)
    requires env.launch == Ok && env.openPage == Ok && env.load == Ok
    ensures var run := Search(files, Some(userId), Some(keyword), env, now);
      && (run.result.status == LoginExpired <==> LoginDecision(env.loginRounds) == Some(true))
      && (run.result.status == LoginExpired ==> run.files == MarkedRecordExpired(files, Lookup(files, Some(userId)), now))
      && (LoginDecision(env.loginRounds).None? && env.finalPause == Ok ==>
            run.result.status == Success && run.result.noteList == Some(CrawlResult(env.page)))
  {
  }

  /**
   * After a LOGIN_EXPIRED search of a well-formed directory, no listing of the new directory has
   * an active account with the searched id, so a reload filtered to active accounts drops it.
   */
  lemma ExpiredSearchDropsAccount(files: Files, userId: Option<string>, keyword: Option<string>, env: SearchEnv,
                                  now: Timestamp, listing: seq<UserInfo>)
    requires WellFormed(files)
    requires Search(files, userId, keyword, env, now).result.status == LoginExpired
    requires IsListing(Search(files, userId, keyword, env, now).files, listing)
    ensures userId.Some? && userId.value != ""
    ensures forall u :: u in ActiveUsers(listing) ==> u.userId != userId
  {
    SearchExpiredMarks(files, userId, keyword, env, now);
    LookupCarriesId(files, userId.value);
    ExpiredLeavesNoActive(files, userId.value, now, listing);
    forall u | u in ActiveUsers(listing)
      ensures u.userId != userId
    {
      ActiveUsersMembers(listing, u);
    }
  }

  /** A LOGIN_EXPIRED search had an account to load, and marks that account's record expired. */
  lemma SearchExpiredMarks(files: Files, userId: Option<string>, keyword: Option<string>, env: SearchEnv, now: Timestamp)
    ensures var run := Search(files, userId, keyword, env, now);
      run.result.status == LoginExpired ==>
        && !IsNullOrEmpty(userId) && Lookup(files, userId).Some?
        && run.files == MarkedRecordExpired(files, Lookup(files, userId), now)
  {
    if IsNullOrEmpty(userId) || IsNullOrEmpty(keyword) || Lookup(files, userId).None? || !HasCookies(Lookup(files, userId).value) {
      SearchRejectsBadInput(files, userId, keyword, env, now);
    } else if env.launch.Threw? || env.openPage.Threw? || env.load.Threw? {
    } else {
      SearchLoginExpired(files, userId.value, keyword.value, env, now);
    }
  }

  /** The notes handed to the consumer are exactly the notes of the result, in order. */
  lemma {:induction false} NoteEventsEmit(notes: seq<NoteInfo>, estimate: int)
    ensures EmittedItems(NoteEvents(notes, estimate)) == notes
    ensures Percents(NoteEvents(notes, estimate)) == seq(|notes|, k requires 0 <= k < |notes| => NoteProgress(k + 1, estimate))
    decreases |notes|
  {
    if notes != [] {
      var n := |notes|;
      var init := notes[..n - 1];
      NoteEventsEmit(init, estimate);
      var p := NoteProgress(n, estimate);
      var tail: seq<SearchEvent> := [Emitted(notes[n - 1]), Progress(p)];
      EmittedAppend(NoteEvents(init, estimate), tail);
      PercentsAppend(NoteEvents(init, estimate), tail);
      PairEvents(notes[n - 1], p);
      assert init + [notes[n - 1]] == notes;
      var before := seq(n - 1, k requires 0 <= k < n - 1 => NoteProgress(k + 1, estimate));
      var after := seq(n, k requires 0 <= k < n => NoteProgress(k + 1, estimate));
      assert before + [p] == after;
    }
  }

  /** Per-note progress values rise from 30 towards 90. */
  lemma NoteProgressSteady(n: nat, estimate: int)
    ensures SteadyProgress(seq(n, k requires 0 <= k < n => NoteProgress(k + 1, estimate)))
  {
    var ps := seq(n, k requires 0 <= k < n => NoteProgress(k + 1, estimate));
    forall i, j | 0 <= i < j < |ps|
      ensures ps[i] <= ps[j]
    {
      NoteProgressMonotone(i + 1, j + 1, estimate);
    }
  }

  /** The callbacks of a search that reached the crawl: 0, 10, 20, 30, the per-note reports, then 100. */
  function CrawlTrace(notes: seq<NoteInfo>, estimate: int): seq<SearchEvent>
  {
    Reports([0, 10, 20, 30]) + NoteEvents(notes, estimate) + Reports([100])
  }

  /** The percentages of a crawl's callbacks: 0, 10, 20, 30, one per note, then 100. */
  lemma CrawlTracePercents(notes: seq<NoteInfo>, estimate: int)
    ensures Percents(CrawlTrace(notes, estimate)) == [0, 10, 20, 30] + Percents(NoteEvents(notes, estimate)) + [100]
  {
    var head: seq<SearchEvent> := Reports([0, 10, 20, 30]);
    var mid := NoteEvents(notes, estimate);
    ReportsOnly<NoteInfo>([0, 10, 20, 30]);
    ReportsOnly<NoteInfo>([100]);
    PercentsAppend(head, mid);
    PercentsAppend(head + mid, Reports([100]));
  }

  /** The notes a crawl's callbacks hand over. */
  lemma CrawlTraceEmits(notes: seq<NoteInfo>, estimate: int)
    ensures EmittedItems(CrawlTrace(notes, estimate)) == notes
  {
    var head: seq<SearchEvent> := Reports([0, 10, 20, 30]);
    var mid := NoteEvents(notes, estimate);
    ReportsOnly<NoteInfo>([0, 10, 20, 30]);
    ReportsOnly<NoteInfo>([100]);
    NoteEventsEmit(notes, estimate);
    EmittedAppend(head, mid);
    EmittedAppend(head + mid, Reports([100]));
  }

  /** The crawl's callbacks report steady progress and hand over exactly the notes. */
  lemma CrawlTraceSteady(notes: seq<NoteInfo>, estimate: int)
    ensures SteadyProgress(Percents(CrawlTrace(notes, estimate)))
    ensures EmittedItems(CrawlTrace(notes, estimate)) == notes
  {
    CrawlTracePercents(notes, estimate);
    CrawlTraceEmits(notes, estimate);
    var pm := Percents(NoteEvents(notes, estimate));
    NoteEventsEmit(notes, estimate);
    NoteProgressSteady(|notes|, estimate);
    assert pm != [] ==> 30 <= pm[0];
    var head: seq<int> := [0, 10, 20, 30];
    assert SteadyProgress(head);
    SteadyAppend(head, pm);
    SteadyAppend(head + pm, [100]);
  }

  /** The reports a search sends before it can fail: a prefix of 0, 10, 20. */
  function EarlyReports(n: nat): seq<SearchEvent>
    requires n <= 3
  {
    Reports([0, 10, 20][..n])
  }

  /** The early reports are steady and hand nothing over. */
  lemma EarlyReportsSteady(n: nat)
    requires n <= 3
    ensures SteadyProgress(Percents(EarlyReports(n))) && EmittedItems(EarlyReports(n)) == []
  {
    ReportsOnly<NoteInfo>([0, 10, 20][..n]);
    assert SteadyProgress([0, 10, 20]);
    SteadyPrefix([0, 10, 20], n);
  }

  /** Each trace a search can leave reports steady progress; the full crawl trace hands over the crawl's notes. */
  lemma TraceSteady(t: seq<SearchEvent>, notes: seq<NoteInfo>, estimate: int)
    requires (|t| <= 3 && t == EarlyReports(|t|)) || t == CrawlTrace(notes, estimate)
    ensures SteadyProgress(Percents(t))
    ensures t == CrawlTrace(notes, estimate) ==> EmittedItems(t) == notes
  {
    CrawlTraceSteady(notes, estimate);
    if |t| <= 3 && t == EarlyReports(|t|) {
      EarlyReportsSteady(|t|);
    }
  }

  /** Whatever happens, the reported progress never goes down and stays within 0..100, and the consumer sees the result's notes. */
  lemma SearchProgressSteady(files: Files, userId: Option<string>, keyword: Option<string>, env: SearchEnv, now: Timestamp)
    ensures SteadyProgress(Percents(Search(files, userId, keyword, env, now).trace))
    ensures var run := Search(files, userId, keyword, env, now);
      run.result.status == Success ==> EmittedItems(run.trace) == run.result.noteList.value
  {
    var run := Search(files, userId, keyword, env, now);
    SearchTraceShape(files, userId, keyword, env, now);
    TraceSteady(run.trace, CrawlResult(env.page), EstimatedCount(env.countProbes));
  }

  /** Every trace is a prefix of the reports 0, 10, 20 or the full crawl trace; a success has the full one and the crawl's notes. */
  lemma SearchTraceShape(files: Files, userId: Option<string>, keyword: Option<string>, env: SearchEnv, now: Timestamp)
    ensures var run := Search(files, userId, keyword, env, now);
      var t := run.trace;
      && ((|t| <= 3 && t == EarlyReports(|t|)) || t == CrawlTrace(CrawlResult(env.page), EstimatedCount(env.countProbes)))
      && (run.result.status == Success ==>
            t == CrawlTrace(CrawlResult(env.page), EstimatedCount(env.countProbes))
            && run.result.noteList == Some(CrawlResult(env.page)))
  {
    var run := Search(files, userId, keyword, env, now);
    if IsNullOrEmpty(userId) || IsNullOrEmpty(keyword) || Lookup(files, userId).None? || !HasCookies(Lookup(files, userId).value) {
      assert [0, 10, 20][..0] == [];
      assert run.trace == EarlyReports(0);
    } else if env.launch.Threw? {
      assert [0, 10, 20][..1] == [0];
      assert run.trace == EarlyReports(1);
    } else if env.openPage.Threw? || env.load.Threw? {
      assert [0, 10, 20][..2] == [0, 10];
      assert run.trace == EarlyReports(2);
    } else if LoginDecision(env.loginRounds) == Some(true) {
      assert [0, 10, 20][..3] == [0, 10, 20];
      assert run.trace == EarlyReports(3);
    }
  }

  /**
   * The crawl phase of searchWithUserCookies: estimate the result count, then hand each kept note
   * to the consumer and report the progress after it.
   */
  method CrawlAndReport(page: CrawlPage, countProbes: seq<CountProbe>) returns (notes: seq<NoteInfo>, events: seq<SearchEvent>)
    ensures notes == CrawlResult(page)
    ensures events == NoteEvents(notes, EstimatedCount(countProbes))
  {
    var estimate := EstimateResultCount(countProbes);
    var consumed;
    notes, consumed := CrawlSearchResults(page);
    events := [];
    var i := 0;
    while i < |consumed|
      invariant 0 <= i <= |consumed|
      invariant events == NoteEvents(consumed[..i], estimate)
    {
      assert consumed[..i + 1][..i] == consumed[..i];
      events := events + [Emitted(consumed[i]), Progress(NoteProgress(i + 1, estimate))];
      i := i + 1;
    }
    assert consumed[..|consumed|] == consumed;
  }

  /** The service; the account store is the state it may change. */
  class ArticleCrawlService {
    const users: UserService

    constructor(users: UserService)
      ensures this.users == users
    {
      this.users := users;
    }

    /** searchWithUserCookies, run to completion. */
    method SearchWithUserCookies(userId: Option<string>, keyword: Option<string>, env: SearchEnv, now: Timestamp)
      returns (result: SearchResultDTO, trace: seq<SearchEvent>)
      modifies users
      ensures SearchRun(result, trace, users.files) == Search(old(users.files), userId, keyword, env, now)
    {
      trace := [];
      if IsNullOrEmpty(userId) || IsNullOrEmpty(keyword) {
        return SearchFailed(userId, keyword, Failed), trace;
      }
      var user := users.LoadUserInfo(userId);
      if user.None? || !HasCookies(user.value) {
        return SearchFailed(userId, keyword, Failed), trace;
      }
      trace := Reports([0]);
      if env.launch.Threw? {
        return SearchFailed(userId, keyword, ErrorStatus(env.launch.pageClosed, false)), trace;
      }
      trace := Reports([0, 10]);
      if env.openPage.Threw? {
        return SearchFailed(userId, keyword, ErrorStatus(env.openPage.pageClosed, false)), trace;
      }
      if env.load.Threw? {
        return SearchFailed(userId, keyword, ErrorStatus(env.load.pageClosed, env.closedByUser)), trace;
      }
      trace := Reports([0, 10, 20]);
      var expired := CheckLoginStatus(env.loginRounds);
      if expired.None? {
        expired := Some(false);
      }
      if expired.value {
        var _ := users.MarkRecordLoginExpired(user, now);
        return SearchFailed(userId, keyword, LoginExpired), trace;
      }
      var notes, events := CrawlAndReport(env.page, env.countProbes);
      trace := Reports([0, 10, 20, 30]) + events + Reports([100]);
      if env.finalPause.Threw? {
        return SearchFailed(userId, keyword, ErrorStatus(env.finalPause.pageClosed, env.closedByUser)), trace;
      }
      result := SearchSucceeded(userId, keyword, notes);
    }

    /**
     * searchWithUserCookies(userId, keyword, noteConsumer): the overload without log and progress
     * callbacks, so of the callbacks only the notes handed to the consumer reach the caller.
     */
    method SearchForConsumer(userId: Option<string>, keyword: Option<string>, env: SearchEnv, now: Timestamp)
      returns (result: SearchResultDTO, delivered: seq<NoteInfo>)
      modifies users
      ensures var run := Search(old(users.files), userId, keyword, env, now);
        result == run.result && delivered == EmittedItems(run.trace) && users.files == run.files
    {
      var trace;
      result, trace := SearchWithUserCookies(userId, keyword, env, now);
      delivered := EmittedItems(trace);
    }
  }
}

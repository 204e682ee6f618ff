# RedBook note client: a verified model

The client signs in to Xiaohongshu accounts, saves them, searches with a saved account, fetches note details and republishes notes. It runs on the desktop with JavaFX and a Playwright browser. This project models its core in Dafny:

- **Account store.** Accounts are kept one JSON file per account, `user_<id>.json`, in `repository/users`.
- **Login service.** It checks saved cookies by intercepting the identity endpoint. When that fails it falls back to a QR-code login.
- **Search service.** It checks the login state, estimates the result count and scrapes the search result cards. It reports progress and hands each note over.
- **Detail service.** It reads a note's title, text, tags and slide images.
- **Publish service.** It downloads the images to scratch files and drives the publish page. A click-and-retry loop confirms publication, and the scratch files are cleaned up afterwards.
- **Result objects.** These are handed to the UI.
- **Two view models.** They hold the account lists and the in-progress flags.
- **Three controllers.** The account page covers the avatar cache, WebP detection, extension mapping and paging. The search page covers paging of the collected notes. The publish form covers the tag and image lists, the checks before publishing, and the note handed to the service.

The browser, the file system's byte-level I/O, the network and the clock are not modelled as such. Each enters as data:

- what a selector probe answered;
- the sequence of poll rounds a wait loop observes;
- whether a step threw, and whether the page had been closed;
- the HTTP results of the image downloads;
- the random UUIDs;
- the current time.

Each service method is a Dafny method over the state it changes: the account directory (`UserService.files`), the scratch directory (`NotePublishService.scratch`), or a view model's or controller's fields. A service method is proved equal to a reference function (`Search`, `FetchDetail`, `PublishNote`, `CookieCheck`, …), and the lemmas state what those functions guarantee. A view model or controller method states its new fields and the new account directory in terms of those reference functions; the view models and the publish controller share the services' `UserService` object (`store`), so what a service writes is what the view model reads back.

Modules follow the source:

| module | source |
|---|---|
| `Entities` | the entity records |
| `Dto` | the three result objects |
| `UserStore` | UserService |
| `Login` | LoginService |
| `Crawl` | ArticleCrawlService |
| `Detail` | NoteDetailService |
| `Publish` | NotePublishService |
| `CrawlViewModel`, `UserViewModel` | the view models |
| `UserController`, `CrawlController`, `PublishController` | the controllers |

The shared helper modules are:

- `Text`: Java string operations;
- `Browser`: probe and progress vocabulary;
- `Lists`: `List.indexOf`, `List.remove(Object)` and `List.set`;
- `Paging`: ten rows per page.

## Model

All source paths are under `src/main/java/com/redbook/tool/`, written out in full.

| member | source | states |
|---|---|---|
| Entities.NewUserInfo | src/main/java/com/redbook/tool/entity/UserInfo.java:14-55 | a new account has no id, no nickname and no login time, an empty cookie list, and is not active |
| Entities.NewNoteInfo | src/main/java/com/redbook/tool/entity/NoteInfo.java:13-72 | a new note has no id, title, tags or image list |
| Entities.NewUserInfoResponse | src/main/java/com/redbook/tool/entity/UserInfoResponse.java:1-54 | a new identity response has no id, gender 0 and is not a guest |
| Entities.NewLoginResult | src/main/java/com/redbook/tool/entity/LoginResult.java:15-25 | a new login result is unsuccessful, its user id is "unknown" and it has no response |
| Entities.ActiveUsers | src/main/java/com/redbook/tool/ui/viewmodel/ArticleCrawlViewModel.java:84-90 | the filtered list is no longer than the input and holds only logged-in accounts |
| Entities.ActiveUsersAppend | src/main/java/com/redbook/tool/ui/viewmodel/ArticleCrawlViewModel.java:84-90 | filtering distributes over concatenation, so kept accounts stay in input order |
| Entities.ActiveUsersMembers | src/main/java/com/redbook/tool/ui/controller/NotePublishController.java:170-175 | an account is kept exactly when it is in the input and active |
| Entities.ActiveUsersExtremes | src/main/java/com/redbook/tool/ui/controller/NotePublishController.java:170-175 | an all-active list passes unchanged; a list with no active account gives nothing |
| Dto.ErrorStatus | src/main/java/com/redbook/tool/service/ArticleCrawlService.java:326-345 | a Playwright error maps to INTERRUPTED exactly when the page was closed by the user, and to FAILED otherwise |
| Dto.SearchSucceeded | src/main/java/com/redbook/tool/dto/SearchResultDTO.java:45-52 | success carries SUCCESS, the list, the user and the keyword |
| Dto.SearchFailed | src/main/java/com/redbook/tool/dto/SearchResultDTO.java:57-63 | failed carries exactly the status given, no list, the user and the keyword |
| Dto.DetailSucceeded | src/main/java/com/redbook/tool/dto/NoteDetailDTO.java:43-50 | success carries SUCCESS, the note, the user and the URL |
| Dto.DetailFailed | src/main/java/com/redbook/tool/dto/NoteDetailDTO.java:55-61 | failed carries the status given, no note, the user and the URL |
| Dto.PublishSuccess | src/main/java/com/redbook/tool/dto/PublishResultDTO.java:50-56 | SUCCESS with the id and URL and no error message |
| Dto.PublishFail | src/main/java/com/redbook/tool/dto/PublishResultDTO.java:61-66 | FAILED with the message and no id or URL |
| Dto.PublishLoginExpiredResult | src/main/java/com/redbook/tool/dto/PublishResultDTO.java:71-76 | LOGIN_EXPIRED with its fixed message |
| Dto.PublishInterruptedResult | src/main/java/com/redbook/tool/dto/PublishResultDTO.java:81-86 | INTERRUPTED with its fixed message |
| UserStore.Persisted | src/main/java/com/redbook/tool/service/UserService.java:84-85 | a saved account reads back unchanged except that a null cookie list comes back empty |
| UserStore.Saved | src/main/java/com/redbook/tool/service/UserService.java:65-88 | the directory is unchanged for a null account or id; otherwise the file `user_<id>.json` holds the stamped, persisted account |
| UserStore.Lookup | src/main/java/com/redbook/tool/service/UserService.java:97-116 | null for a null or empty id or a missing file; otherwise exactly the account stored under `user_<id>.json` |
| UserStore.ReadableUsers | src/main/java/com/redbook/tool/service/UserService.java:141-150 | the accounts read are at most as many as the listed files |
| UserStore.Expired | src/main/java/com/redbook/tool/service/UserService.java:246-249 | an expired record is inactive, has no cookies and the current time, and keeps its profile fields |
| UserStore.MarkedExpired | src/main/java/com/redbook/tool/service/UserService.java:233-258 | the directory is unchanged when loading fails; otherwise the reloaded account is saved back as expired |
| UserStore.UserFileNameInjective | src/main/java/com/redbook/tool/service/UserService.java:33 | two ids share a file name only when they are equal |
| UserStore.UserFileNameIsListed | src/main/java/com/redbook/tool/service/UserService.java:136-139 | every account file name passes the listing filter |
| UserStore.SaveThenLoad | src/main/java/com/redbook/tool/service/UserService.java:65-116 | loading after saving gives back the saved record as persisted, now with a login time |
| UserStore.SaveLeavesOthers | src/main/java/com/redbook/tool/service/UserService.java:65-116 | saving one account leaves every other id's lookup unchanged |
| UserStore.DeleteThenLoad | src/main/java/com/redbook/tool/service/UserService.java:176-196 | after a delete, the account loads as null and every other account loads as before |
| UserStore.SavePreservesWellFormed | src/main/java/com/redbook/tool/service/UserService.java:65-88 | saving keeps every readable file named after its own account |
| UserStore.DeletePreservesWellFormed | src/main/java/com/redbook/tool/service/UserService.java:176-196 | deleting keeps every readable file named after its own account |
| UserStore.LookupCarriesId | src/main/java/com/redbook/tool/service/UserService.java:97-116 | in a well-formed directory a loaded account carries the id it was looked up by |
| UserStore.ReadableUsersExactly | src/main/java/com/redbook/tool/service/UserService.java:141-150 | an account is read exactly when some listed file holds it |
| UserStore.MarkExpiredThenLoad | src/main/java/com/redbook/tool/service/UserService.java:233-258 | after an expiry mark the account reads back inactive, with an empty cookie list and the current time |
| UserStore.ListingHoldsLoaded | src/main/java/com/redbook/tool/service/UserService.java:97-168 | an account that loads by its id is among the accounts the listing reads |
| UserStore.ListedIsLoaded | src/main/java/com/redbook/tool/service/UserService.java:97-168 | in a well-formed directory every account the listing reads carries an id, and loading that id (when non-empty) gives it back |
| UserStore.ExpiredLeavesNoActive | src/main/java/com/redbook/tool/service/UserService.java:124-258 | after an account is marked expired, no account the listing reads under its id is active |
| UserStore.UserService.SaveUserInfo | src/main/java/com/redbook/tool/service/UserService.java:65-88 | the new directory is `Saved` of the old one |
| UserStore.UserService.LoadAllUsers | src/main/java/com/redbook/tool/service/UserService.java:124-168 | every listed file is read once, in some listing order, and unreadable files are skipped |
| UserStore.UserService.DeleteUserInfo | src/main/java/com/redbook/tool/service/UserService.java:176-196 | the result is true exactly when the id is non-empty and its file existed, and that file is removed |
| UserStore.UserService.MarkUserLoginExpired | src/main/java/com/redbook/tool/service/UserService.java:233-258 | the result is true exactly when the account loads, and the new directory is `MarkedExpired` |
| UserStore.UserService.MarkRecordLoginExpired | src/main/java/com/redbook/tool/service/UserService.java:267-274 | false for a null account or id; otherwise the call goes through the account's id |
| Login.FillIdentity | src/main/java/com/redbook/tool/service/LoginService.java:196-199 | user_id, nickname, desc and gender are set only when present; the other fields are untouched |
| Login.FillImages | src/main/java/com/redbook/tool/service/LoginService.java:200-202 | "images" overrides "image"; imageb is set when present |
| Login.FillRedId | src/main/java/com/redbook/tool/service/LoginService.java:203-204 | "redId" overrides "red_id", and nothing else changes |
| Login.ReadIdentityReply | src/main/java/com/redbook/tool/service/LoginService.java:178-215 | a reply is captured exactly when success is true, data is present and not a guest, and user_id is non-empty |
| Login.GuestReplyIgnored | src/main/java/com/redbook/tool/service/LoginService.java:186-191 | a guest reply captures nothing |
| Login.LaterSpellingWins | src/main/java/com/redbook/tool/service/LoginService.java:200-204 | when both spellings are present the later setter wins |
| Login.RouteStep | src/main/java/com/redbook/tool/service/LoginService.java:400-471 | one intercepted request keeps the capture non-empty-id once set |
| Login.Route | src/main/java/com/redbook/tool/service/LoginService.java:162-224 | capture validity is kept over any sequence of requests |
| Login.RouteCapturesFirst | src/main/java/com/redbook/tool/service/LoginService.java:162-224 | the handler keeps the first reply that yields a response |
| Login.RouteKeepsCapture | src/main/java/com/redbook/tool/service/LoginService.java:163-167 | after a capture, later requests are passed through unchanged |
| Login.RouteWithoutCapture | src/main/java/com/redbook/tool/service/LoginService.java:162-224 | with no capturing reply, nothing is captured |
| Login.CheckLoop | src/main/java/com/redbook/tool/service/LoginService.java:239-265 | a captured identity always has a non-empty id |
| Login.CheckLoopCaptures | src/main/java/com/redbook/tool/service/LoginService.java:239-265 | the poll loop captures exactly when some round captures before any round ends it |
| Login.PollCookieCheck | src/main/java/com/redbook/tool/service/LoginService.java:239-265 | the loop's outcome is `CheckLoop` of its rounds |
| Login.RefreshedUser | src/main/java/com/redbook/tool/service/LoginService.java:268-282 | the refreshed account is active with the session cookies and the current time, and its profile fields come from the reply |
| Login.CookieCheck | src/main/java/com/redbook/tool/service/LoginService.java:138-304 | no work without cookies; a refresh exactly when setup succeeds, the loop captures and cookies are read; a rejection exactly when no capture |
| Login.RefreshedAccountStored | src/main/java/com/redbook/tool/service/LoginService.java:268-286 | a refreshed account reads back under the reply's id, active with the session's cookies |
| Login.RejectedAccountExpired | src/main/java/com/redbook/tool/service/LoginService.java:289-291 | a rejected account reads back inactive with an empty cookie list |
| Login.FirstSuccessIsFirst | src/main/java/com/redbook/tool/service/LoginService.java:114-124 | the accounts are tried in order; the result is the first success, or none when nothing succeeds |
| Login.SavedLoginById | src/main/java/com/redbook/tool/service/LoginService.java:86-102 | with an id only that account is tried; a missing account yields nothing and changes nothing |
| Login.ExtractUserId | src/main/java/com/redbook/tool/service/LoginService.java:557-564 | the text after "/user/profile/", or "unknown" |
| Login.ExtractUserIdOfProfile | src/main/java/com/redbook/tool/service/LoginService.java:557-564 | the id of a profile link is read back |
| Login.ScanLoopSucceedsOnlyBy | src/main/java/com/redbook/tool/service/LoginService.java:474-523 | the wait succeeds only in a round that captured an identity or found the profile link after the timeout, and a captured result carries its id |
| Login.ClosedBrowserFails | src/main/java/com/redbook/tool/service/LoginService.java:514-530 | closing the browser during a pause ends the wait unsuccessfully |
| Login.CaptureDuringFailedPauseLost | src/main/java/com/redbook/tool/service/LoginService.java:474-537 | a capture that arrives during a pause that throws for another reason is not reported |
| Login.WaitForLoginSuccess | src/main/java/com/redbook/tool/service/LoginService.java:380-549 | the wait's result is `ScanLoop` of its rounds |
| Login.ScannedUser | src/main/java/com/redbook/tool/service/LoginService.java:327-351 | the scanned account is active with the session cookies; the profile comes from the response, else the id with "未知用户" |
| Login.ScanOutcome | src/main/java/com/redbook/tool/service/LoginService.java:311-371 | an account is saved exactly when setup succeeds, the wait succeeds and cookies are read |
| Login.ScannedAccountStored | src/main/java/com/redbook/tool/service/LoginService.java:353-356 | a scanned account with an id reads back active with the session's cookies |
| Login.LoginService.CheckLoginWithCookies | src/main/java/com/redbook/tool/service/LoginService.java:138-304 | the result is true exactly for a refresh, and the directory becomes `AfterCookieCheck` |
| Login.LoginService.TryLoginWithSavedCookies | src/main/java/com/redbook/tool/service/LoginService.java:83-130 | with an id, that account only; otherwise the listing in order until the first success; both result and directory are pinned |
| Login.LoginService.ScanLogin | src/main/java/com/redbook/tool/service/LoginService.java:311-371 | the result is true exactly when `ScanOutcome` is some; performNewScanLogin is this call |
| Login.LoginService.LoginAndSaveCookies | src/main/java/com/redbook/tool/service/LoginService.java:51-75 | saved cookies first; the QR login runs only when they yield nothing; the result is the disjunction |
| Login.LoginService.CheckUserLoginStatus | src/main/java/com/redbook/tool/service/LoginService.java:572-597 | false with nothing changed for an empty id or a missing account; otherwise the stored account's cookie check |
| Crawl.RoundVerdict | src/main/java/com/redbook/tool/service/ArticleCrawlService.java:385-441 | a logged-in marker (the backup asked only when the primary threw) decides valid before any logged-out marker decides expired |
| Crawl.LoginDecisionIsFirstVerdict | src/main/java/com/redbook/tool/service/ArticleCrawlService.java:385-461 | the decision is the first round's verdict after rounds that decided nothing and paused cleanly |
| Crawl.CheckLoginStatus | src/main/java/com/redbook/tool/service/ArticleCrawlService.java:373-462 | the loop's answer is `LoginDecision` of its rounds |
| Crawl.CountFrom | src/main/java/com/redbook/tool/service/ArticleCrawlService.java:711-725 | an element with a first digit run that fits an int gives that number; otherwise nothing |
| Crawl.EstimatedCount | src/main/java/com/redbook/tool/service/ArticleCrawlService.java:700-734 | the estimate is within the int range, and 20 when no selector yields a count |
| Crawl.EstimateResultCount | src/main/java/com/redbook/tool/service/ArticleCrawlService.java:700-734 | the loop's answer is `EstimatedCount` |
| Crawl.OverflowingCountSkipped | src/main/java/com/redbook/tool/service/ArticleCrawlService.java:718-725 | a number too large for an int is skipped in favour of the next selector |
| Crawl.NoteProgress | src/main/java/com/redbook/tool/service/ArticleCrawlService.java:284-291 | per-note progress stays between 30 and 90 |
| Crawl.NoteProgressMonotone | src/main/java/com/redbook/tool/service/ArticleCrawlService.java:284-291 | per-note progress never decreases with the count |
| Crawl.NoteProgressAtEstimate | src/main/java/com/redbook/tool/service/ArticleCrawlService.java:284-291 | once the estimate is met the progress is 90 |
| Crawl.FirstNoteAnchor | src/main/java/com/redbook/tool/service/ArticleCrawlService.java:567-576 | the fallback href is a non-empty link containing "/search_result/" |
| Crawl.FirstNoteAnchorIsFirst | src/main/java/com/redbook/tool/service/ArticleCrawlService.java:567-576 | the fallback takes the first such anchor |
| Crawl.NoteHref | src/main/java/com/redbook/tool/service/ArticleCrawlService.java:533-582 | the href left by the cover blocks (the primary, then the backup only when the primary threw, each keeping what it read before a throw) when non-empty, else the first note anchor; none drops the card |
| Crawl.TextOr | src/main/java/com/redbook/tool/service/ArticleCrawlService.java:594-610 | a found element's text, else the default |
| Crawl.AuthorFields | src/main/java/com/redbook/tool/service/ArticleCrawlService.java:613-659 | the author URL and id come from a non-empty href, and the name from the name element or the default |
| Crawl.ExtractNoteInfo | src/main/java/com/redbook/tool/service/ArticleCrawlService.java:531-695 | a card with a href yields a note with base URL + href, the pattern's id, the cover src the cover blocks read ("" when none) and the defaults; otherwise null |
| Crawl.CoverHrefKeptAfterImgThrow | src/main/java/com/redbook/tool/service/ArticleCrawlService.java:537-563 | a href read before the primary block's img step threw survives a backup block that finds no link or throws, and the card yields a note with that href and an empty cover |
| Crawl.BackupHrefReplaces | src/main/java/com/redbook/tool/service/ArticleCrawlService.java:537-563 | when the primary block threw, a backup block that reads a href replaces the primary's |
| Crawl.NoteIdOfSearchHref | src/main/java/com/redbook/tool/service/ArticleCrawlService.java:584-591 | a card linking to /search_result/<id>?… yields that id |
| Crawl.CardWithoutHrefDropped | src/main/java/com/redbook/tool/service/ArticleCrawlService.java:579-582 | a card without a usable href yields nothing |
| Crawl.CrawlResultMembers | src/main/java/com/redbook/tool/service/ArticleCrawlService.java:471-526 | a note is in the result exactly when some card yields it |
| Crawl.CrawlSearchResults | src/main/java/com/redbook/tool/service/ArticleCrawlService.java:471-526 | the kept notes are in card order and each is handed to the consumer once, in the same order |
| Crawl.NoteEvents | src/main/java/com/redbook/tool/service/ArticleCrawlService.java:274-298 | each kept note produces two callback events |
| Crawl.SearchRejectsBadInput | src/main/java/com/redbook/tool/service/ArticleCrawlService.java:141-167 | missing input or an account without cookies fails at once, with no callbacks and nothing stored |
| Crawl.SearchLoginExpired | src/main/java/com/redbook/tool/service/ArticleCrawlService.java:237-256 | LOGIN_EXPIRED exactly when a logged-out marker decided, with the account marked expired; an undecided check lets the crawl proceed |
| Crawl.NoteEventsEmit | src/main/java/com/redbook/tool/service/ArticleCrawlService.java:274-298 | the consumer receives exactly the result's notes, in order |
| Crawl.NoteProgressSteady | src/main/java/com/redbook/tool/service/ArticleCrawlService.java:284-291 | per-note progress values rise within 30..90 |
| Crawl.CrawlTraceSteady | src/main/java/com/redbook/tool/service/ArticleCrawlService.java:169-307 | a crawl's callback trace reports steady progress and hands over exactly the notes |
| Crawl.SearchProgressSteady | src/main/java/com/redbook/tool/service/ArticleCrawlService.java:134-354 | on every path progress never goes down and stays within 0..100, and the consumer sees the result's notes |
| Crawl.SearchTraceShape | src/main/java/com/redbook/tool/service/ArticleCrawlService.java:134-354 | every trace is a prefix of 0, 10, 20 or the full crawl trace; a success has the full trace and the crawled list |
| Crawl.ExpiredSearchDropsAccount | src/main/java/com/redbook/tool/service/ArticleCrawlService.java:134-354 | a search ending in LOGIN_EXPIRED had a non-empty account id, and no active account the directory then lists carries it |
| Crawl.ArticleCrawlService.SearchForConsumer | src/main/java/com/redbook/tool/service/ArticleCrawlService.java:359-364 | the overload with only a note consumer: the result and directory are `Search`'s, and the consumer receives exactly the emitted notes, with no progress or status events |
| Crawl.ArticleCrawlService.SearchWithUserCookies | src/main/java/com/redbook/tool/service/ArticleCrawlService.java:134-354 | the result, callbacks and directory are `Search` of the inputs |
| Crawl.CrawlAndReport | src/main/java/com/redbook/tool/service/ArticleCrawlService.java:269-298 | the crawled list is `CrawlResult` of the page, and each note is passed on followed by its progress report capped against the estimate |
| Crawl.CrawlTracePercents | src/main/java/com/redbook/tool/service/ArticleCrawlService.java:169-306 | the reported percents of a full crawl are 0, 10, 20, 30, one per note, then 100 |
| Crawl.CrawlTraceEmits | src/main/java/com/redbook/tool/service/ArticleCrawlService.java:274-282 | a full crawl passes every crawled note to the consumer, once and in order |
| Crawl.TraceSteady | src/main/java/com/redbook/tool/service/ArticleCrawlService.java:169-306 | both a cut-short and a full trace report non-decreasing percents, and the full one emits the crawled notes |
| Detail.DecideCases | src/main/java/com/redbook/tool/service/NoteDetailService.java:293-364 | logged out exactly when a logged-out marker is the first visible element; unknown exactly when the first unhidden wait fails with a non-timeout error |
| Detail.DetailLoginStatus | src/main/java/com/redbook/tool/service/NoteDetailService.java:293-364 | the verdict of the five waits in order |
| Detail.NothingVisibleMeansLoggedIn | src/main/java/com/redbook/tool/service/NoteDetailService.java:347-349 | nothing visible in all five waits reads as logged in |
| Detail.TimeoutMeansLoggedIn | src/main/java/com/redbook/tool/service/NoteDetailService.java:351-355 | a timeout reads as logged in whatever later waits would show |
| Detail.NoteIdFromUrl | src/main/java/com/redbook/tool/service/NoteDetailService.java:481-500 | the part after the last '/', cut at the first '?'; "" when nothing follows the last '/' |
| Detail.UpToQueryIsIndexOf | src/main/java/com/redbook/tool/service/NoteDetailService.java:492-495 | cutting at the first '?' is the substring up to indexOf('?') |
| Detail.NoteIdOfUrl | src/main/java/com/redbook/tool/service/NoteDetailService.java:481-500 | the id of a URL `…/<id>` or `…/<id>?<query>` is read back |
| Detail.TitleOf | src/main/java/com/redbook/tool/service/NoteDetailService.java:377-386 | the trimmed title when the element and its text exist; otherwise unset |
| Detail.Joined | src/main/java/com/redbook/tool/service/NoteDetailService.java:393-402 | the content is present exactly when every span has text |
| Detail.TrimmedConcat | src/main/java/com/redbook/tool/service/NoteDetailService.java:397-405 | gluing two trimmed strings gives a trimmed string |
| Detail.JoinedIsTrimmed | src/main/java/com/redbook/tool/service/NoteDetailService.java:397-405 | the joined content is already trimmed |
| Detail.ContentOf | src/main/java/com/redbook/tool/service/NoteDetailService.java:389-416 | the content is unset without the element or when a span has no text |
| Detail.ContentIsJoined | src/main/java/com/redbook/tool/service/NoteDetailService.java:405-406 | the final trim never removes anything from the joined spans |
| Detail.StripHash | src/main/java/com/redbook/tool/service/NoteDetailService.java:425-428 | one leading '#' is removed |
| Detail.TagsOf | src/main/java/com/redbook/tool/service/NoteDetailService.java:419-436 | one tag per element, in order; none once a tag has no text |
| Detail.TagsOfEach | src/main/java/com/redbook/tool/service/NoteDetailService.java:423-430 | tag k is the k-th tag text, trimmed, without one leading '#' |
| Detail.SeenMembers | src/main/java/com/redbook/tool/service/NoteDetailService.java:442-448 | a string is in the processed set exactly when some slide carries it as its index |
| Detail.ImagesBounded | src/main/java/com/redbook/tool/service/NoteDetailService.java:439-465 | no more images than distinct slide indexes, and none empty |
| Detail.ImageOwners | src/main/java/com/redbook/tool/service/NoteDetailService.java:444-459 | each image comes from the first slide of its index, in slide order, so no index gives two |
| Detail.ImagesLost | src/main/java/com/redbook/tool/service/NoteDetailService.java:442-465 | the image list is lost exactly when some slide's index read threw (a repeated index included) or a first-of-index slide's image lookup threw |
| Detail.DetailOf | src/main/java/com/redbook/tool/service/NoteDetailService.java:372-473 | each field is read on its own, and a failure leaves only that field unset |
| Detail.JoinSpans | src/main/java/com/redbook/tool/service/NoteDetailService.java:393-405 | the span loop computes `Joined` |
| Detail.CollectTags | src/main/java/com/redbook/tool/service/NoteDetailService.java:419-432 | the tag loop computes `TagsOf` |
| Detail.CollectImages | src/main/java/com/redbook/tool/service/NoteDetailService.java:439-461 | the slide loop, with its set of processed indexes, computes `ImagesOf` |
| Detail.ExtractNoteDetail | src/main/java/com/redbook/tool/service/NoteDetailService.java:372-473 | the extraction computes `DetailOf` |
| Detail.FetchedNote | src/main/java/com/redbook/tool/service/NoteDetailService.java:211-217 | the returned note has the page's fields, the URL given and the id from that URL |
| Detail.FetchRejectsBadInput | src/main/java/com/redbook/tool/service/NoteDetailService.java:73-102 | missing input or an account without cookies fails at once, with no progress and nothing stored |
| Detail.FetchAfterLoad | src/main/java/com/redbook/tool/service/NoteDetailService.java:160-217 | logged out marks the account expired and gives LOGIN_EXPIRED; unknown proceeds like logged in; a title wait that fails without the user's close does not stop the fetch |
| Detail.FetchProgress | src/main/java/com/redbook/tool/service/NoteDetailService.java:104-237 | progress never goes down and stays within 0..100; a success reports 0, 10, 20, 40, 90, 100 |
| Detail.FetchSteps | src/main/java/com/redbook/tool/service/NoteDetailService.java:104-237 | every run reports a prefix of 0, 10, 20, 40, 90, 100 |
| Detail.NoteDetailService.FetchNoteDetail | src/main/java/com/redbook/tool/service/NoteDetailService.java:67-277 | the result, progress and directory are `FetchDetail` of the inputs |
| Publish.ImageExtension | src/main/java/com/redbook/tool/service/NotePublishService.java:488-501 | always one of the accepted image extensions .jpg, .jpeg, .png, .webp |
| Publish.ImageExtensionIsSuffix | src/main/java/com/redbook/tool/service/NotePublishService.java:488-501 | anything but ".jpg" is the lower-cased suffix from the last dot, which is not at position 0 |
| Publish.ImageExtensionOfSuffix | src/main/java/com/redbook/tool/service/NotePublishService.java:488-501 | a URL ending in an image extension, in any case, keeps that extension in lower case |
| Publish.ImageExtensionDefault | src/main/java/com/redbook/tool/service/NotePublishService.java:488-501 | with no dot, or a dot only at position 0, the result is ".jpg" |
| Publish.FileNameFromUrl | src/main/java/com/redbook/tool/service/NotePublishService.java:506-512 | the part after the last '/' when something follows it, else the whole URL |
| Publish.FileNameOfPath | src/main/java/com/redbook/tool/service/NotePublishService.java:506-512 | the name after a directory is read back |
| Publish.Downloads | src/main/java/com/redbook/tool/service/NotePublishService.java:452-482 | no more paths than URLs |
| Publish.DownloadsMembers | src/main/java/com/redbook/tool/service/NotePublishService.java:459-478 | a path is returned exactly when some non-blank URL downloaded successfully to it |
| Publish.LeftoversMembers | src/main/java/com/redbook/tool/service/NotePublishService.java:459-478 | a file is left unlisted exactly when some non-blank URL's copy failed after the file was created |
| Publish.DownloadsCount | src/main/java/com/redbook/tool/service/NotePublishService.java:459-478 | when every URL downloads there is one path per URL; when none downloads there are no paths |
| Publish.DownloadProgress | src/main/java/com/redbook/tool/service/NotePublishService.java:474-476 | download progress stays within 0..20 |
| Publish.DownloadReports | src/main/java/com/redbook/tool/service/NotePublishService.java:474-476 | one report per saved file |
| Publish.DownloadReportsSteady | src/main/java/com/redbook/tool/service/NotePublishService.java:474-476 | the download reports never go down and stay at most 20 |
| Publish.CountedIn | src/main/java/com/redbook/tool/service/NotePublishService.java:363-393 | the retries counted never exceed the rounds observed |
| Publish.ClickLoopCases | src/main/java/com/redbook/tool/service/NotePublishService.java:360-397 | false exactly after two counted rounds with no success before; true exactly when a success comes first |
| Publish.TwoFailuresGiveUp | src/main/java/com/redbook/tool/service/NotePublishService.java:363-396 | two failed clicks in a row end the loop with false |
| Publish.ClickPublishButton | src/main/java/com/redbook/tool/service/NotePublishService.java:360-397 | the loop's outcome is `ClickLoop` of its rounds |
| Publish.LoggedIn | src/main/java/com/redbook/tool/service/NotePublishService.java:215-223 | logged in exactly when the "登录" text is not shown; a failing probe counts as logged out |
| Publish.BrowserPhase | src/main/java/com/redbook/tool/service/NotePublishService.java:121-196 | never INTERRUPTED; SUCCESS only with images and logged in; no result only while the click loop is still polling |
| Publish.PublishNeedsActiveUser | src/main/java/com/redbook/tool/service/NotePublishService.java:99-103 | a missing or inactive account fails before any download, leaving the scratch files as they were |
| Publish.NoImageNoPublish | src/main/java/com/redbook/tool/service/NotePublishService.java:156-159 | with no downloaded image, publishing fails with "上传图片失败" once the page is ready |
| Publish.LoginTextExpires | src/main/java/com/redbook/tool/service/NotePublishService.java:138-142 | a shown or failing "登录" probe gives loginExpired() |
| Publish.ScratchCleaned | src/main/java/com/redbook/tool/service/NotePublishService.java:197-199 | once publishNote returns, the files the downloads returned are gone, while files whose copy failed midway stay; nothing else is removed |
| Publish.PollingKeepsScratch | src/main/java/com/redbook/tool/service/NotePublishService.java:179-199 | a run still waiting on the publish button keeps every file the downloads wrote, returned or not |
| Publish.BrowserPhaseSteady | src/main/java/com/redbook/tool/service/NotePublishService.java:136-184 | the browser phase reports steadily from 30, and a publication ends at 100 |
| Publish.PublishProgressSteady | src/main/java/com/redbook/tool/service/NotePublishService.java:88-210 | progress never goes down and stays within 0..100; a published note ends at 100 |
| Publish.NotePublishService.DownloadImages | src/main/java/com/redbook/tool/service/NotePublishService.java:452-482 | the paths and reports are `Downloads` and `DownloadReports`; the scratch set gains the returned files and the `Leftovers` of failed copies |
| Publish.NotePublishService.DownloadImage | src/main/java/com/redbook/tool/service/NotePublishService.java:460-479 | a blank URL or an unopened URL gives no path and no file; a copy that fails midway gives no path but leaves the file named by the UUID and the extension; a whole copy adds that file and returns it |
| Publish.DownloadPhaseSteady | src/main/java/com/redbook/tool/service/NotePublishService.java:459-478 | the download phase reports non-decreasing percents ending at 20 |
| Publish.NotePublishService.CleanupTempFiles | src/main/java/com/redbook/tool/service/NotePublishService.java:517-525 | exactly the listed files leave the scratch set |
| Publish.NotePublishService.RunBrowserPhase | src/main/java/com/redbook/tool/service/NotePublishService.java:121-196 | the result and reports are `BrowserPhase` |
| Publish.NotePublishService.PublishNoteRun | src/main/java/com/redbook/tool/service/NotePublishService.java:88-210 | the result, reports and scratch set are `PublishNote` of the inputs |
| Lists.FirstIndex | src/main/java/com/redbook/tool/ui/controller/NotePublishController.java:285 | -1 exactly when absent; otherwise the first position of the element |
| Lists.RemoveFirst | src/main/java/com/redbook/tool/ui/controller/NotePublishController.java:308 | unchanged when absent; one element shorter when present |
| Lists.RemoveFirstUndone | src/main/java/com/redbook/tool/ui/controller/NotePublishController.java:308 | only the first occurrence is removed: reinserting it at its index gives back the list, and one copy leaves the multiset |
| Lists.ReplaceFirst | src/main/java/com/redbook/tool/ui/controller/NotePublishController.java:284-288 | the length is kept |
| Lists.ReplaceFirstChanges | src/main/java/com/redbook/tool/ui/controller/NotePublishController.java:284-288 | only the first occurrence changes |
| Lists.ReplaceFirstUndone | src/main/java/com/redbook/tool/ui/controller/NotePublishController.java:284-288 | replacing back with a new tag restores the list |
| Paging.CeilPages | src/main/java/com/redbook/tool/ui/controller/UserManagementController.java:626-629 | the smallest page count whose pages hold all the items |
| Paging.PageSlice | src/main/java/com/redbook/tool/ui/controller/ArticleCrawlController.java:658-684 | at most ten rows, empty past the end, row k is item 10p+k |
| Paging.PagesArePrefix | src/main/java/com/redbook/tool/ui/controller/ArticleCrawlController.java:658-684 | the first k pages together are a prefix of the items |
| Paging.AllPagesShowAll | src/main/java/com/redbook/tool/ui/controller/UserManagementController.java:626-648 | the pages below the count show every item exactly once, in order |
| CrawlViewModel.StartOf | src/main/java/com/redbook/tool/ui/viewmodel/ArticleCrawlViewModel.java:104-124 | rejected without an active selection or with a blank keyword; otherwise the service gets the trimmed keyword |
| CrawlViewModel.StartedKeywordNotBlank | src/main/java/com/redbook/tool/ui/viewmodel/ArticleCrawlViewModel.java:114-124 | a started search never passes a blank or untrimmed keyword |
| CrawlViewModel.ArticleCrawlViewModel.ShowLoadedUsers | src/main/java/com/redbook/tool/ui/viewmodel/ArticleCrawlViewModel.java:83-94 | the list becomes the active accounts, in order, and loading ends |
| CrawlViewModel.ArticleCrawlViewModel.LoadUsers | src/main/java/com/redbook/tool/ui/viewmodel/ArticleCrawlViewModel.java:71-96 | the active accounts of one listing of the store |
| CrawlViewModel.ArticleCrawlViewModel.BeginSearch | src/main/java/com/redbook/tool/ui/viewmodel/ArticleCrawlViewModel.java:104-121 | the start is `StartOf`; the flag is raised when the search starts and otherwise kept |
| CrawlViewModel.ArticleCrawlViewModel.FinishSearch | src/main/java/com/redbook/tool/ui/viewmodel/ArticleCrawlViewModel.java:125-137 | the flag is lowered, and the accounts are reloaded exactly after LOGIN_EXPIRED |
| CrawlViewModel.ArticleCrawlViewModel.SearchWithSelectedUser | src/main/java/com/redbook/tool/ui/viewmodel/ArticleCrawlViewModel.java:104-138 | a rejected start does not touch the service, delivers nothing and keeps the flag; a started one is `Search` with the trimmed keyword, the consumer gets exactly the emitted notes, the list is reloaded exactly after LOGIN_EXPIRED (the expired account is then no longer in it and the flag is lowered), and otherwise list and flag are kept |
| CrawlViewModel.ArticleCrawlViewModel.AddNote | src/main/java/com/redbook/tool/ui/viewmodel/ArticleCrawlViewModel.java:145-149 | a null note is ignored; otherwise it is appended; the flag, the selection and the keyword are kept |
| CrawlViewModel.ArticleCrawlViewModel.ClearNotes | src/main/java/com/redbook/tool/ui/viewmodel/ArticleCrawlViewModel.java:154-156 | the notes become empty; the flag, the selection and the keyword are kept |
| UserViewModel.FirstOfUser | src/main/java/com/redbook/tool/ui/viewmodel/UserManagementViewModel.java:104-109 | -1 exactly when no entry has the id; otherwise the first such position |
| UserViewModel.RefreshedList | src/main/java/com/redbook/tool/ui/viewmodel/UserManagementViewModel.java:104-109 | the refreshed list keeps its length |
| UserViewModel.RefreshedOnlyFirst | src/main/java/com/redbook/tool/ui/viewmodel/UserManagementViewModel.java:104-109 | only the first entry with the id is replaced |
| UserViewModel.WithoutUser | src/main/java/com/redbook/tool/ui/viewmodel/UserManagementViewModel.java:201 | removal never lengthens the list |
| UserViewModel.WithoutUserMembers | src/main/java/com/redbook/tool/ui/viewmodel/UserManagementViewModel.java:201 | exactly the entries with other ids remain |
| UserViewModel.UserManagementViewModel.LoadUsers | src/main/java/com/redbook/tool/ui/viewmodel/UserManagementViewModel.java:57-81 | the list becomes one listing of the store, and the empty state says whether it is empty |
| UserViewModel.UserManagementViewModel.ReplaceUser | src/main/java/com/redbook/tool/ui/viewmodel/UserManagementViewModel.java:102-110 | the list becomes `RefreshedList` |
| UserViewModel.UserManagementViewModel.RefreshUserLoginStatus | src/main/java/com/redbook/tool/ui/viewmodel/UserManagementViewModel.java:89-120 | the store's new directory and `ok` are the account's cookie login, else its QR login; after a successful login the entry is replaced by the stored account; the login-in-progress flag is lowered, the loading flag and the empty-list flag are kept |
| UserViewModel.UserManagementViewModel.ReloadAfterLogin | src/main/java/com/redbook/tool/ui/viewmodel/UserManagementViewModel.java:136-143 | the list becomes a fresh listing, and the empty state follows it |
| UserViewModel.UserManagementViewModel.LoginNewAccount | src/main/java/com/redbook/tool/ui/viewmodel/UserManagementViewModel.java:127-153 | the store's new directory and `ok` are a login with no account id (saved accounts, then the QR login); the reload of the list happens exactly when it succeeds; the login-in-progress flag is lowered and the loading flag kept |
| UserViewModel.UserManagementViewModel.PerformNewLogin | src/main/java/com/redbook/tool/ui/viewmodel/UserManagementViewModel.java:160-187 | the result is true exactly when the QR login yields an account; the store's new directory is the QR login's; the reload happens exactly then and the list holds the scanned account when it has an id; the login-in-progress flag is lowered and the loading flag kept |
| UserViewModel.UserManagementViewModel.DeleteUser | src/main/java/com/redbook/tool/ui/viewmodel/UserManagementViewModel.java:195-207 | `ok` is true exactly when the account's file existed; that file leaves the store's directory; the entries leave the list exactly when it was removed |
| UserController.AsciiText | src/main/java/com/redbook/tool/ui/controller/UserManagementController.java:194-195 | US-ASCII decoding gives one character per byte |
| UserController.WebPHeaderBytes | src/main/java/com/redbook/tool/ui/controller/UserManagementController.java:185-202 | the text comparison is the comparison of the header bytes with "RIFF" and "WEBP" |
| UserController.WebPContainerPasses | src/main/java/com/redbook/tool/ui/controller/UserManagementController.java:185-202 | any RIFF/WEBP container passes, whatever its size and payload |
| UserController.BaseName | src/main/java/com/redbook/tool/ui/controller/UserManagementController.java:408 | the part after the last '/' |
| UserController.UserIdFromFileName | src/main/java/com/redbook/tool/ui/controller/UserManagementController.java:406-416 | an id exactly for "avatar_" names with a dot: the text between the prefix and the last dot |
| UserController.UserIdOfAvatarFileName | src/main/java/com/redbook/tool/ui/controller/UserManagementController.java:406-416 | a cache file's name gives back its id for any extension without a dot |
| UserController.BaseNameOfCachePath | src/main/java/com/redbook/tool/ui/controller/UserManagementController.java:833-835 | the cache path's file name is the avatar file name when the id has no '/' |
| UserController.FirstAvatarFrom | src/main/java/com/redbook/tool/ui/controller/UserManagementController.java:446-456 | the first format, in priority order, whose file exists |
| UserController.AvatarPriority | src/main/java/com/redbook/tool/ui/controller/UserManagementController.java:446-456 | a WebP avatar wins, and a JPEG is returned only when there is no WebP |
| UserController.ImageExtensionOfUrl | src/main/java/com/redbook/tool/ui/controller/UserManagementController.java:903-926 | "webp" for a format=webp URL; otherwise the lower-cased suffix after the path's last dot when it has one to four UTF-16 units, else "jpg" |
| UserController.ImageExtensionFallback | src/main/java/com/redbook/tool/ui/controller/UserManagementController.java:903-926 | no dot, or a suffix that is empty or longer than four UTF-16 units, gives "jpg" |
| UserController.AstralSuffixTooLong | src/main/java/com/redbook/tool/ui/controller/UserManagementController.java:916-922 | a suffix of three characters outside the Basic Multilingual Plane counts as six units and gives "jpg" |
| UserController.ExtensionOfContentType | src/main/java/com/redbook/tool/ui/controller/UserManagementController.java:931-946 | case-insensitive: webp before jpeg/jpg before png before gif; null otherwise |
| UserController.CleanedCacheKeeps | src/main/java/com/redbook/tool/ui/controller/UserManagementController.java:151-179 | only ".jpg" files holding WebP bytes are removed, the rest keep their content, and a second pass removes nothing |
| UserController.UserManagementController.CleanupOldAvatarCache | src/main/java/com/redbook/tool/ui/controller/UserManagementController.java:151-179 | the cache becomes `CleanedCache` |
| UserController.UserManagementController.FindActualAvatarFile | src/main/java/com/redbook/tool/ui/controller/UserManagementController.java:446-456 | the cache path of `FirstAvatarFrom`, or null |
| UserController.UserManagementController.CalculatePageCount | src/main/java/com/redbook/tool/ui/controller/UserManagementController.java:626-629 | the pages hold every account; no accounts gives no page |
| UserController.UserManagementController.UpdateTableViewItems | src/main/java/com/redbook/tool/ui/controller/UserManagementController.java:634-648 | the rows are the page's accounts, and none past the end |
| CrawlController.PaginationPageCount | src/main/java/com/redbook/tool/ui/controller/ArticleCrawlController.java:689-704 | at least one page; ceil(n/10) pages that hold all notes |
| CrawlController.PagesBelowCountNonEmpty | src/main/java/com/redbook/tool/ui/controller/ArticleCrawlController.java:658-704 | with notes, every page below the count shows something |
| CrawlController.ArticleCrawlController.RefreshPageData | src/main/java/com/redbook/tool/ui/controller/ArticleCrawlController.java:658-684 | the rows are `PageSlice` of the model's notes |
| CrawlController.ArticleCrawlController.UpdatePagination | src/main/java/com/redbook/tool/ui/controller/ArticleCrawlController.java:689-716 | the count is `PaginationPageCount`, the current page stays in range, falling back to the first, and the rows become that page's `PageSlice` |
| PublishController.CountLabelTellsCount | src/main/java/com/redbook/tool/ui/controller/NotePublishController.java:420-422 | different counts give different labels |
| PublishController.FormNote | src/main/java/com/redbook/tool/ui/controller/NotePublishController.java:555-567 | the note takes the form's title, content and lists, and keeps the identity of the current note |
| PublishController.NotePublishController.LoadUserList | src/main/java/com/redbook/tool/ui/controller/NotePublishController.java:162-184 | the choices are the active accounts of one listing, in order, with the first selected |
| PublishController.NotePublishController.LoadTags | src/main/java/com/redbook/tool/ui/controller/NotePublishController.java:219-236 | nothing changes for null; otherwise the tags become the given list |
| PublishController.NotePublishController.LoadImages | src/main/java/com/redbook/tool/ui/controller/NotePublishController.java:321-340 | nothing changes for null; otherwise the images become the given list and the label counts them |
| PublishController.NotePublishController.LoadNoteInfo | src/main/java/com/redbook/tool/ui/controller/NotePublishController.java:191-212 | a null note leaves the form as it was; otherwise the note is remembered and the fields, tags, images and count label are filled from it, a missing image list keeping the label |
| PublishController.NotePublishController.OnAddTag | src/main/java/com/redbook/tool/ui/controller/NotePublishController.java:428-445 | a tag is appended only when the answer is non-empty; the accounts, the title, the content and the count label are kept |
| PublishController.NotePublishController.EditTag | src/main/java/com/redbook/tool/ui/controller/NotePublishController.java:277-298 | a non-empty answer replaces the first occurrence of the old tag; the accounts, the title, the content and the count label are kept |
| PublishController.NotePublishController.RemoveTag | src/main/java/com/redbook/tool/ui/controller/NotePublishController.java:306-314 | only the first occurrence is removed; the current note, the accounts, the title, the content and the count label are kept |
| PublishController.NotePublishController.RemoveImage | src/main/java/com/redbook/tool/ui/controller/NotePublishController.java:405-422 | only the first occurrence is removed, and the label shows the new count; the accounts, the title and the content are kept |
| PublishController.NotePublishController.UpdateCurrentNoteInfo | src/main/java/com/redbook/tool/ui/controller/NotePublishController.java:555-567 | the note holds the given title and content and copies of both lists; the count label is kept |
| PublishController.NotePublishController.OnPublish | src/main/java/com/redbook/tool/ui/controller/NotePublishController.java:451-550 | the service is never called with a blank trimmed title or content or with no account; otherwise the form note is published, with a reload exactly after LOGIN_EXPIRED that selects the first account (none when empty), the selection kept otherwise; the title, content and count label are kept |
| PublishController.NotePublishController.PublishForm | src/main/java/com/redbook/tool/ui/controller/NotePublishController.java:473-550 | the form note takes the title and content with tags and images kept, is published for the account, and the user list is reloaded exactly after LOGIN_EXPIRED and its first account selected, the selection kept otherwise; the title, content and count label are kept |

## Left out

- The JavaFX widgets themselves are not modelled: cells, dialogs, alerts, progress bars, the log area, the `renewButtons` map and page switching. The dialogs enter as answers (`Option<string>`, None when cancelled), and the list state they change is modelled.
- Concurrency is not modelled. `CompletableFuture`, `Platform.runLater` and the route handler's threads are taken as sequential. Each asynchronous operation is split into the synchronous part and its completion (`BeginSearch`/`FinishSearch`), or run to its end.
- Time is an input. The waits, timeouts and deadlines are the poll rounds each loop observes, and running out of rounds counts as the deadline passing.
- Login.CheckLoop: when every later pause of the cookie check throws, the source's loop never reaches its deadline test, so `checkLoginWithCookies` never returns and writes nothing. The model ends such a run with the observed rounds as `Undetermined`, and `CookieCheck` then marks the account expired, a write the source never makes.
- Login.CheckLoop, Login.ScanLoop, Publish.ClickLoop: the loops poll for as long as there are observations. The publish button's uncounted "button gone, no upload input" round keeps the real loop going indefinitely. When the observations run out there, the model returns `StillPolling`, and `publishNote` then has no result and keeps its scratch files (`PollingKeepsScratch`).
- JSON parsing is not modelled. Hutool reading and writing is abstract: a stored file is a readable account or unreadable. `loadUserInfo` throws on an unreadable file, and here such a file reads as missing. The identity reply is a map of members.
- IOExceptions are not modelled separately. `getAllUsers` maps a failing listing to an empty list, and a directory that does not exist is the empty map.
- The image downloads are not modelled at the HTTP or byte level. `URL.openStream` and `Files.copy` are reduced to three outcomes of the i-th download: copied whole, not opened (no file), or failed midway after the file was created. The UUID file names and the two UUIDs of a published note are inputs.
- Publish.DownloadProgress: the source's `(double)(i+1)/size*20` is not modelled as a float. It is taken as the integer floor `count*20/total`, which the integer progress callback receives after truncation.
- Publish.BrowserPhase: `publishNote` never returns `interrupted()`, so that constructor is modelled (`PublishInterruptedResult`) but no path uses it. The exception text of a failed step is an input.
- UserController.ImageExtensionOfUrl: the URL's path is an input (None for a malformed URL). The URI parsing of `new URL(...)` is not modelled.
- UserController.ImageExtensionOfUrl, Text.ToLower: lower-casing maps the ASCII letters only. Java's `toLowerCase()` also maps other letters, so a suffix such as "JPÉ" gives "jpé" in the source and "jpÉ" here. The same ASCII mapping is used by `Publish.ImageExtension` and `UserController.ExtensionOfContentType`, which compare the lower-cased text with ASCII names only.
- UserViewModel.SameUser: an entry with a null id makes the source's `getUserId().equals(...)` throw. Here such an entry never matches.
- UserViewModel.UserManagementViewModel.RefreshUserLoginStatus: when the reloaded account is null, the source writes null into the list entry. The model leaves the entry as it was.
- PublishController.NotePublishController.LoadNoteInfo: a null title or content is taken to show as an empty field. `currentNote` is the caller's object in the source, so later updates alias it; the model keeps a value copy.
- PublishController.NotePublishController.LoadUserList: an empty choice list is taken to clear the selection.
- Avatar downloading (`downloadAndCacheAvatar`) and image decoding (ImageUtils) touch the network and the image codecs, so they are not modelled. Only the cache lookup, the extension mapping and the WebP cleanup are.
- BrowserManager and MainController are not part of this model. Browser contexts and pages are abstract.
- `createUserDirectory` and `getUsersDirectory` only touch the file system and return a constant.

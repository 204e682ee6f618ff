/**
 * service/NotePublishService.java: publishing a composed note through the creator page with a
 * stored account. Images are first downloaded to scratch files, which are deleted again once the
 * browser phase ends. Network reads, random names and the page are inputs.
 */
module Publish {
  import opened Wrappers
  import opened Text
  import opened Entities
  import opened Dto
  import opened UserStore
  import opened Browser

  const MaxRetryCount: nat := 2
  const NoteUrlBase: string := "https://www.xiaohongshu.com/note/"

  const UserMissingMessage: string := "用户不存在或未登录"
  const DownloadFailedPrefix: string := "下载图片失败: "
  const CannotPublishMessage: string := "无法发布笔记，请检查账号状态"
  const UploadFailedMessage: string := "上传图片失败"
  const ChooseUploadFailedMessage: string := "点击上传图文按钮失败"
  const TitleFailedMessage: string := "输入标题失败"
  const ContentFailedMessage: string := "输入正文失败"
  const PublishRetryMessage: string := "发布失败，请重试"

  // ---------------------------------------------------------------------------
  // getImageExtension, getFileNameFromUrl

  /** The extensions the upload input accepts. */
  predicate IsImageExtension(e: string)
  {
    e == ".jpg" || e == ".jpeg" || e == ".png" || e == ".webp"
  }

  /** getImageExtension: the lower-cased suffix from the last '.' (not at position 0) when it is an image extension, else ".jpg". */
  function ImageExtension(url: string): (r: string)
    ensures IsImageExtension(r)
  {
    var dot := LastIndexOf(url, '.');
    if dot > 0 && IsImageExtension(ToLower(url[dot..])) then ToLower(url[dot..]) else ".jpg"
  }

  /** Any extension but the default is the URL's own suffix from its last dot, lower-cased. */
  lemma ImageExtensionIsSuffix(url: string)
    ensures var dot := LastIndexOf(url, '.');
      ImageExtension(url) != ".jpg" ==> dot > 0 && ImageExtension(url) == ToLower(url[dot..])
  {
  }

  /** A URL ending in an image extension, in any letter case, keeps that extension in lower case. */
  lemma ImageExtensionOfSuffix(base: string, ext: string)
    requires base != "" && IsImageExtension(ToLower(ext)) && ext != "" && ext[0] == '.'
    requires forall k :: 1 <= k < |ext| ==> ext[k] != '.'
    ensures ImageExtension(base + ext) == ToLower(ext)
  {
    assert base + ext == base + ['.'] + ext[1..];
    LastIndexOfAppend(base, '.', ext[1..]);
    assert (base + ext)[|base|..] == ext;
  }

  /** A dot only at the very start, or none at all, gives the default. */
  lemma ImageExtensionDefault(url: string)
    requires forall k :: 0 < k < |url| ==> url[k] != '.'
    ensures ImageExtension(url) == ".jpg"
  {
  }

  /** getFileNameFromUrl: after the last '/', unless nothing follows it; otherwise the whole URL. */
  function FileNameFromUrl(url: string): (r: string)
    ensures var slash := LastIndexOf(url, '/');
      && (0 <= slash < |url| - 1 ==> r == url[slash + 1..] && r != "" && forall k :: 0 <= k < |r| ==> r[k] != '/')
      && (slash == -1 || slash == |url| - 1 ==> r == url)
  {
    var slash := LastIndexOf(url, '/');
    if slash >= 0 && slash < |url| - 1 then url[slash + 1..] else url
  }

  /** The name after a directory is read back. */
  lemma FileNameOfPath(dir: string, name: string)
    requires name != "" && forall k :: 0 <= k < |name| ==> name[k] != '/'
    ensures FileNameFromUrl(dir + "/" + name) == name
  {
    assert dir + "/" + name == dir + ['/'] + name;
    LastIndexOfAppend(dir, '/', name);
    assert (dir + "/" + name)[|dir| + 1..] == name;
  }

  // ---------------------------------------------------------------------------
  // downloadImages

  /** Paths.get(dir, name).toString(). */
  function ScratchPath(dir: string, name: string): string
  {
    if EndsWith(dir, "/") then dir + name else dir + "/" + name
  }

  /** The files a list of paths names. */
  function PathSet(paths: seq<string>): (r: set<string>)
    ensures forall p :: p in r <==> p in paths
  {
    set p | p in paths
  }

  lemma PathSetAppend(paths: seq<string>, p: string)
    ensures PathSet(paths + [p]) == PathSet(paths) + {p}
  {
  }

  /**
   * How one download went: the file was copied whole; the URL could not be opened, so no file was
   * created; or the copy failed midway, after Files.copy had created the file.
   */
  datatype Fetch = Copied | OpenFailed | CopyFailed

  /**
   * The network and the random names a download run sees: how the i-th URL's download went, and
   * the random UUID drawn for it.
   */
  datatype DownloadEnv = DownloadEnv(fetch: nat -> Fetch, uuid: nat -> string, tempDir: string)

  /** The scratch file the i-th URL, url, is saved to. */
  function ScratchFile(env: DownloadEnv, url: string, i: nat): string
  {
    ScratchPath(env.tempDir, env.uuid(i) + ImageExtension(url))
  }

  /** The i-th URL, url, yields a scratch file: it is not blank and its download succeeded. */
  predicate Downloaded(env: DownloadEnv, url: string, i: nat)
  {
    !IsBlank(Some(url)) && env.fetch(i) == Copied
  }

  /** The URLs with their positions: the i-th random UUID goes with the i-th URL. */
  function Numbered(urls: seq<string>): (r: seq<(nat, string)>)
    ensures |r| == |urls|
    ensures forall i :: 0 <= i < |urls| ==> r[i] == (i, urls[i])
  {
    seq(|urls|, i requires 0 <= i < |urls| => (i, urls[i]))
  }

  /** What one numbered URL yields: its scratch file when it was downloaded, else nothing. */
  function SaveOf(env: DownloadEnv): ((nat, string)) -> Option<string>
  {
    (u: (nat, string)) => if Downloaded(env, u.1, u.0) then Some(ScratchFile(env, u.1, u.0)) else None
  }

  /** The file a present value names: none for None. */
  function AsSet(o: Option<string>): set<string>
  {
    if o.Some? then {o.value} else {}
  }

  /** What one numbered URL leaves behind unlisted: its scratch file when the copy failed midway, else nothing. */
  function LeftOf(env: DownloadEnv): ((nat, string)) -> Option<string>
  {
    (u: (nat, string)) => if !IsBlank(Some(u.1)) && env.fetch(u.0) == CopyFailed then Some(ScratchFile(env, u.1, u.0)) else None
  }

  /** The partly copied files a download run leaves in the scratch directory without returning them. */
  function Leftovers(env: DownloadEnv, urls: seq<string>): set<string>
  {
    PathSet(Collect(LeftOf(env), Numbered(urls)))
  }

  /** One more URL adds its partly copied file, if any. */
  lemma LeftoversStep(env: DownloadEnv, urls: seq<string>, i: nat)
    requires i < |urls|
    ensures Leftovers(env, urls[..i + 1]) == Leftovers(env, urls[..i]) + AsSet(LeftOf(env)((i, urls[i])))
  {
    var x: (nat, string) := (i, urls[i]);
    assert Numbered(urls[..i + 1]) == Numbered(urls[..i]) + [x];
    CollectAppend(LeftOf(env), Numbered(urls[..i]), [x]);
    assert [x][..0] == [];
    var left := LeftOf(env)(x);
    if left.Some? {
      PathSetAppend(Collect(LeftOf(env), Numbered(urls[..i])), left.value);
    } else {
      assert Collect(LeftOf(env), [x]) == [];
    }
  }

  /** One URL of the download loop: the returned paths and the scratch directory after it. */
  lemma DownloadStepState(env: DownloadEnv, urls: seq<string>, i: nat, start: set<string>, paths: seq<string>,
                          before: set<string>, path: Option<string>, after: set<string>)
    requires i < |urls| && paths == Downloads(env, urls[..i])
    requires before == start + PathSet(paths) + Leftovers(env, urls[..i])
    requires path == SaveOf(env)((i, urls[i]))
    requires after == before + AsSet(path) + AsSet(LeftOf(env)((i, urls[i])))
    ensures Downloads(env, urls[..i + 1]) == paths + (if path.Some? then [path.value] else [])
    ensures after == start + PathSet(Downloads(env, urls[..i + 1])) + Leftovers(env, urls[..i + 1])
  {
    DownloadsStep(env, urls, i);
    LeftoversStep(env, urls, i);
    var next := paths + (if path.Some? then [path.value] else []);
    assert PathSet(next) == PathSet(paths) + AsSet(path) by {
      if path.Some? {
        PathSetAppend(paths, path.value);
      } else {
        assert next == paths;
      }
    }
    UnionRegroup(start, PathSet(paths), Leftovers(env, urls[..i]), AsSet(path), AsSet(LeftOf(env)((i, urls[i]))));
  }

  lemma UnionRegroup(a: set<string>, listed: set<string>, unlisted: set<string>, x: set<string>, y: set<string>)
    ensures a + listed + unlisted + x + y == a + (listed + x) + (unlisted + y)
  {
  }

  /** The i-th URL's copy failed midway on the file p. */
  predicate LeftAt(env: DownloadEnv, url: string, i: nat, p: string)
  {
    !IsBlank(Some(url)) && env.fetch(i) == CopyFailed && ScratchFile(env, url, i) == p
  }

  /** A file is left over exactly when some non-blank URL's copy failed midway on it. */
  lemma LeftoversMembers(env: DownloadEnv, urls: seq<string>, p: string)
    ensures p in Leftovers(env, urls) <==> exists i :: 0 <= i < |urls| && LeftAt(env, urls[i], i, p)
  {
    var xs := Numbered(urls);
    CollectMembers(LeftOf(env), xs, p);
    forall i | 0 <= i < |urls|
      ensures LeftOf(env)(xs[i]) == Some(p) <==> LeftAt(env, urls[i], i, p)
    {
      assert xs[i] == (i, urls[i]);
    }
  }

  /** The local paths downloadImages returns, in input order. */
  function Downloads(env: DownloadEnv, urls: seq<string>): (paths: seq<string>)
    ensures |paths| <= |urls|
  {
    Collect(SaveOf(env), Numbered(urls))
  }

  /** One more URL adds its scratch file exactly when it is downloaded. */
  lemma DownloadsStep(env: DownloadEnv, urls: seq<string>, i: nat)
    requires i < |urls|
    ensures var saved := SaveOf(env)((i, urls[i]));
      Downloads(env, urls[..i + 1]) == Downloads(env, urls[..i]) + (if saved.Some? then [saved.value] else [])
  {
    var x: (nat, string) := (i, urls[i]);
    assert Numbered(urls[..i + 1]) == Numbered(urls[..i]) + [x];
    CollectAppend(SaveOf(env), Numbered(urls[..i]), [x]);
    assert [x][..0] == [];
  }

  /** One more saved file adds one report. */
  lemma DownloadReportsStep(saved: nat, total: nat)
    requires saved < total
    ensures DownloadReports(saved + 1, total) == DownloadReports(saved, total) + [DownloadProgress(saved + 1, total)]
  {
  }

  /** The i-th URL was saved to p. */
  predicate SavedTo(env: DownloadEnv, url: string, i: nat, p: string)
  {
    Downloaded(env, url, i) && ScratchFile(env, url, i) == p
  }

  /** A path is returned exactly when some non-blank, fetched URL was saved to it. */
  lemma DownloadsMembers(env: DownloadEnv, urls: seq<string>, p: string)
    ensures p in Downloads(env, urls) <==> exists i :: 0 <= i < |urls| && SavedTo(env, urls[i], i, p)
  {
    var xs := Numbered(urls);
    CollectMembers(SaveOf(env), xs, p);
    forall i | 0 <= i < |urls|
      ensures SaveOf(env)(xs[i]) == Some(p) <==> SavedTo(env, urls[i], i, p)
    {
      assert xs[i] == (i, urls[i]);
    }
  }

  /** Blank URLs and failed downloads are skipped; nothing else is. */
  lemma DownloadsCount(env: DownloadEnv, urls: seq<string>)
    ensures (forall i :: 0 <= i < |urls| ==> Downloaded(env, urls[i], i)) ==> |Downloads(env, urls)| == |urls|
    ensures (forall i :: 0 <= i < |urls| ==> !Downloaded(env, urls[i], i)) ==> Downloads(env, urls) == []
  {
    var xs := Numbered(urls);
    if forall i :: 0 <= i < |urls| ==> Downloaded(env, urls[i], i) {
      forall i | 0 <= i < |xs|
        ensures SaveOf(env)(xs[i]).Some?
      {
        assert xs[i] == (i, urls[i]);
      }
      CollectAll(SaveOf(env), xs);
    }
    if (forall i :: 0 <= i < |urls| ==> !Downloaded(env, urls[i], i)) && Downloads(env, urls) != [] {
      var p := Downloads(env, urls)[0];
      DownloadsMembers(env, urls, p);
      assert false;
    }
  }

  /** The progress after the k-th successful download: floor(k * 20 / total). */
  function DownloadProgress(count: nat, total: nat): (p: int)
    requires 0 < count <= total
    ensures 0 < p <= 20 || (p == 0 && count * 20 < total)
  {
    count * 20 / total
  }

  /** The progress reports of a download run: one per saved file. */
  function DownloadReports(saved: nat, total: nat): (ps: seq<int>)
    requires saved <= total
    ensures |ps| == saved
    ensures forall k :: 0 <= k < saved ==> ps[k] == DownloadProgress(k + 1, total)
  {
    seq(saved, k requires 0 <= k < saved => DownloadProgress(k + 1, total))
  }

  /** Download progress never goes down and never passes 20. */
  lemma DownloadReportsSteady(saved: nat, total: nat)
    requires saved <= total
    ensures SteadyProgress(DownloadReports(saved, total))
    ensures forall k :: 0 <= k < saved ==> DownloadReports(saved, total)[k] <= 20
  {
    var ps := DownloadReports(saved, total);
    forall i, j | 0 <= i < j < saved
      ensures ps[i] <= ps[j]
    {
      MulMonotone(i + 1, j + 1, 20);
      DivMonotone((i + 1) * 20, (j + 1) * 20, total);
    }
  }

  // ---------------------------------------------------------------------------
  // clickPublishButton

  /**
   * One pass of the publish loop: the button lookup, the click or a later check threw; the success
   * marker appeared; the wait timed out with the button still visible; or it timed out with the button
   * gone, and the upload input did or did not come back within 5 seconds.
   */
  datatype ClickRound = ClickThrew | SuccessShown | StillOnButton | ButtonGone(uploadBack: bool)

  /** How the loop ended: true or false returned, or still looping when the observed rounds ran out. */
  datatype ClickOutcome = Clicked(ok: bool) | StillPolling

  /** A pass that increments the retry counter. */
  predicate Counted(r: ClickRound)
  {
    r == ClickThrew || r == StillOnButton
  }

  /** A pass that returns true. */
  predicate Succeeds(r: ClickRound)
  {
    r == SuccessShown || r == ButtonGone(true)
  }

  /** The loop with `retries` counted so far; the ButtonGone(false) pass loops without counting. */
  function ClickLoop(rounds: seq<ClickRound>, retries: nat): ClickOutcome
    decreases |rounds|
  {
    if retries >= MaxRetryCount then Clicked(false)
    else if rounds == [] then StillPolling
    else if Succeeds(rounds[0]) then Clicked(true)
    else if Counted(rounds[0]) then ClickLoop(rounds[1..], retries + 1)
    else ClickLoop(rounds[1..], retries)
  }

  /** The number of counted passes. */
  function CountedIn(rounds: seq<ClickRound>): (n: nat)
    ensures n <= |rounds|
  {
    if rounds == [] then 0 else (if Counted(rounds[0]) then 1 else 0) + CountedIn(rounds[1..])
  }

  /** No pass succeeds. */
  predicate NoSuccess(rounds: seq<ClickRound>)
  {
    forall k :: 0 <= k < |rounds| ==> !Succeeds(rounds[k])
  }

  /**
   * clickPublishButton returns false exactly when some prefix without a success holds the remaining
   * number of counted passes, and true exactly when a success comes before that.
   */
  lemma {:induction false} ClickLoopCases(rounds: seq<ClickRound>, retries: nat)
    requires retries <= MaxRetryCount
    ensures ClickLoop(rounds, retries) == Clicked(false) <==>
      exists i :: 0 <= i <= |rounds| && NoSuccess(rounds[..i]) && retries + CountedIn(rounds[..i]) == MaxRetryCount
    ensures ClickLoop(rounds, retries) == Clicked(true) <==>
      exists i :: 0 <= i < |rounds| && Succeeds(rounds[i]) && NoSuccess(rounds[..i]) && retries + CountedIn(rounds[..i]) < MaxRetryCount
    decreases |rounds|
  {
    assert rounds[..0] == [];
    if retries < MaxRetryCount && rounds != [] {
      var r := rounds[0];
      var rest := rounds[1..];
      var next := if Counted(r) then retries + 1 else retries;
      ClickLoopCases(rest, next);
      forall i | 0 < i <= |rounds|
        ensures rounds[..i] == [r] + rest[..i - 1]
        ensures NoSuccess(rounds[..i]) <==> !Succeeds(r) && NoSuccess(rest[..i - 1])
        ensures retries + CountedIn(rounds[..i]) == next + CountedIn(rest[..i - 1])
      {
        assert rounds[..i] == [r] + rest[..i - 1];
        assert ([r] + rest[..i - 1])[1..] == rest[..i - 1];
        if NoSuccess(rest[..i - 1]) && !Succeeds(r) {
          forall k | 0 <= k < i
            ensures !Succeeds(rounds[..i][k])
          {
            if k > 0 {
              assert rounds[..i][k] == rest[..i - 1][k - 1];
            }
          }
        }
        if NoSuccess(rounds[..i]) {
          assert rounds[..i][0] == r;
          var later := rest[..i - 1];
          forall k | 0 <= k < |later|
            ensures !Succeeds(later[k])
          {
            assert later[k] == rounds[..i][k + 1];
          }
        }
      }
      if Succeeds(r) {
        assert Succeeds(rounds[0]) && NoSuccess(rounds[..0]);
        forall i | 0 < i <= |rounds|
          ensures !NoSuccess(rounds[..i])
        {
          assert rounds[..i][0] == r;
        }
      } else {
        if ClickLoop(rounds, retries) == Clicked(false) {
          var i :| 0 <= i <= |rest| && NoSuccess(rest[..i]) && next + CountedIn(rest[..i]) == MaxRetryCount;
          assert NoSuccess(rounds[..i + 1]) && retries + CountedIn(rounds[..i + 1]) == MaxRetryCount;
        }
        if ClickLoop(rounds, retries) == Clicked(true) {
          var i :| 0 <= i < |rest| && Succeeds(rest[i]) && NoSuccess(rest[..i]) && next + CountedIn(rest[..i]) < MaxRetryCount;
          assert rounds[i + 1] == rest[i];
          assert NoSuccess(rounds[..i + 1]) && retries + CountedIn(rounds[..i + 1]) < MaxRetryCount;
        }
      }
    }
  }

  /** At most MaxRetryCount counted passes are made: two failures in a row end the loop with false. */
  lemma TwoFailuresGiveUp(a: ClickRound, b: ClickRound, rest: seq<ClickRound>)
    requires Counted(a) && Counted(b)
    ensures ClickLoop([a, b] + rest, 0) == Clicked(false)
  {
    assert ([a, b] + rest)[1..] == [b] + rest;
    assert ([b] + rest)[1..] == rest;
    assert ClickLoop([b] + rest, 1) == ClickLoop(rest, 2);
  }

  /** clickPublishButton, over the rounds it observes. */
  method ClickPublishButton(rounds: seq<ClickRound>) returns (outcome: ClickOutcome)
    ensures outcome == ClickLoop(rounds, 0)
  {
    var retries: nat := 0;
    var i := 0;
    while retries < MaxRetryCount
      invariant 0 <= i <= |rounds|
      invariant ClickLoop(rounds, 0) == ClickLoop(rounds[i..], retries)
      decreases |rounds| - i
    {
      if i == |rounds| {
        return StillPolling;
      }
      var r := rounds[i];
      assert rounds[i..][1..] == rounds[i + 1..];
      i := i + 1;
      if r == SuccessShown {
        return Clicked(true);
      }
      if r == StillOnButton || r == ClickThrew {
        retries := retries + 1;
      } else if r == ButtonGone(true) {
        return Clicked(true);
      }
    }
    return Clicked(false);
  }

  // ---------------------------------------------------------------------------
  // publishNote

  /** A browser step that may throw, with the exception's message (maybe null). */
  datatype Step = Done | Raised(message: Option<string>)

  /** canPublish: the upload input appeared, the 5-second wait timed out, or it failed otherwise. */
  datatype Readiness = Ready | NotReady | ReadyCheckThrew(message: Option<string>)

  /**
   * The facts of one publish run. `nullListText` is how the NullPointerException for a note without
   * an image list renders its message; `open` covers getting the context, adding cookies, opening and
   * loading the creator page; `loginText` the probe for the "登录" text; `uploads` whether the upload
   * input appeared and the preview followed; `noteUuid`/`urlUuid` the two random ids drawn at the end.
   */
  datatype PublishEnv = PublishEnv(
    downloads: DownloadEnv,
    nullListText: string,
    open: Step,
    loginText: Probe,
    ready: Readiness,
    chooseUpload: bool,
    uploads: bool,
    titleTyped: bool,
    contentTyped: bool,
    clicks: seq<ClickRound>,
    noteUuid: string,
    urlUuid: string)

  /** isLoggedIn: the "登录" text is not visible; a failing probe counts as logged out. */
  function LoggedIn(p: Probe): (b: bool)
    ensures b <==> p == NotShown
  {
    p == NotShown
  }

  /**
   * What one publish run produces: the result (None while the click loop is still running when
   * the observations end), the progress reports, and the scratch files afterwards.
   */
  datatype PublishRun = PublishRun(result: Option<PublishResultDTO>, progress: seq<int>, scratch: set<string>)

  /** The browser phase, after the downloads: its result and the progress it reports. */
  function BrowserPhase(note: NoteInfo, paths: seq<string>, env: PublishEnv): (r: (Option<PublishResultDTO>, seq<int>))
    ensures r.0.Some? ==> r.0.value.status != PublishInterrupted
    ensures r.0.Some? && r.0.value.status == Published ==> paths != [] && LoggedIn(env.loginText)
    ensures r.0.None? ==> ClickLoop(env.clicks, 0) == StillPolling
  {
    if env.open.Raised? then (Some(PublishFail(env.open.message)), [])
    else if !LoggedIn(env.loginText) then (Some(PublishLoginExpiredResult()), [30])
    else if env.ready.NotReady? then (Some(PublishFail(Some(CannotPublishMessage))), [30])
    else if env.ready.ReadyCheckThrew? then (Some(PublishFail(env.ready.message)), [30])
    else if !env.chooseUpload then (Some(PublishFail(Some(ChooseUploadFailedMessage))), [30])
    else if paths == [] || !env.uploads then (Some(PublishFail(Some(UploadFailedMessage))), [30, 40])
    else if !env.titleTyped then (Some(PublishFail(Some(TitleFailedMessage))), [30, 40, 60])
    else if !env.contentTyped then (Some(PublishFail(Some(ContentFailedMessage))), [30, 40, 60])
    else
      var click := ClickLoop(env.clicks, 0);
      if click.StillPolling? then (None, [30, 40, 60, 70, 80])
      else if !click.ok then (Some(PublishFail(Some(PublishRetryMessage))), [30, 40, 60, 70, 80])
      else (Some(PublishSuccess(Some(env.noteUuid), Some(NoteUrlBase + env.urlUuid))), [30, 40, 60, 70, 80, 100])
  }

  /** The reference definition of publishNote. */
  function PublishNote(files: Files, scratch: set<string>, userId: Option<string>, note: NoteInfo, env: PublishEnv): (run: PublishRun)
  {
    var user := Lookup(files, userId);
    if user.None? || !user.value.active then PublishRun(Some(PublishFail(Some(UserMissingMessage))), [0], scratch)
    else if note.imageUrls.None? then
      PublishRun(Some(PublishFail(Some(DownloadFailedPrefix + env.nullListText))), [0], scratch)
    else
      var urls := note.imageUrls.value;
      var paths := Downloads(env.downloads, urls);
      var saved := [0] + DownloadReports(|paths|, |urls|) + [20];
      var (result, progress) := BrowserPhase(note, paths, env);
      var written := scratch + PathSet(paths) + Leftovers(env.downloads, urls);
      var left := if result.Some? then written - PathSet(paths) else written;
      PublishRun(result, saved + progress, left)
  }

  /** A missing or inactive account fails before any download: no scratch file is written. */
  lemma PublishNeedsActiveUser(files: Files, scratch: set<string>, userId: Option<string>, note: NoteInfo, env: PublishEnv)
    requires Lookup(files, userId).None? || !Lookup(files, userId).value.active
    ensures PublishNote(files, scratch, userId, note, env) == PublishRun(Some(PublishFail(Some(UserMissingMessage))), [0], scratch)
  {
  }

  /** Without a downloaded image, publishing fails with "上传图片失败" once the page is ready. */
  lemma NoImageNoPublish(files: Files, scratch: set<string>, userId: Option<string>, note: NoteInfo, env: PublishEnv)
    requires Lookup(files, userId).Some? && Lookup(files, userId).value.active && note.imageUrls.Some?
    requires Downloads(env.downloads, note.imageUrls.value) == []
    requires env.open == Done && LoggedIn(env.loginText) && env.ready == Ready && env.chooseUpload
    ensures PublishNote(files, scratch, userId, note, env).result == Some(PublishFail(Some(UploadFailedMessage)))
  {
  }

  /** A shown or failing "登录" probe gives loginExpired() on an opened page. */
  lemma LoginTextExpires(files: Files, scratch: set<string>, userId: Option<string>, note: NoteInfo, env: PublishEnv)
    requires Lookup(files, userId).Some? && Lookup(files, userId).value.active && note.imageUrls.Some?
    requires env.open == Done && env.loginText != NotShown
    ensures PublishNote(files, scratch, userId, note, env).result == Some(PublishLoginExpiredResult())
  {
  }

  /**
   * Once the downloads ran, every exit of the browser phase deletes exactly the scratch files the
   * downloads returned; a file whose copy failed midway stays. An exit before the downloads leaves
   * the scratch files as they were.
   */
  lemma ScratchCleaned(files: Files, scratch: set<string>, userId: Option<string>, note: NoteInfo, env: PublishEnv, p: string)
    ensures var run := PublishNote(files, scratch, userId, note, env);
      var user := Lookup(files, userId);
      && (user.None? || !user.value.active || note.imageUrls.None? ==> run.scratch == scratch)
      && (user.Some? && user.value.active && note.imageUrls.Some? && run.result.Some? ==>
            (p in run.scratch <==>
               (p in scratch || p in Leftovers(env.downloads, note.imageUrls.value))
               && p !in Downloads(env.downloads, note.imageUrls.value)))
  {
  }

  /** A run still waiting on the publish button keeps every file the downloads wrote. */
  lemma PollingKeepsScratch(files: Files, scratch: set<string>, userId: Option<string>, note: NoteInfo, env: PublishEnv, p: string)
    requires PublishNote(files, scratch, userId, note, env).result.None?
    ensures note.imageUrls.Some?
    ensures var run := PublishNote(files, scratch, userId, note, env);
      p in run.scratch <==>
        p in scratch || p in Downloads(env.downloads, note.imageUrls.value) || p in Leftovers(env.downloads, note.imageUrls.value)
  {
  }

  /** The browser phase reports steadily from 30 on, and a publication ends at 100. */
  lemma BrowserPhaseSteady(note: NoteInfo, paths: seq<string>, env: PublishEnv)
    ensures var (result, ps) := BrowserPhase(note, paths, env);
      && SteadyProgress(ps)
      && (ps != [] ==> ps[0] == 30)
      && (result.Some? && result.value.status == Published ==> ps != [] && ps[|ps| - 1] == 100)
  {
    var (result, ps) := BrowserPhase(note, paths, env);
    var full := [30, 40, 60, 70, 80, 100];
    assert |ps| <= 6 && ps == full[..|ps|];
    assert SteadyProgress(full);
    SteadyPrefix(full, |ps|);
  }

  /** The download phase reports 0, one value per saved file, then 20: steadily. */
  lemma DownloadPhaseSteady(saved: nat, total: nat)
    requires saved <= total
    ensures var ps := [0] + DownloadReports(saved, total) + [20];
      SteadyProgress(ps) && ps[|ps| - 1] == 20
  {
    var reports := DownloadReports(saved, total);
    DownloadReportsSteady(saved, total);
    SteadyAppend([0], reports);
    SteadyAppend([0] + reports, [20]);
  }

  /** Progress never goes down and stays within 0..100; a published note ends at 100. */
  lemma PublishProgressSteady(files: Files, scratch: set<string>, userId: Option<string>, note: NoteInfo, env: PublishEnv)
    ensures SteadyProgress(PublishNote(files, scratch, userId, note, env).progress)
    ensures var run := PublishNote(files, scratch, userId, note, env);
      run.result.Some? && run.result.value.status == Published ==> run.progress[|run.progress| - 1] == 100
  {
    var user := Lookup(files, userId);
    if user.Some? && user.value.active && note.imageUrls.Some? {
      var urls := note.imageUrls.value;
      var paths := Downloads(env.downloads, urls);
      var pre := [0] + DownloadReports(|paths|, |urls|) + [20];
      var phase := BrowserPhase(note, paths, env);
      DownloadPhaseSteady(|paths|, |urls|);
      BrowserPhaseSteady(note, paths, env);
      SteadyAppend(pre, phase.1);
      assert PublishNote(files, scratch, userId, note, env).progress == pre + phase.1;
    } else {
      assert PublishNote(files, scratch, userId, note, env).progress == [0];
    }
  }

  /** The service. `scratch` is the set of files in java.io.tmpdir; the account store is only read. */
  class NotePublishService {
    const users: UserService
    var scratch: set<string>

    constructor(users: UserService, scratch: set<string>)
      ensures this.users == users && this.scratch == scratch
    {
      this.users := users;
      this.scratch := scratch;
    }

    /**
     * One URL of downloadImages: a blank URL is skipped; otherwise its scratch file, when the copy
     * succeeded. A copy that fails midway has already created the file, which stays unlisted.
     */
    method DownloadImage(url: string, i: nat, env: DownloadEnv) returns (path: Option<string>)
      modifies this
      ensures path == SaveOf(env)((i, url))
      ensures scratch == old(scratch) + AsSet(path) + AsSet(LeftOf(env)((i, url)))
    {
      if IsBlank(Some(url)) {
        return None;
      }
      var file := ScratchPath(env.tempDir, env.uuid(i) + ImageExtension(url));
      if env.fetch(i) == OpenFailed {
        return None;
      }
      scratch := scratch + {file};
      if env.fetch(i) == CopyFailed {
        return None;
      }
      return Some(file);
    }

    /** One pass of downloadImages' loop: the i-th URL is downloaded, and a saved file is listed and reported. */
    method DownloadNext(urls: seq<string>, i: nat, env: DownloadEnv, ghost start: set<string>,
                        paths: seq<string>, current: nat, total: nat, progress: seq<int>)
      returns (paths': seq<string>, current': nat, progress': seq<int>)
      requires i < |urls| == total
      requires paths == Downloads(env, urls[..i]) && current == |paths| <= i
      requires progress == DownloadReports(current, total)
      requires scratch == start + PathSet(paths) + Leftovers(env, urls[..i])
      modifies this
      ensures paths' == Downloads(env, urls[..i + 1]) && current' == |paths'| <= i + 1
      ensures progress' == DownloadReports(current', total)
      ensures scratch == start + PathSet(paths') + Leftovers(env, urls[..i + 1])
    {
      ghost var before := scratch;
      var path := DownloadImage(urls[i], i, env);
      DownloadStepState(env, urls, i, start, paths, before, path, scratch);
      paths', current', progress' := paths, current, progress;
      if path.Some? {
        DownloadReportsStep(current, total);
        paths' := paths + [path.value];
        current' := current + 1;
        progress' := progress + [DownloadProgress(current', total)];
      }
    }

    /** downloadImages: the saved paths in input order, with one progress report per saved file. */
    method DownloadImages(urls: seq<string>, env: DownloadEnv) returns (paths: seq<string>, progress: seq<int>)
      modifies this
      ensures paths == Downloads(env, urls)
      ensures progress == DownloadReports(|paths|, |urls|)
      ensures scratch == old(scratch) + PathSet(paths) + Leftovers(env, urls)
    {
      paths, progress := [], [];
      var total := |urls|;
      var current := 0;
      var i := 0;
      while i < |urls|
        invariant 0 <= i <= |urls|
        invariant paths == Downloads(env, urls[..i]) && current == |paths| <= i
        invariant progress == DownloadReports(current, total)
        invariant scratch == old(scratch) + PathSet(paths) + Leftovers(env, urls[..i])
      {
        paths, current, progress := DownloadNext(urls, i, env, old(scratch), paths, current, total, progress);
        i := i + 1;
      }
      assert urls[..|urls|] == urls;
    }

    /** cleanupTempFiles: every listed file is deleted. */
    method CleanupTempFiles(paths: seq<string>)
      modifies this
      ensures scratch == old(scratch) - PathSet(paths)
    {
      var i := 0;
      while i < |paths|
        invariant 0 <= i <= |paths|
        invariant scratch == old(scratch) - PathSet(paths[..i])
      {
        assert paths[..i + 1] == paths[..i] + [paths[i]];
        PathSetAppend(paths[..i], paths[i]);
        scratch := scratch - {paths[i]};
        i := i + 1;
      }
      assert paths[..|paths|] == paths;
    }

    /** The browser phase of publishNote, from opening the creator page on; it changes nothing here. */
    method RunBrowserPhase(note: NoteInfo, paths: seq<string>, env: PublishEnv)
      returns (result: Option<PublishResultDTO>, tail: seq<int>)
      ensures result == BrowserPhase(note, paths, env).0 && tail == BrowserPhase(note, paths, env).1
    {
      tail := [];
      if env.open.Raised? {
        result := Some(PublishFail(env.open.message));
      } else if env.loginText != NotShown {
        tail := [30];
        result := Some(PublishLoginExpiredResult());
      } else if env.ready.NotReady? {
        tail := [30];
        result := Some(PublishFail(Some(CannotPublishMessage)));
      } else if env.ready.ReadyCheckThrew? {
        tail := [30];
        result := Some(PublishFail(env.ready.message));
      } else if !env.chooseUpload {
        tail := [30];
        result := Some(PublishFail(Some(ChooseUploadFailedMessage)));
      } else if paths == [] || !env.uploads {
        tail := [30, 40];
        result := Some(PublishFail(Some(UploadFailedMessage)));
      } else if !env.titleTyped {
        tail := [30, 40, 60];
        result := Some(PublishFail(Some(TitleFailedMessage)));
      } else if !env.contentTyped {
        tail := [30, 40, 60];
        result := Some(PublishFail(Some(ContentFailedMessage)));
      } else {
        tail := [30, 40, 60, 70, 80];
        var click := ClickPublishButton(env.clicks);
        if click.StillPolling? {
          return None, tail;
        } else if !click.ok {
          result := Some(PublishFail(Some(PublishRetryMessage)));
        } else {
          tail := tail + [100];
          result := Some(PublishSuccess(Some(env.noteUuid), Some(NoteUrlBase + env.urlUuid)));
        }
      }
    }

    /** publishNote, run until it returns or the observed click rounds run out. */
    method PublishNoteRun(userId: Option<string>, note: NoteInfo, env: PublishEnv)
      returns (result: Option<PublishResultDTO>, progress: seq<int>)
      modifies this
      ensures PublishRun(result, progress, scratch) == PublishNote(users.files, old(scratch), userId, note, env)
    {
      progress := [0];
      var user := users.LoadUserInfo(userId);
      if user.None? || !user.value.active {
        return Some(PublishFail(Some(UserMissingMessage))), progress;
      }
      if note.imageUrls.None? {
        return Some(PublishFail(Some(DownloadFailedPrefix + env.nullListText))), progress;
      }
      var urls := note.imageUrls.value;
      var paths, saved := DownloadImages(urls, env.downloads);
      progress := progress + saved + [20];
      var tail;
      result, tail := RunBrowserPhase(note, paths, env);
      progress := progress + tail;
      assert progress == [0] + DownloadReports(|paths|, |urls|) + [20] + tail;
      if result.Some? {
        CleanupTempFiles(paths);
      }
    }
  }
}

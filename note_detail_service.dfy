/**
 * service/NoteDetailService.java: opening one note's page with a stored account's cookies
 * and reading its title, text, tags and slide images. The page is an input, as elsewhere.
 */
module Detail {
  import opened Wrappers
  import opened Text
  import opened Entities
  import opened Dto
  import opened UserStore
  import opened Browser

  // ---------------------------------------------------------------------------
  // checkLoginStatus: Some(true) logged in, Some(false) logged out, None unknown

  /**
   * A wait for an element to be attached (2.5 s each): it appeared, and was or was not
   * visible; it timed out; or it failed with another error.
   */
  datatype AttachProbe = Attached(visible: bool) | AttachTimeout | AttachError

  /** The five waits, in the order they are made. */
  datatype LoginProbes = LoginProbes(
    loggedIn: AttachProbe, loggedInBackup: AttachProbe,
    loggedOut: AttachProbe, loggedOutBackup: AttachProbe, loginText: AttachProbe)

  /** Each wait with the answer a visible element gives: logged in for the first two, logged out for the rest. */
  function Steps(p: LoginProbes): seq<(AttachProbe, bool)>
  {
    [(p.loggedIn, true), (p.loggedInBackup, true), (p.loggedOut, false), (p.loggedOutBackup, false), (p.loginText, false)]
  }

  /** The waits in order: a visible element decides, a timeout says logged in, another error says unknown. */
  function Decide(steps: seq<(AttachProbe, bool)>): Option<bool>
  {
    if steps == [] then Some(true)
    else
      var (probe, answer) := steps[0];
      if probe == Attached(true) then Some(answer)
      else if probe == AttachTimeout then Some(true)
      else if probe == AttachError then None
      else Decide(steps[1..])
  }

  /** Every wait before position i found an element that was not visible. */
  predicate QuietBefore(steps: seq<(AttachProbe, bool)>, i: int)
    requires 0 <= i <= |steps|
  {
    forall j :: 0 <= j < i ==> steps[j].0 == Attached(false)
  }

  /**
   * Logged out exactly when a logged-out marker is the first visible element; unknown exactly when
   * the first wait that does not find a hidden element fails with an error other than a timeout.
   */
  lemma {:induction false} DecideCases(steps: seq<(AttachProbe, bool)>)
    ensures Decide(steps) == Some(false) <==>
      exists i :: 0 <= i < |steps| && steps[i] == (Attached(true), false) && QuietBefore(steps, i)
    ensures Decide(steps).None? <==>
      exists i :: 0 <= i < |steps| && steps[i].0 == AttachError && QuietBefore(steps, i)
    decreases |steps|
  {
    if steps != [] {
      var rest := steps[1..];
      DecideCases(rest);
      assert forall i :: 0 < i < |steps| ==> steps[i] == rest[i - 1];
      if steps[0].0 == Attached(false) {
        forall i | 0 < i < |steps|
          ensures QuietBefore(steps, i) <==> QuietBefore(rest, i - 1)
        {
          if QuietBefore(rest, i - 1) {
            forall j | 0 < j < i
              ensures steps[j].0 == Attached(false)
            {
              assert rest[j - 1].0 == Attached(false);
            }
          }
        }
        if Decide(steps) == Some(false) {
          var k :| 0 <= k < |rest| && rest[k] == (Attached(true), false) && QuietBefore(rest, k);
          assert steps[k + 1] == (Attached(true), false) && QuietBefore(steps, k + 1);
        }
        if Decide(steps).None? {
          var k :| 0 <= k < |rest| && rest[k].0 == AttachError && QuietBefore(rest, k);
          assert steps[k + 1].0 == AttachError && QuietBefore(steps, k + 1);
        }
      } else {
        forall i | 0 < i < |steps|
          ensures !QuietBefore(steps, i)
        {
          assert steps[0].0 != Attached(false);
        }
      }
    }
  }

  /** checkLoginStatus of the detail page: every wait runs to its result or its first failure. */
  function DetailLoginStatus(p: LoginProbes): (r: Option<bool>)
    ensures r == Some(false) <==>
      exists i :: 0 <= i < 5 && Steps(p)[i] == (Attached(true), false) && QuietBefore(Steps(p), i)
    ensures r.None? <==> exists i :: 0 <= i < 5 && Steps(p)[i].0 == AttachError && QuietBefore(Steps(p), i)
  {
    DecideCases(Steps(p));
    Decide(Steps(p))
  }

  /** Nothing decisive within all five waits reads as logged in. */
  lemma NothingVisibleMeansLoggedIn(p: LoginProbes)
    requires forall i :: 0 <= i < 5 ==> Steps(p)[i].0 == Attached(false)
    ensures DetailLoginStatus(p) == Some(true)
  {
    var s := Steps(p);
    forall i | 0 <= i < 5
      ensures s[i] != (Attached(true), false) && s[i].0 != AttachError
    {
    }
    var r := DetailLoginStatus(p);
    assert r != Some(false) && r.Some?;
    assert r.value;
  }

  /** A timeout reads as logged in, whatever the later waits would have shown. */
  lemma TimeoutMeansLoggedIn(p: LoginProbes, i: nat)
    requires i < 5 && Steps(p)[i].0 == AttachTimeout && QuietBefore(Steps(p), i)
    ensures DetailLoginStatus(p) == Some(true)
  {
    var s := Steps(p);
    forall j | 0 <= j < 5 && QuietBefore(s, j)
      ensures s[j] != (Attached(true), false) && s[j].0 != AttachError
    {
      assert j <= i by {
        assert QuietBefore(s, j) && s[i].0 != Attached(false);
      }
    }
    var r := DetailLoginStatus(p);
    assert r != Some(false) && r.Some?;
    assert r.value;
  }

  // ---------------------------------------------------------------------------
  // extractNoteIdFromUrl

  /** extractNoteIdFromUrl: after the last '/', cut at the first '?'; "" when there is nothing after a '/'. */
  function NoteIdFromUrl(url: Option<string>): (r: string)
    ensures IsNullOrEmpty(url) ==> r == ""
    ensures forall k :: 0 <= k < |r| ==> r[k] != '/' && r[k] != '?'
    ensures !IsNullOrEmpty(url) && 0 <= LastIndexOf(url.value, '/') < |url.value| - 1 ==>
      r == UpToQuery(url.value[LastIndexOf(url.value, '/') + 1..])
    ensures !IsNullOrEmpty(url) && (LastIndexOf(url.value, '/') == -1 || LastIndexOf(url.value, '/') == |url.value| - 1) ==> r == ""
  {
    if IsNullOrEmpty(url) then ""
    else
      var u := url.value;
      var slash := LastIndexOf(u, '/');
      if slash != -1 && slash < |u| - 1 then
        var id := u[slash + 1..];
        var q := IndexOf(id, '?');
        assert forall k :: 0 <= k < |id| ==> id[k] == u[slash + 1 + k];
        var r := if q != -1 then id[..q] else id;
        UpToQueryIsIndexOf(id);
        r
      else ""
  }

  lemma {:induction false} UpToQueryIsIndexOf(s: string)
    ensures UpToQuery(s) == (if IndexOf(s, '?') == -1 then s else s[..IndexOf(s, '?')])
    decreases |s|
  {
    if s != [] && s[0] != '?' {
      UpToQueryIsIndexOf(s[1..]);
      assert s == [s[0]] + s[1..];
      if IndexOf(s[1..], '?') != -1 {
        assert s[..IndexOf(s, '?')] == [s[0]] + s[1..][..IndexOf(s[1..], '?')];
      }
    }
  }

  /** The id of a note URL .../<id> or .../<id>?<query> is read back. */
  lemma NoteIdOfUrl(base: string, id: string, query: string)
    requires id != "" && forall k :: 0 <= k < |id| ==> id[k] != '/' && id[k] != '?'
    requires query == "" || query[0] == '?'
    requires forall k :: 0 <= k < |query| ==> query[k] != '/'
    ensures NoteIdFromUrl(Some(base + "/" + id + query)) == id
  {
    var u := base + "/" + id + query;
    assert u == base + ['/'] + (id + query);
    LastIndexOfAppend(base, '/', id + query);
    assert u[|base| + 1..] == id + query;
    UpToQueryOfRun(id, query);
  }

  // ---------------------------------------------------------------------------
  // extractNoteDetail

  /**
   * A slide: whether reading its data-swiper-slide-index threw, that index otherwise (maybe absent),
   * and the lookup of its image with that image's src.
   */
  datatype Slide = Slide(indexThrew: bool, index: Option<string>, img: Query<Option<string>>)

  /**
   * What the detail page offers. `title`/`content` are the element lookups (with textContent, or
   * the texts of the spans under it, None when listing them threw); `tags`/`slides` the element lists,
   * None when listing them threw. A null textContent makes trim() throw.
   */
  datatype DetailPage = DetailPage(
    title: Query<Option<string>>,
    content: Query<Option<seq<Option<string>>>>,
    tags: Option<seq<Option<string>>>,
    slides: Option<seq<Slide>>)

  /** The title: the trimmed text when the element and its text exist; otherwise it is left unset. */
  function TitleOf(q: Query<Option<string>>): (r: Option<string>)
    ensures r.Some? <==> q.Hit? && q.element.Some?
    ensures r.Some? ==> r.value == Trim(q.element.value) && IsTrimmed(r.value)
  {
    if q.Hit? && q.element.Some? then Some(Trim(q.element.value)) else None
  }

  /** Every element of a list of texts read from the page is present. */
  predicate AllPresent<T>(xs: seq<Option<T>>)
  {
    forall k :: 0 <= k < |xs| ==> xs[k].Some?
  }

  lemma AllPresentSplit<T>(xs: seq<Option<T>>)
    requires xs != []
    ensures AllPresent(xs) <==> AllPresent(xs[..|xs| - 1]) && xs[|xs| - 1].Some?
  {
    var init := xs[..|xs| - 1];
    assert forall k :: 0 <= k < |init| ==> init[k] == xs[k];
  }

  /** The concatenated trimmed span texts; None once a span has no text (the extraction throws). */
  function Joined(spans: seq<Option<string>>): (r: Option<string>)
    ensures r.Some? <==> AllPresent(spans)
  {
    if spans == [] then Some("")
    else
      var init := spans[..|spans| - 1];
      var prev := Joined(init);
      var last := spans[|spans| - 1];
      AllPresentSplit(spans);
      if prev.None? || last.None? then None
      else Some(prev.value + Trim(last.value))
  }

  lemma JoinedStep(spans: seq<Option<string>>, i: nat)
    requires i < |spans| && spans[i].Some?
    ensures Joined(spans[..i + 1]) == if Joined(spans[..i]).None? then None else Some(Joined(spans[..i]).value + Trim(spans[i].value))
  {
    assert spans[..i + 1][..i] == spans[..i];
  }

  lemma TrimmedConcat(a: string, b: string)
    requires IsTrimmed(a) && IsTrimmed(b)
    ensures IsTrimmed(a + b)
  {
    if a != [] && b != [] {
      assert (a + b)[0] == a[0] && (a + b)[|a + b| - 1] == b[|b| - 1];
    } else if a == [] {
      assert a + b == b;
    } else {
      assert a + b == a;
    }
  }

  /** Gluing trimmed pieces yields a trimmed string, so the final trim() changes nothing. */
  lemma {:induction false} JoinedIsTrimmed(spans: seq<Option<string>>)
    requires Joined(spans).Some?
    ensures IsTrimmed(Joined(spans).value)
    decreases |spans|
  {
    if spans != [] {
      JoinedIsTrimmed(spans[..|spans| - 1]);
      TrimmedConcat(Joined(spans[..|spans| - 1]).value, Trim(spans[|spans| - 1].value));
    }
  }

  /** The content: unset without the element, when listing spans throws, or when a span has no text. */
  function ContentOf(q: Query<Option<seq<Option<string>>>>): (r: Option<string>)
    ensures r.Some? ==> IsTrimmed(r.value)
    ensures r.Some? <==> q.Hit? && q.element.Some? && Joined(q.element.value).Some?
  {
    if q.Hit? && q.element.Some? then
      var j := Joined(q.element.value);
      if j.None? then None
      else Some(Trim(j.value))
    else None
  }

  /** The content is the glued span texts as they are: the final trim() never removes anything. */
  lemma ContentIsJoined(q: Query<Option<seq<Option<string>>>>)
    requires ContentOf(q).Some?
    ensures ContentOf(q) == Joined(q.element.value)
  {
    JoinedIsTrimmed(q.element.value);
    TrimOfTrimmed(Joined(q.element.value).value);
  }

  /** One leading '#' removed. */
  function StripHash(t: string): (r: string)
    ensures StartsWith(t, "#") ==> "#" + r == t
    ensures !StartsWith(t, "#") ==> r == t
  {
    if StartsWith(t, "#") then t[1..] else t
  }

  /** The tag texts, each trimmed and without one leading '#'; None once a tag has no text. */
  function TagsOf(tags: seq<Option<string>>): (r: Option<seq<string>>)
    ensures r.Some? <==> AllPresent(tags)
    ensures r.Some? ==> |r.value| == |tags|
  {
    if tags == [] then Some([])
    else
      var init := tags[..|tags| - 1];
      var prev := TagsOf(init);
      var last := tags[|tags| - 1];
      AllPresentSplit(tags);
      if prev.None? || last.None? then None else Some(prev.value + [StripHash(Trim(last.value))])
  }


  /** Tag k is the k-th tag text, trimmed, with one leading '#' removed. */
  lemma {:induction false} TagsOfEach(tags: seq<Option<string>>, k: nat)
    requires TagsOf(tags).Some? && k < |tags|
    ensures TagsOf(tags).value[k] == StripHash(Trim(tags[k].value))
    decreases |tags|
  {
    var n := |tags| - 1;
    var init := tags[..n];
    AllPresentSplit(tags);
    TagsOfStep(tags, n);
    assert tags[..n + 1] == tags;
    var prev := TagsOf(init).value;
    assert TagsOf(tags).value == prev + [StripHash(Trim(tags[n].value))];
    if k < n {
      assert init[k] == tags[k];
      TagsOfEach(init, k);
      assert TagsOf(tags).value[k] == prev[k];
    } else {
      assert k == n && TagsOf(tags).value[n] == StripHash(Trim(tags[n].value));
    }
  }

  /** The non-null indexes of the slides. */
  function Seen(slides: seq<Slide>): set<string>
  {
    if slides == [] then {}
    else
      var last := slides[|slides| - 1];
      Seen(slides[..|slides| - 1]) + (if last.index.Some? then {last.index.value} else {})
  }

  /** The processed set holds exactly the indexes some slide carries. */
  lemma {:induction false} SeenMembers(slides: seq<Slide>, x: string)
    ensures x in Seen(slides) <==> exists k :: 0 <= k < |slides| && slides[k].index == Some(x)
    decreases |slides|
  {
    if slides != [] {
      var n := |slides| - 1;
      var init := slides[..n];
      SeenMembers(init, x);
      assert forall k :: 0 <= k < n ==> init[k] == slides[k];
      if slides[n].index == Some(x) {
        assert x in Seen(slides);
      }
    }
  }

  /** The slide is the first one carrying its (non-null) index. */
  predicate FirstOfIndex(slides: seq<Slide>, k: int)
    requires 0 <= k < |slides|
  {
    slides[k].index.Some? && forall j :: 0 <= j < k ==> slides[j].index != slides[k].index
  }

  /**
   * The image sources: for the first slide of each index, its image's non-empty src. A slide whose
   * index read threw, or a first-of-index slide whose image lookup threw, ends the extraction with
   * no list.
   */
  function ImagesOf(slides: seq<Slide>): Option<seq<string>>
  {
    if slides == [] then Some([])
    else
      var init := slides[..|slides| - 1];
      var last := slides[|slides| - 1];
      var prev := ImagesOf(init);
      if prev.None? || last.indexThrew then None
      else if last.index.None? || last.index.value in Seen(init) then prev
      else if last.img.Fail? then None
      else if last.img.Hit? && last.img.element.Some? && last.img.element.value != "" then
        Some(prev.value + [last.img.element.value])
      else prev
  }

  /** No more images than distinct slide indexes, and none of them empty. */
  lemma {:induction false} ImagesBounded(slides: seq<Slide>)
    ensures var r := ImagesOf(slides);
      r.Some? ==> |r.value| <= |Seen(slides)| && forall k :: 0 <= k < |r.value| ==> r.value[k] != ""
    decreases |slides|
  {
    if slides != [] {
      var init := slides[..|slides| - 1];
      var last := slides[|slides| - 1];
      ImagesBounded(init);
      if ImagesOf(init).Some? && last.index.Some? && last.index.value !in Seen(init) {
        assert Seen(slides) == Seen(init) + {last.index.value};
      }
    }
  }

  /** owner[k] is the slide image k came from: a first-of-index slide, in slide order. */
  predicate OwnedBy(slides: seq<Slide>, urls: seq<string>, owner: seq<nat>)
  {
    && |owner| == |urls|
    && (forall k :: 0 <= k < |owner| ==>
          (owner[k] < |slides| && FirstOfIndex(slides, owner[k]) && slides[owner[k]].img == Hit(Some(urls[k]))))
    && (forall k, l :: 0 <= k < l < |owner| ==> owner[k] < owner[l])
  }

  lemma OwnedByLonger(slides: seq<Slide>, urls: seq<string>, owner: seq<nat>)
    requires slides != [] && OwnedBy(slides[..|slides| - 1], urls, owner)
    ensures OwnedBy(slides, urls, owner)
    ensures forall k :: 0 <= k < |owner| ==> owner[k] < |slides| - 1
  {
    var init := slides[..|slides| - 1];
    forall k | 0 <= k < |owner|
      ensures FirstOfIndex(slides, owner[k]) && slides[owner[k]] == init[owner[k]]
    {
      assert FirstOfIndex(init, owner[k]);
    }
  }

  lemma OwnedByAppend(slides: seq<Slide>, urls: seq<string>, owner: seq<nat>, u: string)
    requires slides != [] && OwnedBy(slides, urls, owner)
    requires forall k :: 0 <= k < |owner| ==> owner[k] < |slides| - 1
    requires FirstOfIndex(slides, |slides| - 1) && slides[|slides| - 1].img == Hit(Some(u))
    ensures OwnedBy(slides, urls + [u], owner + [|slides| - 1])
  {
  }

  /** The step ImagesOf takes at the last slide, when it adds an image. */
  lemma ImagesOfGrows(slides: seq<Slide>)
    requires slides != [] && ImagesOf(slides).Some?
    requires ImagesOf(slides).value != ImagesOf(slides[..|slides| - 1]).value
    ensures FirstOfIndex(slides, |slides| - 1)
    ensures var last := slides[|slides| - 1];
      last.img.Hit? && last.img.element.Some?
      && ImagesOf(slides).value == ImagesOf(slides[..|slides| - 1]).value + [last.img.element.value]
  {
    var init := slides[..|slides| - 1];
    var last := slides[|slides| - 1];
    var prev := ImagesOf(init);
    assert prev.Some?;
    assert !(last.index.None? || last.index.value in Seen(init));
    assert last.img.Hit? && last.img.element.Some?;
    SeenMembers(init, last.index.value);
    forall j | 0 <= j < |slides| - 1
      ensures slides[j].index != last.index
    {
      assert init[j] == slides[j];
    }
  }

  /** Each image comes from the first slide of its index, and images keep slide order, so no index gives two. */
  lemma {:induction false} ImageOwners(slides: seq<Slide>) returns (owner: seq<nat>)
    requires ImagesOf(slides).Some?
    ensures OwnedBy(slides, ImagesOf(slides).value, owner)
    decreases |slides|
  {
    if slides == [] {
      owner := [];
    } else {
      var init := slides[..|slides| - 1];
      var prevUrls := ImagesOf(init).value;
      owner := ImageOwners(init);
      OwnedByLonger(slides, prevUrls, owner);
      if ImagesOf(slides).value != prevUrls {
        ImagesOfGrows(slides);
        OwnedByAppend(slides, prevUrls, owner, slides[|slides| - 1].img.element.value);
        owner := owner + [|slides| - 1];
      }
    }
  }

  /** The slide ends the image extraction: its index read threw, or it is first of its index and its image lookup threw. */
  predicate LosesImages(slides: seq<Slide>, k: int)
    requires 0 <= k < |slides|
  {
    slides[k].indexThrew || (FirstOfIndex(slides, k) && slides[k].img.Fail?)
  }

  /**
   * The only ways the image list is lost: a slide whose index read threw (a repeated index too,
   * since the index is read before the processed set is consulted), or a first-of-index slide
   * whose image lookup threw.
   */
  lemma {:induction false} ImagesLost(slides: seq<Slide>)
    ensures ImagesOf(slides).None? <==> exists k :: 0 <= k < |slides| && LosesImages(slides, k)
    decreases |slides|
  {
    if slides != [] {
      var n := |slides| - 1;
      var init := slides[..n];
      ImagesLost(init);
      forall k | 0 <= k < n
        ensures LosesImages(init, k) <==> LosesImages(slides, k)
      {
        assert forall j :: 0 <= j <= k ==> init[j] == slides[j];
      }
      if slides[n].index.Some? {
        SeenMembers(init, slides[n].index.value);
      }
      assert LosesImages(slides, n) <==>
        slides[n].indexThrew || (slides[n].index.Some? && slides[n].index.value !in Seen(init) && slides[n].img.Fail?);
      assert ImagesOf(slides).None? <==> ImagesOf(init).None? || LosesImages(slides, n);
    }
  }

  /** extractNoteDetail: each field read on its own, a failure leaving only that field unset. */
  function DetailOf(page: DetailPage): (n: NoteInfo)
    ensures n.title == TitleOf(page.title) && n.content == ContentOf(page.content)
    ensures n.tags == (if page.tags.Some? then TagsOf(page.tags.value) else None)
    ensures n.imageUrls == (if page.slides.Some? then ImagesOf(page.slides.value) else None)
    ensures n.noteId.None? && n.noteUrl.None? && n.authorName.None?
  {
    NewNoteInfo().(
      title := TitleOf(page.title),
      content := ContentOf(page.content),
      tags := if page.tags.Some? then TagsOf(page.tags.value) else None,
      imageUrls := if page.slides.Some? then ImagesOf(page.slides.value) else None)
  }

  /** The content loop. */
  method JoinSpans(spans: seq<Option<string>>) returns (content: Option<string>)
    ensures content == Joined(spans)
  {
    var builder := "";
    var i := 0;
    while i < |spans|
      invariant 0 <= i <= |spans|
      invariant Joined(spans[..i]) == Some(builder)
    {
      if spans[i].None? {
        assert !AllPresent(spans);
        return None;
      }
      var text := Trim(spans[i].value);
      JoinedStep(spans, i);
      if text != "" {
        builder := builder + text;
      } else {
        assert builder + text == builder;
      }
      i := i + 1;
    }
    assert spans[..|spans|] == spans;
    content := Some(builder);
  }

  lemma TagsOfStep(tags: seq<Option<string>>, i: nat)
    requires i < |tags| && tags[i].Some?
    ensures TagsOf(tags[..i + 1]) == if TagsOf(tags[..i]).None? then None else Some(TagsOf(tags[..i]).value + [StripHash(Trim(tags[i].value))])
  {
    assert tags[..i + 1][..i] == tags[..i];
  }

  /** The tag loop. */
  method CollectTags(tags: seq<Option<string>>) returns (list: Option<seq<string>>)
    ensures list == TagsOf(tags)
  {
    var acc: seq<string> := [];
    var i := 0;
    while i < |tags|
      invariant 0 <= i <= |tags|
      invariant TagsOf(tags[..i]) == Some(acc)
    {
      if tags[i].None? {
        assert !AllPresent(tags);
        return None;
      }
      TagsOfStep(tags, i);
      var tag := Trim(tags[i].value);
      if StartsWith(tag, "#") {
        tag := tag[1..];
      }
      assert tag == StripHash(Trim(tags[i].value));
      acc := acc + [tag];
      i := i + 1;
    }
    assert tags[..|tags|] == tags;
    list := Some(acc);
  }

  lemma {:induction false} ImagesNonePersists(slides: seq<Slide>, i: nat)
    requires i <= |slides| && ImagesOf(slides[..i]).None?
    ensures ImagesOf(slides).None?
    decreases |slides| - i
  {
    if i < |slides| {
      assert slides[..i + 1][..i] == slides[..i];
      ImagesNonePersists(slides, i + 1);
    } else {
      assert slides[..i] == slides;
    }
  }

  /** ImagesOf and Seen on one more slide. */
  lemma ImagesOfStep(slides: seq<Slide>, i: nat)
    requires i < |slides|
    ensures var prev := ImagesOf(slides[..i]);
      var last := slides[i];
      ImagesOf(slides[..i + 1]) ==
        if prev.None? || last.indexThrew then None
        else if last.index.None? || last.index.value in Seen(slides[..i]) then prev
        else if last.img.Fail? then None
        else if last.img.Hit? && last.img.element.Some? && last.img.element.value != "" then Some(prev.value + [last.img.element.value])
        else prev
    ensures Seen(slides[..i + 1]) == Seen(slides[..i]) + (if slides[i].index.Some? then {slides[i].index.value} else {})
  {
    var pre := slides[..i + 1];
    assert pre[..i] == slides[..i] && pre[i] == slides[i];
  }

  /** The image loop, with its set of processed indexes. */
  method CollectImages(slides: seq<Slide>) returns (list: Option<seq<string>>)
    ensures list == ImagesOf(slides)
  {
    var urls: seq<string> := [];
    var processed: set<string> := {};
    var i := 0;
    while i < |slides|
      invariant 0 <= i <= |slides|
      invariant ImagesOf(slides[..i]) == Some(urls)
      invariant processed == Seen(slides[..i])
    {
      ImagesOfStep(slides, i);
      var slide := slides[i];
      if slide.indexThrew {
        ImagesNonePersists(slides, i + 1);
        return None;
      }
      if slide.index.Some? && slide.index.value !in processed {
        processed := processed + {slide.index.value};
        if slide.img.Fail? {
          ImagesNonePersists(slides, i + 1);
          return None;
        }
        if slide.img.Hit? && slide.img.element.Some? && slide.img.element.value != "" {
          urls := urls + [slide.img.element.value];
        }
      }
      i := i + 1;
    }
    assert slides[..|slides|] == slides;
    list := Some(urls);
  }

  /** extractNoteDetail. */
  method ExtractNoteDetail(page: DetailPage) returns (note: NoteInfo)
    ensures note == DetailOf(page)
  {
    note := NewNoteInfo();
    if page.title.Hit? && page.title.element.Some? {
      note := note.(title := Some(Trim(page.title.element.value)));
    }
    if page.content.Hit? && page.content.element.Some? {
      var joined := JoinSpans(page.content.element.value);
      if joined.Some? {
        note := note.(content := Some(Trim(joined.value)));
      }
    }
    if page.tags.Some? {
      var tags := CollectTags(page.tags.value);
      note := note.(tags := tags);
    }
    if page.slides.Some? {
      var images := CollectImages(page.slides.value);
      note := note.(imageUrls := images);
    }
  }

  // ---------------------------------------------------------------------------
  // fetchNoteDetail

  /**
   * The browser facts of one detail fetch. `launch` covers getting a context and adding the cookies,
   * `openPage` opening the tab, `navigate` and `load` the navigation, `titleWait` the 5-second wait for the
   * title; `closeEvent` is None while the page is open and Some(bySystem) once it was closed.
   */
  datatype DetailEnv = DetailEnv(
    launch: Stage,
    openPage: Stage,
    navigate: Stage,
    load: Stage,
    loginProbes: LoginProbes,
    titleWait: Stage,
    page: DetailPage,
    closeEvent: Option<bool>)

  /** The page-close listener marks a close as the user's only when the browser manager was not closing it. */
  predicate ClosedByUser(env: DetailEnv)
  {
    env.closeEvent == Some(false)
  }

  /** The progress a fetch reports when it runs to the end; every other run reports a prefix of it. */
  const DetailSteps: seq<int> := [0, 10, 20, 40, 90, 100]

  /** What one fetch produces: the result, the progress reports, and the account directory afterwards. */
  datatype DetailRun = DetailRun(result: NoteDetailDTO, progress: seq<int>, files: Files)

  /** The note returned on success: the page's fields, the URL given, and the id taken from that URL. */
  function FetchedNote(noteUrl: Option<string>, page: DetailPage): (n: NoteInfo)
    ensures n.noteUrl == noteUrl && n.noteId == Some(NoteIdFromUrl(noteUrl))
    ensures n.title == DetailOf(page).title && n.tags == DetailOf(page).tags && n.imageUrls == DetailOf(page).imageUrls
  {
    DetailOf(page).(noteUrl := noteUrl, noteId := Some(NoteIdFromUrl(noteUrl)))
  }

  /** The reference definition of fetchNoteDetail. */
  function FetchDetail(files: Files, userId: Option<string>, noteUrl: Option<string>, env: DetailEnv, now: Timestamp): (run: DetailRun)
  {
    var fail := (s: SearchStatus) => DetailFailed(userId, noteUrl, s);
    var byUser := ClosedByUser(env);
    if IsNullOrEmpty(userId) || IsNullOrEmpty(noteUrl) then DetailRun(fail(Failed), [], files)
    else
      var user := Lookup(files, userId);
      if user.None? || !HasCookies(user.value) then DetailRun(fail(Failed), [], files)
      else if env.launch.Threw? then DetailRun(fail(ErrorStatus(env.launch.pageClosed, false)), DetailSteps[..1], files)
      else if env.openPage.Threw? then DetailRun(fail(ErrorStatus(env.openPage.pageClosed, false)), DetailSteps[..2], files)
      else if env.navigate.Threw? then DetailRun(fail(ErrorStatus(env.navigate.pageClosed, byUser)), DetailSteps[..2], files)
      else if env.load.Threw? then DetailRun(fail(ErrorStatus(env.load.pageClosed, byUser)), DetailSteps[..2], files)
      else if DetailLoginStatus(env.loginProbes) == Some(false) then
        DetailRun(fail(LoginExpired), DetailSteps[..3], MarkedExpired(files, userId, now))
      else if env.titleWait.Threw? && env.titleWait.pageClosed && byUser then
        DetailRun(fail(Interrupted), DetailSteps[..4], files)
      else DetailRun(DetailSucceeded(userId, noteUrl, FetchedNote(noteUrl, env.page)), DetailSteps, files)
  }

  /** Missing input, a missing account or one without cookies fail at once, with no progress and nothing stored. */
  lemma FetchRejectsBadInput(files: Files, userId: Option<string>, noteUrl: Option<string>, env: DetailEnv, now: Timestamp)
    requires IsNullOrEmpty(userId) || IsNullOrEmpty(noteUrl) || Lookup(files, userId).None? || !HasCookies(Lookup(files, userId).value)
    ensures FetchDetail(files, userId, noteUrl, env, now) == DetailRun(DetailFailed(userId, noteUrl, Failed), [], files)
  {
  }

  /**
   * Once the page has loaded: a logged-out verdict marks the account expired and ends with LOGIN_EXPIRED;
   * an unknown verdict, like a logged-in one, goes on to read the page; a title wait that fails for
   * any reason but the user's close does not stop the fetch.
   */
  lemma FetchAfterLoad(files: Files, userId: string, noteUrl: string, env: DetailEnv, now: Timestamp)
    requires userId != "" && noteUrl != ""
    requires Lookup(files, Some(userId)).Some? && HasCookies(Lookup(files, Some(userId)).value)
    requires env.launch == Ok && env.openPage == Ok && env.navigate == Ok && env.load == Ok
    ensures var run := FetchDetail(files, Some(userId), Some(noteUrl), env, now);
      && (run.result.status == LoginExpired <==> DetailLoginStatus(env.loginProbes) == Some(false))
      && (run.result.status == LoginExpired ==> run.files == MarkedExpired(files, Some(userId), now))
      && (DetailLoginStatus(env.loginProbes) != Some(false) && !(env.titleWait.Threw? && env.titleWait.pageClosed && ClosedByUser(env)) ==>
            run.result == DetailSucceeded(Some(userId), Some(noteUrl), FetchedNote(Some(noteUrl), env.page)))
  {
  }

  /** Progress never goes down, stays within 0..100, and a successful fetch reports 0, 10, 20, 40, 90, 100. */
  lemma FetchProgress(files: Files, userId: Option<string>, noteUrl: Option<string>, env: DetailEnv, now: Timestamp)
    ensures SteadyProgress(FetchDetail(files, userId, noteUrl, env, now).progress)
    ensures var run := FetchDetail(files, userId, noteUrl, env, now);
      run.result.status == Success ==> run.progress == [0, 10, 20, 40, 90, 100] && run.files == files
    ensures var run := FetchDetail(files, userId, noteUrl, env, now);
      run.result.status == Success <==> run.result.noteDetail.Some?
  {
    var n := FetchSteps(files, userId, noteUrl, env, now);
    assert SteadyProgress(DetailSteps);
    SteadyPrefix(DetailSteps, n);
    assert DetailSteps[..6] == DetailSteps;
  }

  lemma FetchSteps(files: Files, userId: Option<string>, noteUrl: Option<string>, env: DetailEnv, now: Timestamp) returns (n: nat)
    ensures var run := FetchDetail(files, userId, noteUrl, env, now);
      && n <= 6 && run.progress == DetailSteps[..n]
      && (run.result.status == Success ==> n == 6 && run.files == files)
      && (run.result.status == Success <==> run.result.noteDetail.Some?)
  {
    assert DetailSteps[..6] == DetailSteps;
    if IsNullOrEmpty(userId) || IsNullOrEmpty(noteUrl) || Lookup(files, userId).None? || !HasCookies(Lookup(files, userId).value) {
      n := 0;
    } else if env.launch.Threw? {
      n := 1;
    } else if env.openPage.Threw? || env.navigate.Threw? || env.load.Threw? {
      n := 2;
    } else if DetailLoginStatus(env.loginProbes) == Some(false) {
      n := 3;
    } else if env.titleWait.Threw? && env.titleWait.pageClosed && ClosedByUser(env) {
      n := 4;
    } else {
      n := 6;
    }
  }

  /** The service; the account store is the state it may change. */
  class NoteDetailService {
    const users: UserService

    constructor(users: UserService)
      ensures this.users == users
    {
      this.users := users;
    }

    /** fetchNoteDetail, run to completion. */
    method FetchNoteDetail(userId: Option<string>, noteUrl: Option<string>, env: DetailEnv, now: Timestamp)
      returns (result: NoteDetailDTO, progress: seq<int>)
      modifies users
      ensures DetailRun(result, progress, users.files) == FetchDetail(old(users.files), userId, noteUrl, env, now)
    {
      progress := DetailSteps[..0];
      if IsNullOrEmpty(userId) || IsNullOrEmpty(noteUrl) {
        return DetailFailed(userId, noteUrl, Failed), progress;
      }
      var user := users.LoadUserInfo(userId);
      if user.None? || !HasCookies(user.value) {
        return DetailFailed(userId, noteUrl, Failed), progress;
      }
      progress := DetailSteps[..1];
      if env.launch.Threw? {
        return DetailFailed(userId, noteUrl, ErrorStatus(env.launch.pageClosed, false)), progress;
      }
      progress := DetailSteps[..2];
      if env.openPage.Threw? {
        return DetailFailed(userId, noteUrl, ErrorStatus(env.openPage.pageClosed, false)), progress;
      }
      var byUser := ClosedByUser(env);
      if env.navigate.Threw? {
        return DetailFailed(userId, noteUrl, ErrorStatus(env.navigate.pageClosed, byUser)), progress;
      }
      if env.load.Threw? {
        return DetailFailed(userId, noteUrl, ErrorStatus(env.load.pageClosed, byUser)), progress;
      }
      progress := DetailSteps[..3];
      var loggedIn := DetailLoginStatus(env.loginProbes);
      if loggedIn == Some(false) {
        var _ := users.MarkUserLoginExpired(userId, now);
        return DetailFailed(userId, noteUrl, LoginExpired), progress;
      }
      progress := DetailSteps[..4];
      if env.titleWait.Threw? && env.titleWait.pageClosed && byUser {
        return DetailFailed(userId, noteUrl, Interrupted), progress;
      }
      var note := ExtractNoteDetail(env.page);
      note := note.(noteUrl := noteUrl);
      note := note.(noteId := Some(NoteIdFromUrl(noteUrl)));
      progress := DetailSteps;
      result := DetailSucceeded(userId, noteUrl, note);
    }
  }
}

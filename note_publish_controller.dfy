/**
 * ui/controller/NotePublishController.java: the publish form's state: the account choice, the
 * tag and image lists the user edits, the note handed to the publish service, and the checks
 * before publishing.
 */
module PublishController {
  import opened Wrappers
  import opened Text
  import opened Entities
  import opened Dto
  import opened UserStore
  import opened Lists
  import opened Publish

  /** The image count label, "共" + n + "张图片". */
  function CountLabel(n: nat): string
  {
    "共" + NatToString(n) + "张图片"
  }

  /** Different counts give different labels, so the label tells the count. */
  lemma CountLabelTellsCount(m: nat, n: nat)
    requires CountLabel(m) == CountLabel(n)
    ensures m == n
  {
    var a, b := NatToString(m), NatToString(n);
    assert |a| == |b|;
    assert a == CountLabel(m)[1..1 + |a|];
    assert b == CountLabel(n)[1..1 + |b|];
    NatToStringRoundTrip(m);
    NatToStringRoundTrip(n);
  }

  /** onPublish goes on exactly when the trimmed title and content are non-empty and an account is chosen. */
  predicate MayPublish(title: string, content: string, selected: Option<UserInfo>)
  {
    Trim(title) != "" && Trim(content) != "" && selected.Some?
  }

  /** The note updateCurrentNoteInfo builds: the current one (or a new one) with the form's values. */
  function FormNote(current: Option<NoteInfo>, title: string, content: string, tags: seq<string>, images: seq<string>): (n: NoteInfo)
    ensures n.title == Some(title) && n.content == Some(content)
    ensures n.tags == Some(tags) && n.imageUrls == Some(images)
    ensures current.Some? ==> n.noteId == current.value.noteId && n.noteUrl == current.value.noteUrl
    ensures current.None? ==> n.noteId.None? && n.noteUrl.None? && n.authorId.None?
  {
    var base := if current.Some? then current.value else NewNoteInfo();
    base.(title := Some(title), content := Some(content), tags := Some(tags), imageUrls := Some(images))
  }

  /** How onPublish ended: stopped by a check, or the service ran. */
  datatype PublishAttempt = NotStarted | Ran(result: Option<PublishResultDTO>, progress: seq<int>)

  class NotePublishController {
    const publisher: NotePublishService
    /** The account store: one UserService instance, shared with the publish service. */
    const store: UserService := publisher.users
    var comboUsers: seq<UserInfo>
    var selectedUser: Option<UserInfo>
    var tags: seq<string>
    var imageUrls: seq<string>
    var imageCountLabel: string
    var titleText: string
    var contentText: string
    var currentNote: Option<NoteInfo>

    constructor(publisher: NotePublishService)
      ensures this.publisher == publisher && store == publisher.users
      ensures comboUsers == [] && selectedUser.None? && tags == [] && imageUrls == [] && currentNote.None?
      ensures imageCountLabel == CountLabel(0) && titleText == "" && contentText == ""
    {
      this.publisher := publisher;
      comboUsers, selectedUser := [], None;
      tags, imageUrls := [], [];
      imageCountLabel := CountLabel(0);
      titleText, contentText := "", "";
      currentNote := None;
    }

    /** The UI-thread half of loadUserList: the logged-in accounts, in order, with the first selected. */
    method ShowUsers(users: seq<UserInfo>)
      modifies this
      ensures comboUsers == ActiveUsers(users)
      ensures comboUsers != [] ==> selectedUser == Some(comboUsers[0])
      ensures comboUsers == [] ==> selectedUser.None?
      ensures tags == old(tags) && imageUrls == old(imageUrls) && currentNote == old(currentNote)
      ensures titleText == old(titleText) && contentText == old(contentText) && imageCountLabel == old(imageCountLabel)
    {
      comboUsers := [];
      var i := 0;
      while i < |users|
        invariant 0 <= i <= |users|
        invariant comboUsers == ActiveUsers(users[..i])
        invariant tags == old(tags) && imageUrls == old(imageUrls) && currentNote == old(currentNote)
        invariant titleText == old(titleText) && contentText == old(contentText) && imageCountLabel == old(imageCountLabel)
      {
        ActiveUsersStep(users, i);
        if users[i].active {
          comboUsers := comboUsers + [users[i]];
        }
        i := i + 1;
      }
      assert users[..|users|] == users;
      selectedUser := if comboUsers != [] then Some(comboUsers[0]) else None;
    }

    /** loadUserList: the logged-in accounts of one listing, in order, with the first selected. */
    method LoadUserList() returns (ghost loaded: seq<UserInfo>)
      modifies this
      ensures IsListing(store.files, loaded)
      ensures comboUsers == ActiveUsers(loaded)
      ensures comboUsers != [] ==> selectedUser == Some(comboUsers[0])
      ensures comboUsers == [] ==> selectedUser.None?
      ensures tags == old(tags) && imageUrls == old(imageUrls) && currentNote == old(currentNote)
      ensures titleText == old(titleText) && contentText == old(contentText) && imageCountLabel == old(imageCountLabel)
    {
      var users, names := store.LoadAllUsers();
      ShowUsers(users);
      loaded := users;
    }

    /** loadTags: nothing for null; otherwise the list becomes the given tags, in order. */
    method LoadTags(tagList: Option<seq<string>>)
      modifies this
      ensures tags == (if tagList.Some? then tagList.value else old(tags))
      ensures imageUrls == old(imageUrls) && currentNote == old(currentNote) && imageCountLabel == old(imageCountLabel)
      ensures comboUsers == old(comboUsers) && selectedUser == old(selectedUser)
      ensures titleText == old(titleText) && contentText == old(contentText)
    {
      if tagList.None? {
        return;
      }
      tags := [];
      var i := 0;
      while i < |tagList.value|
        invariant 0 <= i <= |tagList.value| && tags == tagList.value[..i]
        invariant imageUrls == old(imageUrls) && currentNote == old(currentNote) && imageCountLabel == old(imageCountLabel)
        invariant comboUsers == old(comboUsers) && selectedUser == old(selectedUser)
        invariant titleText == old(titleText) && contentText == old(contentText)
      {
        assert tagList.value[..i + 1] == tagList.value[..i] + [tagList.value[i]];
        tags := tags + [tagList.value[i]];
        i := i + 1;
      }
      assert tagList.value[..|tagList.value|] == tagList.value;
    }

    /** loadImages: nothing for null; otherwise the list becomes the given URLs and the label counts them. */
    method LoadImages(urls: Option<seq<string>>)
      modifies this
      ensures imageUrls == (if urls.Some? then urls.value else old(imageUrls))
      ensures imageCountLabel == (if urls.Some? then CountLabel(|imageUrls|) else old(imageCountLabel))
      ensures tags == old(tags) && currentNote == old(currentNote)
      ensures comboUsers == old(comboUsers) && selectedUser == old(selectedUser)
      ensures titleText == old(titleText) && contentText == old(contentText)
    {
      if urls.None? {
        return;
      }
      imageUrls := [];
      var i := 0;
      while i < |urls.value|
        invariant 0 <= i <= |urls.value| && imageUrls == urls.value[..i]
        invariant tags == old(tags) && currentNote == old(currentNote) && imageCountLabel == old(imageCountLabel)
        invariant comboUsers == old(comboUsers) && selectedUser == old(selectedUser)
        invariant titleText == old(titleText) && contentText == old(contentText)
      {
        assert urls.value[..i + 1] == urls.value[..i] + [urls.value[i]];
        imageUrls := imageUrls + [urls.value[i]];
        i := i + 1;
      }
      assert urls.value[..|urls.value|] == urls.value;
      imageCountLabel := CountLabel(|imageUrls|);
    }

    /**
     * loadNoteInfo: nothing for null; otherwise remember the note and fill the form from it.
     * A null title or content shows as an empty field.
     */
    method LoadNoteInfo(note: Option<NoteInfo>)
      modifies this
      ensures note.None? ==> currentNote == old(currentNote) && tags == old(tags) && imageUrls == old(imageUrls)
      ensures note.None? ==> titleText == old(titleText) && contentText == old(contentText)
      ensures imageCountLabel ==
        (if note.Some? && note.value.imageUrls.Some? then CountLabel(|note.value.imageUrls.value|) else old(imageCountLabel))
      ensures note.Some? ==> (
        && currentNote == note && titleText == note.value.title.GetOr("") && contentText == note.value.content.GetOr("")
        && tags == (if note.value.tags.Some? then note.value.tags.value else old(tags))
        && imageUrls == (if note.value.imageUrls.Some? then note.value.imageUrls.value else old(imageUrls)))
      ensures comboUsers == old(comboUsers) && selectedUser == old(selectedUser)
    {
      if note.None? {
        return;
      }
      currentNote := note;
      titleText := note.value.title.GetOr("");
      contentText := note.value.content.GetOr("");
      LoadTags(note.value.tags);
      LoadImages(note.value.imageUrls);
    }

    /** onAddTag with the dialog's answer (None when cancelled): an empty tag is not added. */
    method OnAddTag(answer: Option<string>)
      modifies this
      ensures tags == old(tags) + (if answer.Some? && answer.value != "" then [answer.value] else [])
      ensures imageUrls == old(imageUrls) && currentNote == old(currentNote) && selectedUser == old(selectedUser)
      ensures imageCountLabel == old(imageCountLabel)
      ensures comboUsers == old(comboUsers) && titleText == old(titleText) && contentText == old(contentText)
    {
      if answer.Some? && answer.value != "" {
        tags := tags + [answer.value];
      }
    }

    /** editTag: an empty or cancelled answer changes nothing; otherwise the first oldTag becomes the answer. */
    method EditTag(oldTag: string, answer: Option<string>)
      modifies this
      ensures tags == (if answer.Some? && answer.value != "" then ReplaceFirst(old(tags), oldTag, answer.value) else old(tags))
      ensures imageUrls == old(imageUrls) && currentNote == old(currentNote) && selectedUser == old(selectedUser)
      ensures imageCountLabel == old(imageCountLabel)
      ensures comboUsers == old(comboUsers) && titleText == old(titleText) && contentText == old(contentText)
    {
      if answer.Some? && answer.value != "" {
        var index := FirstIndex(tags, oldTag);
        if index >= 0 {
          tags := tags[index := answer.value];
        }
      }
    }

    /** removeTag: the first occurrence goes. */
    method RemoveTag(tag: string)
      modifies this
      ensures tags == RemoveFirst(old(tags), tag)
      ensures imageUrls == old(imageUrls) && currentNote == old(currentNote) && selectedUser == old(selectedUser)
      ensures imageCountLabel == old(imageCountLabel)
      ensures comboUsers == old(comboUsers) && titleText == old(titleText) && contentText == old(contentText)
    {
      tags := RemoveFirst(tags, tag);
    }

    /** removeImage: the first occurrence goes and the label shows the new count. */
    method RemoveImage(url: string)
      modifies this
      ensures imageUrls == RemoveFirst(old(imageUrls), url) && imageCountLabel == CountLabel(|imageUrls|)
      ensures tags == old(tags) && currentNote == old(currentNote) && selectedUser == old(selectedUser)
      ensures comboUsers == old(comboUsers) && titleText == old(titleText) && contentText == old(contentText)
    {
      imageUrls := RemoveFirst(imageUrls, url);
      imageCountLabel := CountLabel(|imageUrls|);
    }

    /** updateCurrentNoteInfo: the note takes the form's values and copies of both lists. */
    method UpdateCurrentNoteInfo(title: string, content: string)
      modifies this
      ensures currentNote == Some(FormNote(old(currentNote), title, content, tags, imageUrls))
      ensures tags == old(tags) && imageUrls == old(imageUrls) && selectedUser == old(selectedUser)
      ensures comboUsers == old(comboUsers) && titleText == old(titleText) && contentText == old(contentText)
      ensures imageCountLabel == old(imageCountLabel)
    {
      var note := if currentNote.None? then NewNoteInfo() else currentNote.value;
      note := note.(title := Some(title));
      note := note.(content := Some(content));
      note := note.(tags := Some(tags));
      note := note.(imageUrls := Some(imageUrls));
      currentNote := Some(note);
    }

    /**
     * onPublish: check the form; when it passes, store the form in the note, publish it with the
     * chosen account, and reload the account list after LOGIN_EXPIRED.
     */
    method OnPublish(env: PublishEnv) returns (attempt: PublishAttempt, ghost reloaded: Option<seq<UserInfo>>)
      modifies this, publisher
      ensures attempt.NotStarted? <==> !MayPublish(old(titleText), old(contentText), old(selectedUser))
      ensures attempt.NotStarted? ==> currentNote == old(currentNote) && publisher.scratch == old(publisher.scratch)
      ensures attempt.Ran? ==>
        && currentNote == Some(FormNote(old(currentNote), Trim(old(titleText)), Trim(old(contentText)), old(tags), old(imageUrls)))
        && PublishRun(attempt.result, attempt.progress, publisher.scratch)
           == PublishNote(publisher.users.files, old(publisher.scratch), old(selectedUser).value.userId, currentNote.value, env)
      ensures reloaded.Some? <==> attempt.Ran? && attempt.result.Some? && attempt.result.value.status == PublishLoginExpired
      ensures reloaded.Some? ==> IsListing(store.files, reloaded.value) && comboUsers == ActiveUsers(reloaded.value)
      ensures reloaded.None? ==> comboUsers == old(comboUsers)
      ensures tags == old(tags) && imageUrls == old(imageUrls)
      ensures reloaded.Some? ==> (if comboUsers != [] then selectedUser == Some(comboUsers[0]) else selectedUser.None?)
      ensures reloaded.None? ==> selectedUser == old(selectedUser)
      ensures titleText == old(titleText) && contentText == old(contentText) && imageCountLabel == old(imageCountLabel)
    {
      var title := Trim(titleText);
      var content := Trim(contentText);
      if title == "" || content == "" || selectedUser.None? {
        return NotStarted, None;
      }
      var result, progress;
      result, progress, reloaded := PublishForm(title, content, selectedUser.value.userId, env);
      attempt := Ran(result, progress);
    }

    /** The accepted half of onPublish: store the form in the note, publish it, then finish on the UI thread. */
    method PublishForm(title: string, content: string, userId: Option<string>, env: PublishEnv)
      returns (result: Option<PublishResultDTO>, progress: seq<int>, ghost reloaded: Option<seq<UserInfo>>)
      modifies this, publisher
      ensures currentNote == Some(FormNote(old(currentNote), title, content, old(tags), old(imageUrls)))
      ensures PublishRun(result, progress, publisher.scratch)
        == PublishNote(publisher.users.files, old(publisher.scratch), userId, currentNote.value, env)
      ensures reloaded.Some? <==> result.Some? && result.value.status == PublishLoginExpired
      ensures reloaded.Some? ==> IsListing(store.files, reloaded.value) && comboUsers == ActiveUsers(reloaded.value)
      ensures reloaded.None? ==> comboUsers == old(comboUsers)
      ensures tags == old(tags) && imageUrls == old(imageUrls)
      ensures reloaded.Some? ==> (if comboUsers != [] then selectedUser == Some(comboUsers[0]) else selectedUser.None?)
      ensures reloaded.None? ==> selectedUser == old(selectedUser)
      ensures titleText == old(titleText) && contentText == old(contentText) && imageCountLabel == old(imageCountLabel)
    {
      UpdateCurrentNoteInfo(title, content);
      ghost var note := currentNote;
      ghost var files := publisher.users.files;
      result, progress := publisher.PublishNoteRun(userId, currentNote.value, env);
      ghost var scratch := publisher.scratch;
      reloaded := FinishPublish(result);
      assert publisher.scratch == scratch && currentNote == note && publisher.users.files == files;
    }

    /** The completion of a publish run on the UI thread: reload the accounts after LOGIN_EXPIRED. */
    method FinishPublish(result: Option<PublishResultDTO>) returns (ghost reloaded: Option<seq<UserInfo>>)
      modifies this
      ensures reloaded.Some? <==> result.Some? && result.value.status == PublishLoginExpired
      ensures reloaded.Some? ==> IsListing(store.files, reloaded.value) && comboUsers == ActiveUsers(reloaded.value)
      ensures reloaded.None? ==> comboUsers == old(comboUsers) && selectedUser == old(selectedUser)
      ensures tags == old(tags) && imageUrls == old(imageUrls) && currentNote == old(currentNote)
      ensures reloaded.Some? ==> (if comboUsers != [] then selectedUser == Some(comboUsers[0]) else selectedUser.None?)
      ensures titleText == old(titleText) && contentText == old(contentText) && imageCountLabel == old(imageCountLabel)
    {
      reloaded := None;
      if result.Some? && result.value.status == PublishLoginExpired {
        var loaded := LoadUserList();
        reloaded := Some(loaded);
      }
    }
  }
}

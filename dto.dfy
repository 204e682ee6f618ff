/** The result objects the services hand back to the user interface. */
module Dto {
  import opened Wrappers
  import opened Entities

  /** ArticleCrawlService.SearchResult, shared by the search and the detail results. */
  datatype SearchStatus = Success | Failed | Interrupted | LoginExpired

  /** The status a Playwright error maps to: INTERRUPTED for a close the user caused, FAILED otherwise. */
  function ErrorStatus(pageClosed: bool, closedByUser: bool): (s: SearchStatus)
    ensures s == Interrupted <==> pageClosed && closedByUser
    ensures s != Interrupted ==> s == Failed
  {
    if pageClosed && closedByUser then Interrupted else Failed
  }

  /** dto/SearchResultDTO.java: a failed result carries no note list. */
  datatype SearchResultDTO = SearchResultDTO(
    status: SearchStatus,
    noteList: Option<seq<NoteInfo>>,
    keyword: Option<string>,
    userId: Option<string>)

  /** success: status SUCCESS with the given list, user and keyword. */
  function SearchSucceeded(userId: Option<string>, keyword: Option<string>, notes: seq<NoteInfo>): (r: SearchResultDTO)
    ensures r.status == Success && r.noteList == Some(notes)
    ensures r.userId == userId && r.keyword == keyword
  {
    SearchResultDTO(Success, Some(notes), keyword, userId)
  }

  /** failed: exactly the status given, no list, user and keyword kept. */
  function SearchFailed(userId: Option<string>, keyword: Option<string>, status: SearchStatus): (r: SearchResultDTO)
    ensures r.status == status && r.noteList.None?
    ensures r.userId == userId && r.keyword == keyword
  {
    SearchResultDTO(status, None, keyword, userId)
  }

  /** dto/NoteDetailDTO.java: a failed result carries no note. */
  datatype NoteDetailDTO = NoteDetailDTO(
    status: SearchStatus,
    noteDetail: Option<NoteInfo>,
    noteUrl: Option<string>,
    userId: Option<string>)

  /** success: status SUCCESS with the given note, user and URL. */
  function DetailSucceeded(userId: Option<string>, noteUrl: Option<string>, note: NoteInfo): (r: NoteDetailDTO)
    ensures r.status == Success && r.noteDetail == Some(note)
    ensures r.userId == userId && r.noteUrl == noteUrl
  {
    NoteDetailDTO(Success, Some(note), noteUrl, userId)
  }

  /** failed: exactly the status given, no note, user and URL kept. */
  function DetailFailed(userId: Option<string>, noteUrl: Option<string>, status: SearchStatus): (r: NoteDetailDTO)
    ensures r.status == status && r.noteDetail.None?
    ensures r.userId == userId && r.noteUrl == noteUrl
  {
    NoteDetailDTO(status, None, noteUrl, userId)
  }

  /** PublishResultDTO.Status. */
  datatype PublishStatus = Published | PublishFailed | PublishLoginExpired | PublishInterrupted

  /** dto/PublishResultDTO.java. */
  datatype PublishResultDTO = PublishResultDTO(
    status: PublishStatus,
    noteId: Option<string>,
    noteUrl: Option<string>,
    errorMessage: Option<string>)

  /** success: status SUCCESS with the given id and URL and no error message. */
  function PublishSuccess(noteId: Option<string>, noteUrl: Option<string>): (r: PublishResultDTO)
    ensures r.status == Published && r.noteId == noteId && r.noteUrl == noteUrl && r.errorMessage.None?
  {
    PublishResultDTO(Published, noteId, noteUrl, None)
  }

  /** fail: status FAILED carrying the message. */
  function PublishFail(message: Option<string>): (r: PublishResultDTO)
    ensures r.status == PublishFailed && r.errorMessage == message && r.noteId.None? && r.noteUrl.None?
  {
    PublishResultDTO(PublishFailed, None, None, message)
  }

  const LoginExpiredMessage: string := "登录已过期，请重新登录"
  const InterruptedMessage: string := "发布过程被中断"

  /** loginExpired: status LOGIN_EXPIRED with its fixed message. */
  function PublishLoginExpiredResult(): (r: PublishResultDTO)
    ensures r.status == PublishLoginExpired && r.errorMessage == Some(LoginExpiredMessage)
  {
    PublishResultDTO(PublishLoginExpired, None, None, Some(LoginExpiredMessage))
  }

  /** interrupted: status INTERRUPTED with its fixed message. */
  function PublishInterruptedResult(): (r: PublishResultDTO)
    ensures r.status == PublishInterrupted && r.errorMessage == Some(InterruptedMessage)
  {
    PublishResultDTO(PublishInterrupted, None, None, Some(InterruptedMessage))
  }
}

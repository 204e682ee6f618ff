/**
 * ui/viewmodel/ArticleCrawlViewModel.java: the account list, the selected account and keyword,
 * the search-in-progress flag and the collected notes behind the search page.
 */
module CrawlViewModel {
  import opened Wrappers
  import opened Text
  import opened Entities
  import opened Dto
  import opened UserStore
  import opened Browser
  import opened Crawl

  /** How searchWithSelectedUser starts: answered at once without a search, or handed to the service. */
  datatype SearchStart = Rejected(result: SearchResultDTO) | Started(userId: Option<string>, keyword: string)

  /** The start of searchWithSelectedUser for a selection and a keyword field. */
  function StartOf(selected: Option<UserInfo>, keyword: Option<string>): (s: SearchStart)
    ensures selected.None? || !selected.value.active ==> s == Rejected(SearchFailed(None, keyword, Failed))
    ensures selected.Some? && selected.value.active && (keyword.None? || Trim(keyword.value) == "") ==>
      s == Rejected(SearchFailed(selected.value.userId, Some(""), Failed))
    ensures s.Started? <==> selected.Some? && selected.value.active && keyword.Some? && Trim(keyword.value) != ""
    ensures s.Started? ==> s.userId == selected.value.userId && s.keyword == Trim(keyword.value) && IsTrimmed(s.keyword)
  {
    if selected.None? || !selected.value.active then Rejected(SearchFailed(None, keyword, Failed))
    else if keyword.None? || Trim(keyword.value) == "" then Rejected(SearchFailed(selected.value.userId, Some(""), Failed))
    else Started(selected.value.userId, Trim(keyword.value))
  }

  /** Whatever the keyword, a search that starts never hands the service a blank keyword. */
  lemma StartedKeywordNotBlank(selected: Option<UserInfo>, keyword: Option<string>)
    ensures var s := StartOf(selected, keyword);
      s.Started? ==> !IsNullOrEmpty(Some(s.keyword)) && s.keyword[0] > ' ' && s.keyword[|s.keyword| - 1] > ' '
  {
  }

  class ArticleCrawlViewModel {
    const crawler: ArticleCrawlService
    /** The account store: one UserService instance, shared with the search service. */
    const store: UserService := crawler.users
    var users: seq<UserInfo>
    var loading: bool
    var selectedUser: Option<UserInfo>
    var keyword: Option<string>
    var searchInProgress: bool
    var notes: seq<NoteInfo>

    constructor(crawler: ArticleCrawlService)
      ensures this.crawler == crawler && store == crawler.users
      ensures users == [] && notes == [] && !loading && !searchInProgress
      ensures selectedUser.None? && keyword == Some("")
    {
      this.crawler := crawler;
      users, notes := [], [];
      loading, searchInProgress := false, false;
      selectedUser, keyword := None, Some("");
    }

    /** The UI-thread half of loadUsers: clear the list and add the active accounts one by one. */
    method ShowLoadedUsers(loaded: seq<UserInfo>)
      modifies this
      ensures users == ActiveUsers(loaded) && !loading
      ensures notes == old(notes) && selectedUser == old(selectedUser) && keyword == old(keyword)
      ensures searchInProgress == old(searchInProgress)
    {
      users := [];
      var i := 0;
      while i < |loaded|
        invariant 0 <= i <= |loaded|
        invariant users == ActiveUsers(loaded[..i])
        invariant notes == old(notes) && selectedUser == old(selectedUser) && keyword == old(keyword)
        invariant searchInProgress == old(searchInProgress)
      {
        ActiveUsersStep(loaded, i);
        if loaded[i].active {
          users := users + [loaded[i]];
        }
        i := i + 1;
      }
      assert loaded[..|loaded|] == loaded;
      loading := false;
    }

    /** loadUsers: the active accounts of one listing of the store. */
    method LoadUsers() returns (ghost loaded: seq<UserInfo>)
      modifies this
      ensures IsListing(store.files, loaded)
      ensures users == ActiveUsers(loaded) && !loading
      ensures notes == old(notes) && selectedUser == old(selectedUser) && keyword == old(keyword)
      ensures searchInProgress == old(searchInProgress)
    {
      loading := true;
      var listing, names := store.LoadAllUsers();
      ShowLoadedUsers(listing);
      loaded := listing;
    }

    /** The synchronous half of searchWithSelectedUser: validate, and raise the flag when the search starts. */
    method BeginSearch() returns (start: SearchStart)
      modifies this
      ensures start == StartOf(selectedUser, keyword)
      ensures searchInProgress == (start.Started? || old(searchInProgress))
      ensures users == old(users) && notes == old(notes) && loading == old(loading)
      ensures selectedUser == old(selectedUser) && keyword == old(keyword)
    {
      var user := selectedUser;
      var searchKeyword := keyword;
      if user.None? || !user.value.active {
        return Rejected(SearchFailed(None, searchKeyword, Failed));
      }
      if searchKeyword.None? || Trim(searchKeyword.value) == "" {
        return Rejected(SearchFailed(user.value.userId, Some(""), Failed));
      }
      searchInProgress := true;
      start := Started(user.value.userId, Trim(searchKeyword.value));
    }

    /** The completion of a started search: lower the flag, and reload the accounts after LOGIN_EXPIRED. */
    method FinishSearch(result: SearchResultDTO) returns (ghost loaded: Option<seq<UserInfo>>)
      modifies this
      ensures !searchInProgress
      ensures loaded.Some? <==> result.status == LoginExpired
      ensures loaded.Some? ==> IsListing(store.files, loaded.value) && users == ActiveUsers(loaded.value) && !loading
      ensures loaded.None? ==> users == old(users) && loading == old(loading)
      ensures notes == old(notes) && selectedUser == old(selectedUser) && keyword == old(keyword)
    {
      searchInProgress := false;
      loaded := None;
      if result.status == LoginExpired {
        var listing := LoadUsers();
        loaded := Some(listing);
      }
    }

    /**
     * searchWithSelectedUser, with the service run to its end. The service is called without log
     * and progress callbacks, so only the notes reach the consumer. After LOGIN_EXPIRED the reload
     * no longer offers the searched account, as long as every account file is named after its account.
     */
    method SearchWithSelectedUser(env: SearchEnv, now: Timestamp)
      returns (result: SearchResultDTO, delivered: seq<NoteInfo>, ghost reloaded: Option<seq<UserInfo>>)
      modifies this, store
      ensures var start := StartOf(old(selectedUser), old(keyword));
        && (start.Rejected? ==> (
              && result == start.result && delivered == [] && store.files == old(store.files)
              && reloaded.None? && users == old(users) && searchInProgress == old(searchInProgress)
              && loading == old(loading)))
        && (start.Started? ==>
              var run := Search(old(store.files), start.userId, Some(start.keyword), env, now);
              && result == run.result && delivered == EmittedItems(run.trace) && store.files == run.files
              && !searchInProgress
              && (reloaded.Some? <==> result.status == LoginExpired)
              && (reloaded.Some? ==> IsListing(store.files, reloaded.value) && users == ActiveUsers(reloaded.value))
              && (reloaded.None? ==> users == old(users) && loading == old(loading))
              && (reloaded.Some? ==> !loading)
              && (result.status == LoginExpired && WellFormed(old(store.files)) ==>
                    forall u :: u in users ==> u.userId != start.userId))
      ensures notes == old(notes) && selectedUser == old(selectedUser) && keyword == old(keyword)
    {
      var start := BeginSearch();
      if start.Rejected? {
        return start.result, [], None;
      }
      ghost var before := store.files;
      result, delivered := crawler.SearchForConsumer(start.userId, Some(start.keyword), env, now);
      reloaded := FinishSearch(result);
      if result.status == LoginExpired && WellFormed(before) {
        ExpiredSearchDropsAccount(before, start.userId, Some(start.keyword), env, now, reloaded.value);
      }
    }

    /** addNote: a null note is ignored. */
    method AddNote(note: Option<NoteInfo>)
      modifies this
      ensures notes == old(notes) + (if note.Some? then [note.value] else [])
      ensures users == old(users) && searchInProgress == old(searchInProgress)
      ensures loading == old(loading) && selectedUser == old(selectedUser) && keyword == old(keyword)
    {
      if note.Some? {
        notes := notes + [note.value];
      }
    }

    /** clearNotes. */
    method ClearNotes()
      modifies this
      ensures notes == [] && users == old(users) && searchInProgress == old(searchInProgress)
      ensures loading == old(loading) && selectedUser == old(selectedUser) && keyword == old(keyword)
    {
      notes := [];
    }
  }
}

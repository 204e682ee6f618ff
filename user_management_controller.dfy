/**
 * ui/controller/UserManagementController.java: the bookkeeping behind the account table:
 * the avatar cache under cache/avatars, its file names and formats, and the table's pages.
 */
module UserController {
  import opened Wrappers
  import opened Text
  import opened Entities
  import opened Paging
  import opened UserViewModel

  newtype byte = x: int | 0 <= x < 256

  /** The ASCII codes of "RIFF" and "WEBP". */
  const Riff: seq<byte> := [0x52, 0x49, 0x46, 0x46]
  const Webp: seq<byte> := [0x57, 0x45, 0x42, 0x50]

  /** The ASCII characters the bytes decode to under US_ASCII (anything above 0x7f decodes to U+FFFD). */
  function AsciiText(bs: seq<byte>): (s: string)
    ensures |s| == |bs|
  {
    seq(|bs|, i requires 0 <= i < |bs| => if bs[i] < 0x80 then bs[i] as int as char else 0xFFFD as char)
  }

  /** checkIfWebP on a file's content: at least 12 bytes, "RIFF" at 0-3 and "WEBP" at 8-11. */
  predicate IsWebPHeader(content: seq<byte>)
  {
    |content| >= 12 && AsciiText(content[..4]) == "RIFF" && AsciiText(content[8..12]) == "WEBP"
  }

  /** checkIfWebP compares exactly the header bytes: the text test is the byte test. */
  lemma WebPHeaderBytes(content: seq<byte>)
    ensures IsWebPHeader(content) <==> |content| >= 12 && content[..4] == Riff && content[8..12] == Webp
  {
    if |content| >= 12 {
      var a, b := content[..4], content[8..12];
      if AsciiText(a) == "RIFF" {
        forall i | 0 <= i < 4 ensures a[i] == Riff[i] {
          assert AsciiText(a)[i] == "RIFF"[i];
        }
      }
      if AsciiText(b) == "WEBP" {
        forall i | 0 <= i < 4 ensures b[i] == Webp[i] {
          assert AsciiText(b)[i] == "WEBP"[i];
        }
      }
    }
  }

  /** Any RIFF container of WEBP type passes, whatever its size field and payload. */
  lemma WebPContainerPasses(size: seq<byte>, payload: seq<byte>)
    requires |size| == 4
    ensures IsWebPHeader(Riff + size + Webp + payload)
  {
    var c := Riff + size + Webp + payload;
    assert c[..4] == Riff;
    assert c[8..12] == Webp;
    WebPHeaderBytes(c);
  }

  const AvatarPrefix: string := "avatar_"
  const AvatarDir: string := "cache/avatars/"

  /** The cache file name "avatar_" + userId + "." + extension. */
  function AvatarFileName(userId: string, ext: string): string
  {
    AvatarPrefix + userId + "." + ext
  }

  /** getAvatarCachePath: Paths.get("cache", "avatars", name) on a '/'-separated file system. */
  function AvatarCachePath(userId: string, ext: string): string
  {
    AvatarDir + AvatarFileName(userId, ext)
  }

  /** File.getName: what follows the last '/'. */
  function BaseName(path: string): (r: string)
    ensures var slash := LastIndexOf(path, '/'); r == path[slash + 1..]
  {
    path[LastIndexOf(path, '/') + 1..]
  }

  /** extractUserIdFromFilename on the file's name: between "avatar_" and the last '.', or null. */
  function UserIdFromFileName(name: string): (r: Option<string>)
    ensures r.Some? <==> StartsWith(name, AvatarPrefix) && LastIndexOf(name, '.') >= 0
    ensures r.Some? ==> |AvatarPrefix| <= LastIndexOf(name, '.') && r.value == name[|AvatarPrefix|..LastIndexOf(name, '.')]
  {
    if StartsWith(name, AvatarPrefix) && LastIndexOf(name, '.') >= 0 then
      var dot := LastIndexOf(name, '.');
      assert dot >= |AvatarPrefix| by {
        assert forall k :: 0 <= k < |AvatarPrefix| ==> name[k] == AvatarPrefix[k] && AvatarPrefix[k] != '.';
      }
      Some(name[|AvatarPrefix|..dot])
    else None
  }

  /** The name of a cache file gives back the id it was made from, for any extension without a dot. */
  lemma UserIdOfAvatarFileName(userId: string, ext: string)
    requires forall k :: 0 <= k < |ext| ==> ext[k] != '.'
    ensures UserIdFromFileName(AvatarFileName(userId, ext)) == Some(userId)
  {
    var name := AvatarFileName(userId, ext);
    assert name == (AvatarPrefix + userId) + ['.'] + ext;
    LastIndexOfAppend(AvatarPrefix + userId, '.', ext);
    assert name[..|AvatarPrefix|] == AvatarPrefix;
    assert name[|AvatarPrefix|..|AvatarPrefix| + |userId|] == userId;
  }

  /** The cache path's file name is the avatar file name when the id has no '/'. */
  lemma BaseNameOfCachePath(userId: string, ext: string)
    requires forall k :: 0 <= k < |userId| ==> userId[k] != '/'
    requires forall k :: 0 <= k < |ext| ==> ext[k] != '/'
    ensures BaseName(AvatarCachePath(userId, ext)) == AvatarFileName(userId, ext)
  {
    var dir := "cache/avatars";
    var name := AvatarFileName(userId, ext);
    assert AvatarCachePath(userId, ext) == dir + ['/'] + name;
    assert forall k :: 0 <= k < |name| ==> name[k] != '/' by {
      forall k | 0 <= k < |name| ensures name[k] != '/' {
        if k < 7 {
        } else if k < 7 + |userId| {
          assert name[k] == userId[k - 7];
        } else if k > 7 + |userId| {
          assert name[k] == ext[k - 8 - |userId|];
        }
      }
    }
    LastIndexOfAppend(dir, '/', name);
  }

  /** The formats findActualAvatarFile tries, in priority order. */
  const AvatarExtensions: seq<string> := ["webp", "jpg", "png", "gif"]

  /** The first of the extensions, from position k on, whose cache file exists. */
  function FirstAvatarFrom(names: set<string>, userId: string, k: nat): (r: Option<string>)
    requires k <= |AvatarExtensions|
    ensures r.Some? ==> exists j :: (
      && k <= j < |AvatarExtensions| && r.value == AvatarFileName(userId, AvatarExtensions[j]) && r.value in names
      && forall i :: k <= i < j ==> AvatarFileName(userId, AvatarExtensions[i]) !in names)
    ensures r.None? <==> forall j :: k <= j < |AvatarExtensions| ==> AvatarFileName(userId, AvatarExtensions[j]) !in names
    decreases |AvatarExtensions| - k
  {
    if k == |AvatarExtensions| then None
    else if AvatarFileName(userId, AvatarExtensions[k]) in names then Some(AvatarFileName(userId, AvatarExtensions[k]))
    else FirstAvatarFrom(names, userId, k + 1)
  }

  /** A WebP avatar wins over every other format; a JPEG is returned only when there is no WebP. */
  lemma AvatarPriority(names: set<string>, userId: string)
    ensures AvatarFileName(userId, "webp") in names ==> FirstAvatarFrom(names, userId, 0) == Some(AvatarFileName(userId, "webp"))
    ensures AvatarFileName(userId, "webp") !in names && AvatarFileName(userId, "jpg") in names ==>
      FirstAvatarFrom(names, userId, 0) == Some(AvatarFileName(userId, "jpg"))
  {
  }

  /**
   * determineImageExtension. `path` is what new URL(imageUrl).getPath() gives, None when the URL
   * does not parse.
   */
  function ImageExtensionOfUrl(imageUrl: string, path: Option<string>): (r: string)
    ensures Contains(imageUrl, "format=webp") ==> r == "webp"
    ensures (&& !Contains(imageUrl, "format=webp") && path.Some? && LastIndexOf(path.value, '.') >= 0
             && 1 <= Utf16Length(path.value[LastIndexOf(path.value, '.') + 1..]) <= 4) ==>
      r == ToLower(path.value[LastIndexOf(path.value, '.') + 1..])
    ensures r != "jpg" && r != "webp" ==> 1 <= |r| <= 4
  {
    if Contains(imageUrl, "format=webp") then "webp"
    else if path.Some? && LastIndexOf(path.value, '.') >= 0 then
      var ext := path.value[LastIndexOf(path.value, '.') + 1..];
      if 1 <= Utf16Length(ext) <= 4 then ToLower(ext) else "jpg"
    else "jpg"
  }

  /**
   * A path without a dot, or whose suffix is empty or longer than four UTF-16 units, falls back
   * to "jpg".
   */
  lemma ImageExtensionFallback(imageUrl: string, path: Option<string>)
    requires !Contains(imageUrl, "format=webp")
    requires path.None? || LastIndexOf(path.value, '.') < 0
      || !(1 <= Utf16Length(path.value[LastIndexOf(path.value, '.') + 1..]) <= 4)
    ensures ImageExtensionOfUrl(imageUrl, path) == "jpg"
  {
  }

  /** Three characters outside the Basic Multilingual Plane are six UTF-16 units: too long a suffix. */
  lemma AstralSuffixTooLong(imageUrl: string, dir: string, ext: string)
    requires !Contains(imageUrl, "format=webp") && '.' !in ext && |ext| == 3
    requires forall k :: 0 <= k < |ext| ==> ext[k] as int >= 0x1_0000
    ensures ImageExtensionOfUrl(imageUrl, Some(dir + "." + ext)) == "jpg"
  {
    var path := dir + "." + ext;
    assert forall j :: |dir| < j < |path| ==> path[j] == ext[j - |dir| - 1];
    LastIndexOfIs(path, '.', |dir|);
    assert path[|dir| + 1..] == ext;
    assert ext[..2][..1] == ext[..1] && ext[..1][..0] == [];
    assert Utf16Length(ext[..1]) == 2;
    assert Utf16Length(ext[..2]) == 4;
    assert ext[..3] == ext;
    assert ext[..3][..2] == ext[..2];
    assert Utf16Length(ext) == 6;
  }

  /** getExtensionFromContentType: case-insensitive, webp before jpeg/jpg before png before gif. */
  function ExtensionOfContentType(contentType: Option<string>): (r: Option<string>)
    ensures contentType.None? ==> r.None?
    ensures contentType.Some? ==>
      var t := ToLower(contentType.value);
      && (r == Some("webp") <==> Contains(t, "webp"))
      && (r == Some("jpg") <==> !Contains(t, "webp") && (Contains(t, "jpeg") || Contains(t, "jpg")))
      && (r == Some("png") <==> !Contains(t, "webp") && !Contains(t, "jpeg") && !Contains(t, "jpg") && Contains(t, "png"))
      && (r == Some("gif") <==> !Contains(t, "webp") && !Contains(t, "jpeg") && !Contains(t, "jpg") && !Contains(t, "png") && Contains(t, "gif"))
      && (r.None? <==> !Contains(t, "webp") && !Contains(t, "jpeg") && !Contains(t, "jpg") && !Contains(t, "png") && !Contains(t, "gif"))
  {
    if contentType.None? then None
    else
      var t := ToLower(contentType.value);
      if Contains(t, "webp") then Some("webp")
      else if Contains(t, "jpeg") || Contains(t, "jpg") then Some("jpg")
      else if Contains(t, "png") then Some("png")
      else if Contains(t, "gif") then Some("gif")
      else None
  }

  /** The cache after cleanupOldAvatarCache: the ".jpg" files whose bytes are a WebP header are gone. */
  function CleanedCache(cache: map<string, seq<byte>>): (r: map<string, seq<byte>>)
  {
    map n | n in cache && !(EndsWith(n, ".jpg") && IsWebPHeader(cache[n])) :: cache[n]
  }

  /** Only mislabelled files go; every other file stays with its content, and a second pass finds nothing. */
  lemma CleanedCacheKeeps(cache: map<string, seq<byte>>, n: string)
    ensures n in CleanedCache(cache) <==> n in cache && !(EndsWith(n, ".jpg") && IsWebPHeader(cache[n]))
    ensures n in CleanedCache(cache) ==> CleanedCache(cache)[n] == cache[n]
    ensures CleanedCache(CleanedCache(cache)) == CleanedCache(cache)
  {
  }

  class UserManagementController {
    const viewModel: UserManagementViewModel
    /** The regular files in cache/avatars, by name. */
    var cache: map<string, seq<byte>>
    /** The rows the table shows. */
    var tableItems: seq<UserInfo>

    constructor(viewModel: UserManagementViewModel, cache: map<string, seq<byte>>)
      ensures this.viewModel == viewModel && this.cache == cache && tableItems == []
    {
      this.viewModel := viewModel;
      this.cache := cache;
      tableItems := [];
    }

    /** cleanupOldAvatarCache: each listed file is checked once, in the listing's order. */
    method CleanupOldAvatarCache()
      modifies this
      ensures cache == CleanedCache(old(cache)) && tableItems == old(tableItems)
    {
      var remaining := cache.Keys;
      while remaining != {}
        invariant remaining <= old(cache).Keys
        invariant forall n :: n in cache <==> n in old(cache) && (n in remaining || n in CleanedCache(old(cache)))
        invariant forall n :: n in cache ==> cache[n] == old(cache)[n]
        invariant tableItems == old(tableItems)
        decreases |remaining|
      {
        var n :| n in remaining;
        if EndsWith(n, ".jpg") && IsWebPHeader(cache[n]) {
          cache := cache - {n};
        }
        remaining := remaining - {n};
      }
      assert cache.Keys == CleanedCache(old(cache)).Keys;
    }

    /** findActualAvatarFile: the cache path of the first format present, or null. */
    method FindActualAvatarFile(userId: string) returns (path: Option<string>)
      ensures path.Some? <==> FirstAvatarFrom(cache.Keys, userId, 0).Some?
      ensures path.Some? ==> path.value == AvatarDir + FirstAvatarFrom(cache.Keys, userId, 0).value
    {
      var k := 0;
      while k < |AvatarExtensions|
        invariant 0 <= k <= |AvatarExtensions|
        invariant FirstAvatarFrom(cache.Keys, userId, 0) == FirstAvatarFrom(cache.Keys, userId, k)
      {
        var ext := AvatarExtensions[k];
        if AvatarFileName(userId, ext) in cache {
          return Some(AvatarCachePath(userId, ext));
        }
        k := k + 1;
      }
      return None;
    }

    /** calculatePageCount: ceil(n / 10), so no page at all for no account. */
    function CalculatePageCount(): (c: nat)
      reads this, viewModel
      ensures c * RowsPerPage >= |viewModel.users| && (c > 0 ==> (c - 1) * RowsPerPage < |viewModel.users|)
      ensures c == 0 <==> viewModel.users == []
    {
      CeilPages(|viewModel.users|)
    }

    /** updateTableViewItems: the rows of page `pageIndex`, none past the end. */
    method UpdateTableViewItems(pageIndex: nat)
      modifies this
      ensures tableItems == PageSlice(viewModel.users, pageIndex) && cache == old(cache)
    {
      var fromIndex := pageIndex * RowsPerPage;
      var toIndex := if fromIndex + RowsPerPage <= |viewModel.users| then fromIndex + RowsPerPage else |viewModel.users|;
      if fromIndex >= |viewModel.users| {
        tableItems := [];
        return;
      }
      tableItems := viewModel.users[fromIndex..toIndex];
    }
  }
}

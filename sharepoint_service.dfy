/** Services/SharePointService.cs: reading the target of a `.url` file, the
    three getters that go through the cache (page text, file download, the
    files of a folder filtered by name and extension) and the choice between
    a small and a chunked upload. The SharePoint client, its queries and the
    HTML parser are a `Remote` whose answers are given; `ICacheService` is a
    map from keys to cached values. */
module SharePointService {
  import opened Common
  import opened Text
  import opened SharePointExtensions

  // ---------------------------------------------------------------------
  // ReadUrlFromFileAsync: the URL inside a .url file's text

  const UrlKey := "URL="
  const NewLine := "\r\n"

  /** `Substring`/`IndexOf` were given a start index past the end of the text. */
  datatype UrlError = StartIndexOutOfRange

  /** The text after the first "URL=" up to the next "\r\n" (or the end).
      When "URL=" is absent, `IndexOf` gives -1 and the text is read from
      index 3; a text shorter than that makes `IndexOf` throw. */
  function ExtractUrl(content: string): (r: Result<string, UrlError>)
    ensures var start := IndexOf(content, UrlKey, 0) + |UrlKey|;
      && (r.Err? <==> start > |content|)
      && (r.Ok? ==>
            && start + |r.value| <= |content|
            && r.value == content[start..start + |r.value|]
            && (start + |r.value| == |content| || OccursAt(content, NewLine, start + |r.value|))
            && (forall j :: start <= j < start + |r.value| ==> !OccursAt(content, NewLine, j)))
  {
    var start := IndexOf(content, UrlKey, 0) + |UrlKey|;
    if start > |content| then Err(StartIndexOutOfRange)
    else
      var found := IndexOf(content, NewLine, start);
      var end := if found == -1 then |content| else found;
      Ok(content[start..end])
  }

  /** The extracted URL never contains a line break "\r\n". */
  lemma ExtractedUrlHasNoNewLine(content: string)
    requires ExtractUrl(content).Ok?
    ensures forall k :: !OccursAt(ExtractUrl(content).value, NewLine, k)
  {
    var url := ExtractUrl(content).value;
    var start := IndexOf(content, UrlKey, 0) + |UrlKey|;
    assert url == content[start..start + |url|];
    forall k | OccursAt(url, NewLine, k)
      ensures false
    {
      assert url[k] == content[start + k] && url[k + 1] == content[start + k + 1];
      assert content[start + k..start + k + 2] == [url[k], url[k + 1]] == url[k..k + 2];
      assert OccursAt(content, NewLine, start + k);
    }
  }

  /** The first "URL=" of `header + "URL=" + rest` is the one after
      `header` when `header + "URL="` has no earlier one. */
  lemma FirstUrlKey(header: string, rest: string)
    requires forall j :: 0 <= j < |header| ==> !OccursAt(header + UrlKey, UrlKey, j)
    ensures IndexOf(header + UrlKey + rest, UrlKey, 0) == |header|
  {
    var prefix := header + UrlKey;
    var content := prefix + rest;
    assert content[|header|..|header| + |UrlKey|] == prefix[|header|..];
    assert OccursAt(content, UrlKey, |header|);
    forall j | 0 <= j < |header|
      ensures !OccursAt(content, UrlKey, j)
    {
      assert !OccursAt(prefix, UrlKey, j);
      assert content[j..j + |UrlKey|] == prefix[j..j + |UrlKey|];
    }
  }

  /** No "\r\n" starts inside `url` when `url` has none and what follows it
      is empty or starts with one. */
  lemma NoNewLineInside(p: string, url: string, tail: string)
    requires forall k :: !OccursAt(url, NewLine, k)
    requires tail == "" || IsPrefix(NewLine, tail)
    ensures forall j :: |p| <= j < |p| + |url| ==> !OccursAt(p + url + tail, NewLine, j)
  {
    var content := p + url + tail;
    forall j | |p| <= j < |p| + |url|
      ensures !OccursAt(content, NewLine, j)
    {
      assert |NewLine| == 2 && NewLine[1] == '\n';
      if j + 1 < |p| + |url| {
        assert !OccursAt(url, NewLine, j - |p|);
        assert content[j..j + 2] == url[j - |p|..j - |p| + 2];
      } else if tail != "" {
        assert tail[0] == '\r' by {
          assert tail[..2] == NewLine;
        }
        assert content[j..j + 2][1] == content[j + 1] == tail[0];
        assert content[j..j + 2] != NewLine;
      } else {
        assert j + 2 > |content|;
      }
    }
  }

  /** A `.url` file whose first "URL=" is followed by `url` and then a line
      break or the end of the text gives back exactly `url`. */
  lemma ExtractUrlOfShortcut(header: string, url: string, tail: string)
    requires forall j :: 0 <= j < |header| ==> !OccursAt(header + UrlKey, UrlKey, j)
    requires forall k :: !OccursAt(url, NewLine, k)
    requires tail == "" || IsPrefix(NewLine, tail)
    ensures ExtractUrl(header + UrlKey + url + tail) == Ok(url)
  {
    var prefix := header + UrlKey;
    var content := prefix + url + tail;
    assert header + UrlKey + url + tail == content;
    assert content == header + UrlKey + (url + tail);
    FirstUrlKey(header, url + tail);
    var start := |prefix|;
    var end := start + |url|;
    NoNewLineInside(prefix, url, tail);
    if tail != "" {
      assert content[end..end + 2] == tail[..2];
      assert OccursAt(content, NewLine, end);
    }
    assert content[start..end] == url;
  }

  // ---------------------------------------------------------------------
  // GetFilesByExtensionFromFolder: the name and extension filter

  /** A file is kept when its name starts with `startsWith` and its
      extension equals `extension`, both ignoring case. */
  predicate Matches(file: SpFile, extension: string, startsWith: string) {
    StartsWithIgnoreCase(file.name, startsWith) && EqualsIgnoreCase(GetExtension(file.name), extension)
  }

  /** The matching files, in folder order. */
  function SelectFiles(files: seq<SpFile>, extension: string, startsWith: string): (r: seq<SpFile>)
    ensures |r| <= |files|
  {
    if files == [] then []
    else
      var last := files[|files| - 1];
      SelectFiles(files[..|files| - 1], extension, startsWith)
        + (if Matches(last, extension, startsWith) then [last] else [])
  }

  /** Filtering a concatenation filters each part. */
  lemma {:induction false} SelectFilesAppend(a: seq<SpFile>, b: seq<SpFile>, extension: string, startsWith: string)
    ensures SelectFiles(a + b, extension, startsWith)
         == SelectFiles(a, extension, startsWith) + SelectFiles(b, extension, startsWith)
    decreases |b|
  {
    if b == [] {
      assert a + b == a;
    } else {
      var b' := b[..|b| - 1];
      assert (a + b)[..|a + b| - 1] == a + b';
      SelectFilesAppend(a, b', extension, startsWith);
    }
  }

  /** A file is selected exactly when it is in the folder and matches. */
  lemma {:induction false} SelectFilesMembers(files: seq<SpFile>, extension: string, startsWith: string, f: SpFile)
    ensures f in SelectFiles(files, extension, startsWith) <==> f in files && Matches(f, extension, startsWith)
  {
    if files != [] {
      var init := files[..|files| - 1];
      SelectFilesMembers(init, extension, startsWith, f);
      assert files == init + [files[|files| - 1]];
    }
  }

  /** The entry a file yields: its bytes and its `TimeLastModified`. */
  function Entries(files: seq<SpFile>): (r: seq<(Bytes, Time)>)
    ensures |r| == |files|
    ensures forall i :: 0 <= i < |files| ==> r[i] == (files[i].content, files[i].timeLastModified)
  {
    seq(|files|, i requires 0 <= i < |files| => (files[i].content, files[i].timeLastModified))
  }

  // ---------------------------------------------------------------------
  // Cache-aside

  /** What the SharePoint client answers; `paragraphs` stands for the HTML
      parser's `ExtractTextFromHtmlParagraphs`. */
  datatype PageItem = PageItem(contentTypeId: string, canvasContent: Option<string>)

  datatype Remote = Remote(
    page: (string, string) -> PageItem,
    paragraphs: string -> seq<string>,
    download: (string, string) -> Bytes,
    folderFiles: (string, string) -> seq<SpFile>)

  /** The three kinds of value the getters store. */
  datatype CacheEntry =
    | PageParagraphs(paragraphs: seq<string>)
    | FileBytes(bytes: Bytes)
    | FileEntries(entries: seq<(Bytes, Time)>)

  type Cache = map<string, CacheEntry>

  const PageTextTag := "GetSharePointPageTextAsync"
  const DownloadTag := "DownloadFileFromSharePointAsync"
  const FilesTag := "GetFilesByExtensionFromFolder:"

  /** Only modern pages (this content type) have text to extract. */
  const SitePageContentType := "0x0101009D1CB255DA76424F860D91F20E6C4118"

  function PageTextKey(pageUrl: string): string {
    PageTextTag + pageUrl
  }

  function DownloadKey(siteUrl: string, filePath: string): string {
    DownloadTag + siteUrl + filePath
  }

  function FilesKey(siteUrl: string, folderUrl: string, extension: string, startsWith: string): string {
    FilesTag + siteUrl + ":" + folderUrl + ":" + extension + ":" + startsWith
  }

  /** An entry has the kind its key's getter stores: `Get<T>` never meets a
      value of another type. */
  predicate EntryFits(key: string, entry: CacheEntry) {
    && (IsPrefix(PageTextTag, key) ==> entry.PageParagraphs?)
    && (IsPrefix(DownloadTag, key) ==> entry.FileBytes?)
    && (IsPrefix(FilesTag, key) ==> entry.FileEntries?)
  }

  predicate Fits(cache: Cache) {
    forall key :: key in cache ==> EntryFits(key, cache[key])
  }

  /** The three key families are disjoint, so each getter's entries fit. */
  lemma KeysFit(pageUrl: string, siteUrl: string, path: string, folderUrl: string, extension: string, startsWith: string,
                paragraphs: seq<string>, bytes: Bytes, entries: seq<(Bytes, Time)>)
    ensures EntryFits(PageTextKey(pageUrl), PageParagraphs(paragraphs))
    ensures EntryFits(DownloadKey(siteUrl, path), FileBytes(bytes))
    ensures EntryFits(FilesKey(siteUrl, folderUrl, extension, startsWith), FileEntries(entries))
  {
    var k1 := PageTextKey(pageUrl);
    var k2 := DownloadKey(siteUrl, path);
    var k3 := FilesKey(siteUrl, folderUrl, extension, startsWith);
    assert k1[..|PageTextTag|] == PageTextTag && k1[0] == 'G' && k1[3] == 'S';
    assert k2[..|DownloadTag|] == DownloadTag && k2[0] == 'D';
    assert k3[..|FilesTag|] == FilesTag && k3[0] == 'G' && k3[3] == 'F';
  }

  /** A getter's answer and the cache after it. */
  datatype Lookup<T> = Lookup(value: T, cache: Cache)

  /** `GetSharePointPageTextAsync`: a cached entry is returned as it is;
      otherwise the page's paragraphs are read and cached when the item is a
      modern page with canvas content, and null is returned when it is not. */
  function PageText(cache: Cache, remote: Remote, siteUrl: string, pageUrl: string): (r: Lookup<Option<seq<string>>>)
    requires Fits(cache)
    ensures Fits(r.cache)
  {
    var key := PageTextKey(pageUrl);
    if key in cache then Lookup(Some(cache[key].paragraphs), cache)
    else
      var item := remote.page(siteUrl, pageUrl);
      if IsPrefix(SitePageContentType, item.contentTypeId) && item.canvasContent.Some? then
        var paragraphs := remote.paragraphs(item.canvasContent.value);
        KeysFit(pageUrl, "", "", "", "", "", paragraphs, [], []);
        Lookup(Some(paragraphs), cache[key := PageParagraphs(paragraphs)])
      else Lookup(None, cache)
  }

  /** `DownloadFileFromSharePointAsync`: cached bytes, or the downloaded
      bytes, which are then cached. */
  function Download(cache: Cache, remote: Remote, siteUrl: string, filePath: string): (r: Lookup<Bytes>)
    requires Fits(cache)
    ensures Fits(r.cache)
  {
    var key := DownloadKey(siteUrl, filePath);
    if key in cache then Lookup(cache[key].bytes, cache)
    else
      var bytes := remote.download(siteUrl, filePath);
      KeysFit("", siteUrl, filePath, "", "", "", [], bytes, []);
      Lookup(bytes, cache[key := FileBytes(bytes)])
  }

  /** `GetFilesByExtensionFromFolder`: cached entries, or one entry per
      matching file of the folder, which are then cached. */
  function FilesByExtension(cache: Cache, remote: Remote, siteUrl: string, folderUrl: string,
                            extension: string, startsWith: string): (r: Lookup<seq<(Bytes, Time)>>)
    requires Fits(cache)
    ensures Fits(r.cache)
  {
    var key := FilesKey(siteUrl, folderUrl, extension, startsWith);
    if key in cache then Lookup(cache[key].entries, cache)
    else
      var entries := Entries(SelectFiles(remote.folderFiles(siteUrl, folderUrl), extension, startsWith));
      KeysFit("", siteUrl, "", folderUrl, extension, startsWith, [], [], entries);
      Lookup(entries, cache[key := FileEntries(entries)])
  }

  /** A page that is cached is answered from the cache, whatever the site
      would say, and the cache is left as it is. */
  lemma PageTextHit(cache: Cache, remote: Remote, other: Remote, siteUrl: string, pageUrl: string)
    requires Fits(cache) && PageTextKey(pageUrl) in cache
    ensures PageText(cache, remote, siteUrl, pageUrl) == PageText(cache, other, siteUrl, pageUrl)
    ensures PageText(cache, remote, siteUrl, pageUrl)
         == Lookup(Some(cache[PageTextKey(pageUrl)].paragraphs), cache)
  {
  }

  /** On a miss the page is cached exactly when it is a modern page with
      canvas content; the answer is its paragraphs, or null otherwise with the
      cache unchanged. */
  lemma PageTextMiss(cache: Cache, remote: Remote, siteUrl: string, pageUrl: string)
    requires Fits(cache) && PageTextKey(pageUrl) !in cache
    ensures var r := PageText(cache, remote, siteUrl, pageUrl);
      var item := remote.page(siteUrl, pageUrl);
      && (r.value.Some? <==> IsPrefix(SitePageContentType, item.contentTypeId) && item.canvasContent.Some?)
      && (r.value.Some? ==> r.value.value == remote.paragraphs(item.canvasContent.value)
                             && r.cache == cache[PageTextKey(pageUrl) := PageParagraphs(r.value.value)])
      && (r.value.None? ==> r.cache == cache)
  {
  }

  /** Asking for a page again after it was found gives the same paragraphs
      without going to the site. */
  lemma PageTextRepeat(cache: Cache, remote: Remote, later: Remote, siteUrl: string, pageUrl: string)
    requires Fits(cache)
    requires PageText(cache, remote, siteUrl, pageUrl).value.Some?
    ensures var first := PageText(cache, remote, siteUrl, pageUrl);
      PageText(first.cache, later, siteUrl, pageUrl) == first
  {
  }

  /** A cached download is answered from the cache and changes nothing; a
      missing one is fetched and stored under its key. */
  lemma DownloadCacheAside(cache: Cache, remote: Remote, other: Remote, siteUrl: string, filePath: string)
    requires Fits(cache)
    ensures var key := DownloadKey(siteUrl, filePath); var r := Download(cache, remote, siteUrl, filePath);
      && (key in cache ==> r == Lookup(cache[key].bytes, cache)
                           && r == Download(cache, other, siteUrl, filePath))
      && (key !in cache ==> r == Lookup(remote.download(siteUrl, filePath),
                                        cache[key := FileBytes(remote.download(siteUrl, filePath))]))
  {
  }

  /** The second download of a file returns the bytes of the first. */
  lemma DownloadRepeat(cache: Cache, remote: Remote, later: Remote, siteUrl: string, filePath: string)
    requires Fits(cache)
    ensures var first := Download(cache, remote, siteUrl, filePath);
      Download(first.cache, later, siteUrl, filePath) == first
  {
  }

  /** The key joins the site and the path with nothing between them, so two
      different (site, path) pairs with the same concatenation share one
      cached file. */
  lemma DownloadKeyShared(cache: Cache, remote: Remote, site1: string, path1: string, site2: string, path2: string)
    requires Fits(cache) && site1 + path1 == site2 + path2
    ensures var first := Download(cache, remote, site1, path1);
      Download(first.cache, remote, site2, path2).value == first.value
  {
    assert DownloadKey(site1, path1) == DownloadTag + (site1 + path1);
    assert DownloadKey(site2, path2) == DownloadTag + (site2 + path2);
  }

  /** A cached folder listing is answered from the cache; a missing one is
      the matching files' entries, stored under its key. */
  lemma FilesByExtensionCacheAside(cache: Cache, remote: Remote, other: Remote, siteUrl: string, folderUrl: string,
                                   extension: string, startsWith: string)
    requires Fits(cache)
    ensures var key := FilesKey(siteUrl, folderUrl, extension, startsWith);
      var r := FilesByExtension(cache, remote, siteUrl, folderUrl, extension, startsWith);
      var loaded := Entries(SelectFiles(remote.folderFiles(siteUrl, folderUrl), extension, startsWith));
      && (key in cache ==> r == Lookup(cache[key].entries, cache)
                           && r == FilesByExtension(cache, other, siteUrl, folderUrl, extension, startsWith))
      && (key !in cache ==> r == Lookup(loaded, cache[key := FileEntries(loaded)]))
  {
  }

  /** On a miss, each returned entry is the bytes and modification time of a
      file of the folder that matches, one per matching file, in folder order. */
  lemma FilesByExtensionEntries(cache: Cache, remote: Remote, siteUrl: string, folderUrl: string,
                                extension: string, startsWith: string)
    requires Fits(cache) && FilesKey(siteUrl, folderUrl, extension, startsWith) !in cache
    ensures var r := FilesByExtension(cache, remote, siteUrl, folderUrl, extension, startsWith).value;
      var kept := SelectFiles(remote.folderFiles(siteUrl, folderUrl), extension, startsWith);
      && |r| == |kept|
      && forall i :: 0 <= i < |r| ==>
           && r[i] == (kept[i].content, kept[i].timeLastModified)
           && kept[i] in remote.folderFiles(siteUrl, folderUrl)
           && Matches(kept[i], extension, startsWith)
  {
    var files := remote.folderFiles(siteUrl, folderUrl);
    var kept := SelectFiles(files, extension, startsWith);
    forall i | 0 <= i < |kept|
      ensures kept[i] in files && Matches(kept[i], extension, startsWith)
    {
      SelectFilesMembers(files, extension, startsWith, kept[i]);
    }
  }

  /** A hit returns the cached entries and leaves the cache alone; on a
      miss, each entry found is the bytes and time of a file of the folder
      that passes the filter. */
  lemma FilesByExtensionFromFolder(cache: Cache, remote: Remote, siteUrl: string, folderUrl: string,
                                   extension: string, startsWith: string)
    requires Fits(cache)
    ensures var key := FilesKey(siteUrl, folderUrl, extension, startsWith);
      var r := FilesByExtension(cache, remote, siteUrl, folderUrl, extension, startsWith);
      && (key in cache ==> r == Lookup(cache[key].entries, cache))
      && (key !in cache ==> forall e :: e in r.value ==>
            exists f :: f in remote.folderFiles(siteUrl, folderUrl) && Matches(f, extension, startsWith)
                     && e == (f.content, f.timeLastModified))
  {
    if FilesKey(siteUrl, folderUrl, extension, startsWith) in cache {
      return;
    }
    var r := FilesByExtension(cache, remote, siteUrl, folderUrl, extension, startsWith).value;
    var kept := SelectFiles(remote.folderFiles(siteUrl, folderUrl), extension, startsWith);
    FilesByExtensionEntries(cache, remote, siteUrl, folderUrl, extension, startsWith);
    forall e | e in r
      ensures exists f :: f in remote.folderFiles(siteUrl, folderUrl) && Matches(f, extension, startsWith)
                       && e == (f.content, f.timeLastModified)
    {
      var i :| 0 <= i < |r| && r[i] == e;
      assert e == (kept[i].content, kept[i].timeLastModified);
    }
  }

  /** The service: the site client and the cache its getters share. */
  class SharePointClient {
    const remote: Remote
    var cache: Cache

    ghost predicate Valid()
      reads this
    {
      Fits(cache)
    }

    constructor (remote: Remote)
      ensures this.remote == remote && cache == map[] && Valid()
    {
      this.remote := remote;
      cache := map[];
    }

    method GetSharePointPageText(siteUrl: string, pageUrl: string) returns (pageParagraphs: Option<seq<string>>)
      requires Valid()
      modifies this
      ensures Valid()
      ensures Lookup(pageParagraphs, cache) == PageText(old(cache), remote, siteUrl, pageUrl)
    {
      var cacheKey := PageTextKey(pageUrl);
      pageParagraphs := if cacheKey in cache then Some(cache[cacheKey].paragraphs) else None;
      if pageParagraphs.None? {
        var listItem := remote.page(siteUrl, pageUrl);
        if IsPrefix(SitePageContentType, listItem.contentTypeId) {
          if listItem.canvasContent.Some? {
            var paragraphs := remote.paragraphs(listItem.canvasContent.value);
            pageParagraphs := Some(paragraphs);
            KeysFit(pageUrl, "", "", "", "", "", paragraphs, [], []);
            cache := cache[cacheKey := PageParagraphs(paragraphs)];
          }
        }
      }
    }

    method DownloadFileFromSharePoint(siteUrl: string, filePath: string) returns (fileBytes: Bytes)
      requires Valid()
      modifies this
      ensures Valid()
      ensures Lookup(fileBytes, cache) == Download(old(cache), remote, siteUrl, filePath)
    {
      var cacheKey := DownloadKey(siteUrl, filePath);
      if cacheKey in cache {
        fileBytes := cache[cacheKey].bytes;
      } else {
        fileBytes := remote.download(siteUrl, filePath);
        KeysFit("", siteUrl, filePath, "", "", "", [], fileBytes, []);
        cache := cache[cacheKey := FileBytes(fileBytes)];
      }
    }

    method GetFilesByExtensionFromFolder(siteUrl: string, folderUrl: string, extension: string, startsWith: string)
      returns (byteArrays: seq<(Bytes, Time)>)
      requires Valid()
      modifies this
      ensures Valid()
      ensures Lookup(byteArrays, cache) == FilesByExtension(old(cache), remote, siteUrl, folderUrl, extension, startsWith)
    {
      var cacheKey := FilesKey(siteUrl, folderUrl, extension, startsWith);
      if cacheKey in cache {
        byteArrays := cache[cacheKey].entries;
      } else {
        byteArrays := [];
        var filteredFiles := SelectFiles(remote.folderFiles(siteUrl, folderUrl), extension, startsWith);
        var i := 0;
        while i < |filteredFiles|
          invariant 0 <= i <= |filteredFiles|
          invariant byteArrays == Entries(filteredFiles[..i])
        {
          var file := filteredFiles[i];
          byteArrays := byteArrays + [(file.content, file.timeLastModified)];
          i := i + 1;
        }
        assert filteredFiles[..i] == filteredFiles;
        KeysFit("", siteUrl, "", folderUrl, extension, startsWith, [], [], byteArrays);
        cache := cache[cacheKey := FileEntries(byteArrays)];
      }
    }
  }

  // ---------------------------------------------------------------------
  // UploadFileToSharePointAsync

  /** 2 MB: the largest payload sent in one request, and the block size of a
      chunked upload. */
  const BlockSize := 2 * 1024 * 1024

  datatype UploadKind = SmallUpload | LargeUpload(blockSize: nat)

  /** How a payload of `length` bytes is uploaded. */
  function ChooseUpload(length: nat): (k: UploadKind)
    ensures k == SmallUpload <==> length <= BlockSize
    ensures k.LargeUpload? ==> k.blockSize == BlockSize
  {
    if length <= BlockSize then SmallUpload else LargeUpload(BlockSize)
  }
}

/** Extensions/SharePointExtensions.cs: collecting the supported files of a
    SharePoint folder tree, and the site URL of a full URL. The folder tree
    is given as a value (what the CSOM queries load); the URL as the three
    parts System.Uri yields. */
module SharePointExtensions {
  import opened Common
  import opened Text

  /** A SharePoint file: its name, server-relative URL, last-modified time
      and content. */
  datatype SpFile = SpFile(name: string, serverRelativeUrl: string, timeLastModified: Time, content: Bytes)

  /** A SharePoint folder with its files and subfolders. */
  datatype Folder = Folder(name: string, files: seq<SpFile>, folders: seq<Folder>)

  /** What is collected of a file: (ServerRelativeUrl, TimeLastModified). */
  type FileInfo = (string, Time)

  /** The library's form-templates folder, never descended into. */
  const FormsFolder := "Forms"

  /** The file's extension, lower-cased, is one of the supported ones. */
  predicate Supported(file: SpFile, supportedExtensions: seq<string>) {
    LowerStr(GetExtension(file.name)) in supportedExtensions
  }

  /** `files.Where(Supported)`: the supported files, in order. */
  function SupportedOnly(files: seq<SpFile>, supportedExtensions: seq<string>): (r: seq<SpFile>)
    ensures |r| <= |files|
  {
    if files == [] then []
    else
      var last := files[|files| - 1];
      SupportedOnly(files[..|files| - 1], supportedExtensions)
      + (if Supported(last, supportedExtensions) then [last] else [])
  }

  lemma {:induction false} SupportedOnlyAppend(a: seq<SpFile>, b: seq<SpFile>, supportedExtensions: seq<string>)
    ensures SupportedOnly(a + b, supportedExtensions)
         == SupportedOnly(a, supportedExtensions) + SupportedOnly(b, supportedExtensions)
    decreases |b|
  {
    if b == [] {
      assert a + b == a;
    } else {
      assert (a + b)[..|a + b| - 1] == a + b[..|b| - 1];
      SupportedOnlyAppend(a, b[..|b| - 1], supportedExtensions);
    }
  }

  /** A file is kept exactly when it is among the files and its extension is
      supported. */
  lemma {:induction false} SupportedOnlyMembers(files: seq<SpFile>, supportedExtensions: seq<string>, f: SpFile)
    ensures f in SupportedOnly(files, supportedExtensions) <==> f in files && Supported(f, supportedExtensions)
  {
    if files != [] {
      var init := files[..|files| - 1];
      SupportedOnlyMembers(init, supportedExtensions, f);
      assert files == init + [files[|files| - 1]];
    }
  }

  function Info(file: SpFile): FileInfo {
    (file.serverRelativeUrl, file.timeLastModified)
  }

  function Infos(files: seq<SpFile>): (r: seq<FileInfo>)
    ensures |r| == |files|
    ensures forall i :: 0 <= i < |files| ==> r[i] == Info(files[i])
  {
    seq(|files|, i requires 0 <= i < |files| => Info(files[i]))
  }

  lemma InfosAppend(a: seq<SpFile>, b: seq<SpFile>)
    ensures Infos(a + b) == Infos(a) + Infos(b)
  {
  }

  // ---------------------------------------------------------------------
  // RetrieveSupportedFilesRecursively

  /** What the traversal appends for `folder`: its own supported files, then,
      when subfolders are included, those of each subfolder not named
      "Forms", in order. */
  function Collected(folder: Folder, supportedExtensions: seq<string>, includeSubfolders: bool): seq<FileInfo>
    decreases folder, 1
  {
    Infos(SupportedOnly(folder.files, supportedExtensions))
    + (if includeSubfolders then CollectedIn(folder.folders, supportedExtensions) else [])
  }

  function CollectedIn(subfolders: seq<Folder>, supportedExtensions: seq<string>): seq<FileInfo>
    decreases subfolders, 0
  {
    if subfolders == [] then []
    else
      var last := subfolders[|subfolders| - 1];
      CollectedIn(subfolders[..|subfolders| - 1], supportedExtensions)
      + (if last.name != FormsFolder then Collected(last, supportedExtensions, true) else [])
  }

  /** The caller-owned list the traversal appends to. */
  class FileList {
    var items: seq<FileInfo>

    constructor ()
      ensures items == []
    {
      items := [];
    }
  }

  /** The recursive traversal: appends what `Collected` gives and leaves the
      entries already in the list untouched. */
  method RetrieveSupportedFilesRecursively(folder: Folder, supportedFiles: FileList,
                                           supportedExtensions: seq<string>, includeSubfolders: bool)
    modifies supportedFiles
    ensures supportedFiles.items
         == old(supportedFiles.items) + Collected(folder, supportedExtensions, includeSubfolders)
    decreases folder
  {
    var filteredFiles := SupportedOnly(folder.files, supportedExtensions);
    var i := 0;
    while i < |filteredFiles|
      invariant 0 <= i <= |filteredFiles|
      invariant supportedFiles.items == old(supportedFiles.items) + Infos(filteredFiles[..i])
    {
      supportedFiles.items := supportedFiles.items + [Info(filteredFiles[i])];
      assert Infos(filteredFiles[..i + 1]) == Infos(filteredFiles[..i]) + [Info(filteredFiles[i])];
      i := i + 1;
    }
    assert filteredFiles[..i] == filteredFiles;
    ghost var own := old(supportedFiles.items) + Infos(filteredFiles);
    if includeSubfolders {
      var subfolders := folder.folders;
      var j := 0;
      while j < |subfolders|
        invariant 0 <= j <= |subfolders|
        invariant supportedFiles.items == own + CollectedIn(subfolders[..j], supportedExtensions)
      {
        ghost var done := CollectedIn(subfolders[..j], supportedExtensions);
        var subfolder := subfolders[j];
        if subfolder.name != FormsFolder {
          RetrieveSupportedFilesRecursively(subfolder, supportedFiles, supportedExtensions, includeSubfolders);
        }
        ghost var added := if subfolder.name != FormsFolder then Collected(subfolder, supportedExtensions, true) else [];
        assert supportedFiles.items == (own + done) + added;
        CollectedInStep(subfolders, j, supportedExtensions);
        AppendAssociative(own, done, added);
        assert supportedFiles.items == own + CollectedIn(subfolders[..j + 1], supportedExtensions);
        j := j + 1;
      }
      assert subfolders[..j] == subfolders;
      AppendAssociative(old(supportedFiles.items), Infos(filteredFiles), CollectedIn(subfolders, supportedExtensions));
    } else {
      assert Infos(filteredFiles) + [] == Infos(filteredFiles);
    }
  }

  /** One more subfolder of the loop: what it contributes comes after what
      the earlier ones did. */
  lemma CollectedInStep(subfolders: seq<Folder>, j: nat, supportedExtensions: seq<string>)
    requires j < |subfolders|
    ensures CollectedIn(subfolders[..j + 1], supportedExtensions)
         == CollectedIn(subfolders[..j], supportedExtensions)
            + (if subfolders[j].name != FormsFolder then Collected(subfolders[j], supportedExtensions, true) else [])
  {
    assert subfolders[..j + 1][..j] == subfolders[..j];
  }

  /** The files of the tree in traversal order: a folder's own files, then
      those of its subfolders, skipping every "Forms" subfolder. */
  function Walk(folder: Folder): seq<SpFile>
    decreases folder, 1
  {
    folder.files + WalkIn(folder.folders)
  }

  function WalkIn(subfolders: seq<Folder>): seq<SpFile>
    decreases subfolders, 0
  {
    if subfolders == [] then []
    else
      var last := subfolders[|subfolders| - 1];
      WalkIn(subfolders[..|subfolders| - 1]) + (if last.name != FormsFolder then Walk(last) else [])
  }

  /** Filtering commutes with the traversal: the collected entries are the
      supported files of the walk, in walk order. */
  lemma {:induction false} CollectedIsFilteredWalk(folder: Folder, supportedExtensions: seq<string>)
    ensures Collected(folder, supportedExtensions, true) == Infos(SupportedOnly(Walk(folder), supportedExtensions))
    decreases folder, 1
  {
    CollectedInIsFilteredWalk(folder.folders, supportedExtensions);
    SupportedOnlyAppend(folder.files, WalkIn(folder.folders), supportedExtensions);
    InfosAppend(SupportedOnly(folder.files, supportedExtensions), SupportedOnly(WalkIn(folder.folders), supportedExtensions));
  }

  lemma {:induction false} CollectedInIsFilteredWalk(subfolders: seq<Folder>, supportedExtensions: seq<string>)
    ensures CollectedIn(subfolders, supportedExtensions) == Infos(SupportedOnly(WalkIn(subfolders), supportedExtensions))
    decreases subfolders, 0
  {
    if subfolders != [] {
      var init := subfolders[..|subfolders| - 1];
      var last := subfolders[|subfolders| - 1];
      CollectedInIsFilteredWalk(init, supportedExtensions);
      var tail := if last.name != FormsFolder then Walk(last) else [];
      if last.name != FormsFolder {
        CollectedIsFilteredWalk(last, supportedExtensions);
      }
      SupportedOnlyAppend(WalkIn(init), tail, supportedExtensions);
      InfosAppend(SupportedOnly(WalkIn(init), supportedExtensions), SupportedOnly(tail, supportedExtensions));
    }
  }

  lemma {:induction false} CollectedInAppend(a: seq<Folder>, b: seq<Folder>, supportedExtensions: seq<string>)
    ensures CollectedIn(a + b, supportedExtensions) == CollectedIn(a, supportedExtensions) + CollectedIn(b, supportedExtensions)
    decreases |b|
  {
    if b == [] {
      assert a + b == a;
    } else {
      var b' := b[..|b| - 1];
      var last := b[|b| - 1];
      var tail := if last.name != FormsFolder then Collected(last, supportedExtensions, true) else [];
      assert (a + b)[..|a + b| - 1] == a + b';
      assert (a + b)[|a + b| - 1] == last;
      assert CollectedIn(a + b, supportedExtensions) == CollectedIn(a + b', supportedExtensions) + tail;
      assert CollectedIn(b, supportedExtensions) == CollectedIn(b', supportedExtensions) + tail;
      CollectedInAppend(a, b', supportedExtensions);
      AppendAssociative(CollectedIn(a, supportedExtensions), CollectedIn(b', supportedExtensions), tail);
    }
  }

  /** A subfolder named "Forms" contributes nothing, whatever it holds. */
  lemma FormsFolderIgnored(before: seq<Folder>, forms: Folder, after: seq<Folder>, supportedExtensions: seq<string>)
    requires forms.name == FormsFolder
    ensures CollectedIn(before + [forms] + after, supportedExtensions)
         == CollectedIn(before + after, supportedExtensions)
  {
    CollectedInAppend(before + [forms], after, supportedExtensions);
    CollectedInAppend(before, [forms], supportedExtensions);
    CollectedInAppend(before, after, supportedExtensions);
    assert [forms][..0] == [];
  }

  // ---------------------------------------------------------------------
  // GetSupportedFilesInFolderAsync

  /** `items.Where(a => !a.Item1.StartsWith(prefix))`, in order. */
  function WithoutPrefix(items: seq<FileInfo>, prefix: string): (r: seq<FileInfo>)
    ensures |r| <= |items|
    ensures forall e :: e in r <==> e in items && !IsPrefix(prefix, e.0)
  {
    if items == [] then []
    else
      var last := items[|items| - 1];
      WithoutPrefix(items[..|items| - 1], prefix) + (if !IsPrefix(prefix, last.0) then [last] else [])
  }

  lemma {:induction false} WithoutPrefixAppend(a: seq<FileInfo>, b: seq<FileInfo>, prefix: string)
    ensures WithoutPrefix(a + b, prefix) == WithoutPrefix(a, prefix) + WithoutPrefix(b, prefix)
    decreases |b|
  {
    if b == [] {
      assert a + b == a;
    } else {
      assert (a + b)[..|a + b| - 1] == a + b[..|b| - 1];
      WithoutPrefixAppend(a, b[..|b| - 1], prefix);
    }
  }

  /** The files of the whole tree below `folder`, without those whose URL
      lies under `folderPath + "/Forms/"`. */
  method GetSupportedFilesInFolder(folderPath: string, folder: Folder, supportedExtensions: seq<string>)
    returns (r: seq<FileInfo>)
    ensures r == WithoutPrefix(Collected(folder, supportedExtensions, true), folderPath + "/Forms/")
  {
    var supportedFiles := new FileList();
    RetrieveSupportedFilesRecursively(folder, supportedFiles, supportedExtensions, true);
    assert supportedFiles.items == Collected(folder, supportedExtensions, true);
    r := WithoutPrefix(supportedFiles.items, folderPath + "/Forms/");
  }

  // ---------------------------------------------------------------------
  // GetSiteUrlFromFullUrl

  /** The parts of a parsed absolute URL that are used. */
  datatype Uri = Uri(scheme: string, host: string, absolutePath: string)

  /** The non-empty pieces of a split, in order. */
  function NonEmpty(pieces: seq<string>): (r: seq<string>)
    ensures forall x :: x in r <==> x in pieces && x != ""
  {
    if pieces == [] then []
    else (if pieces[0] != "" then [pieces[0]] else []) + NonEmpty(pieces[1..])
  }

  /** `path.Split('/', RemoveEmptyEntries)` */
  function Segments(path: string): (r: seq<string>)
    ensures forall i :: 0 <= i < |r| ==> r[i] != "" && '/' !in r[i]
  {
    SplitPiecesWithout(path, '/');
    var r := NonEmpty(Split(path, '/'));
    assert forall i :: 0 <= i < |r| ==> r[i] in r;
    r
  }

  /** `scheme://host/` followed by the first two path segments (fewer when
      the path has fewer) joined with '/'. */
  function GetSiteUrlFromFullUrl(uri: Uri): (r: string)
    ensures IsPrefix(uri.scheme + "://" + uri.host + "/", r)
  {
    var segments := Segments(uri.absolutePath);
    var root := uri.scheme + "://" + uri.host + "/";
    var r := root + Join("/", segments[..Min(2, |segments|)]);
    assert r[..|root|] == root;
    r
  }

  /** Dropping empty pieces, one piece at a time. */
  lemma NonEmptyCons(x: string, t: seq<string>)
    ensures NonEmpty([x] + t) == (if x != "" then [x] else []) + NonEmpty(t)
  {
    assert ([x] + t)[1..] == t;
  }

  /** Dropping empty pieces keeps the order: the pieces of a concatenation
      are those of its first part, then those of its second. */
  lemma {:induction false} NonEmptyAppend(a: seq<string>, b: seq<string>)
    ensures NonEmpty(a + b) == NonEmpty(a) + NonEmpty(b)
  {
    if a != [] {
      calc {
        NonEmpty(a + b);
        { assert a + b == [a[0]] + (a[1..] + b); NonEmptyCons(a[0], a[1..] + b); }
        (if a[0] != "" then [a[0]] else []) + NonEmpty(a[1..] + b);
        { NonEmptyAppend(a[1..], b); }
        (if a[0] != "" then [a[0]] else []) + (NonEmpty(a[1..]) + NonEmpty(b));
        { AppendAssociative(if a[0] != "" then [a[0]] else [], NonEmpty(a[1..]), NonEmpty(b)); }
        NonEmpty(a) + NonEmpty(b);
      }
    } else {
      assert a + b == b;
    }
  }

  /** A path without '/' is one segment, or none when it is empty. */
  lemma SegmentsOfPiece(a: string)
    requires '/' !in a
    ensures Segments(a) == (if a == "" then [] else [a])
  {
    SplitWithout(a, '/');
    NonEmptyCons(a, []);
    assert [a] + [] == [a];
  }

  /** The text before the first '/' is the first segment unless it is empty,
      and the segments of what follows the '/' come after it; so a leading
      '/' and a doubled '/' add no segment. */
  lemma SegmentsAfterSlash(a: string, p: string)
    requires '/' !in a
    ensures Segments(a + "/" + p) == (if a == "" then [] else [a]) + Segments(p)
  {
    assert a + "/" + p == a + ['/'] + p;
    SplitAtFirst(a, p, '/');
    NonEmptyCons(a, Split(p, '/'));
  }

  /** The first piece of `b + rest` split on '/' is `b` when `b` has no '/'
      and `rest` is empty or starts with one. */
  lemma SplitHead(b: string, rest: string)
    requires '/' !in b
    requires rest == "" || rest[0] == '/'
    ensures Split(b + rest, '/')[0] == b
  {
    if rest == "" {
      assert b + rest == b;
      SplitWithout(b, '/');
    } else {
      assert b + rest == b + ['/'] + rest[1..];
      SplitAtFirst(b, rest[1..], '/');
    }
  }

  /** Splitting `/a/` followed by `tail` on '/' gives "", `a`, then the
      pieces of `tail`. */
  lemma SplitOfRootedPiece(a: string, tail: string)
    requires '/' !in a
    ensures Split("/" + a + "/" + tail, '/') == ["", a] + Split(tail, '/')
  {
    var afterRoot := a + ['/'] + tail;
    assert "/" + a + "/" + tail == [] + ['/'] + afterRoot;
    SplitAtFirst([], afterRoot, '/');
    SplitAtFirst(a, tail, '/');
  }

  /** Splitting such a path gives "", a, b and then the pieces after b. */
  lemma SitePathPieces(a: string, b: string, rest: string)
    requires a != "" && b != "" && '/' !in a && '/' !in b
    requires rest == "" || rest[0] == '/'
    ensures var tail := Split(b + rest, '/');
      && |tail| >= 1
      && NonEmpty(Split("/" + a + "/" + b + rest, '/')) == [a, b] + NonEmpty(tail[1..])
  {
    var path := "/" + a + "/" + b + rest;
    var tail := Split(b + rest, '/');
    assert Split(path, '/') == ["", a] + tail by {
      assert path == "/" + a + "/" + (b + rest);
      SplitOfRootedPiece(a, b + rest);
    }
    SplitHead(b, rest);
    NonEmptyAfterRoot(a, tail);
  }

  /** Dropping the empty piece before `a` keeps `a` and the non-empty head
      of what follows. */
  lemma NonEmptyAfterRoot(a: string, tail: seq<string>)
    requires a != "" && tail != [] && tail[0] != ""
    ensures NonEmpty(["", a] + tail) == [a, tail[0]] + NonEmpty(tail[1..])
  {
    var b, z := tail[0], tail[1..];
    calc {
      NonEmpty(["", a] + tail);
      { assert ["", a] + tail == [""] + ([a] + tail); }
      NonEmpty([""] + ([a] + tail));
      { NonEmptyCons("", [a] + tail); }
      NonEmpty([a] + tail);
      { NonEmptyCons(a, tail); }
      [a] + NonEmpty(tail);
      [a] + ([b] + NonEmpty(z));
      { AppendAssociative([a], [b], NonEmpty(z)); }
      [a, b] + NonEmpty(z);
    }
  }

  /** A path that starts `/a/b` (followed by nothing or by another '/') has
      `a` and `b` as its first two segments. */
  lemma SegmentsOfSitePath(a: string, b: string, rest: string)
    requires a != "" && b != "" && '/' !in a && '/' !in b
    requires rest == "" || rest[0] == '/'
    ensures var segments := Segments("/" + a + "/" + b + rest);
      |segments| >= 2 && segments[..2] == [a, b]
  {
    SitePathPieces(a, b, rest);
    var more := NonEmpty(Split(b + rest, '/')[1..]);
    assert Segments("/" + a + "/" + b + rest) == [a, b] + more;
    assert ([a, b] + more)[..2] == [a, b];
  }

  /** For a path that starts `/a/b` (followed by nothing or by another '/'),
      the site URL is `scheme://host/a/b`. */
  lemma SiteUrlOfSitePath(scheme: string, host: string, a: string, b: string, rest: string)
    requires a != "" && b != "" && '/' !in a && '/' !in b
    requires rest == "" || rest[0] == '/'
    ensures GetSiteUrlFromFullUrl(Uri(scheme, host, "/" + a + "/" + b + rest))
         == scheme + "://" + host + "/" + a + "/" + b
  {
    var path := "/" + a + "/" + b + rest;
    SegmentsOfSitePath(a, b, rest);
    var segments := Segments(path);
    assert segments[..Min(2, |segments|)] == [a, b];
    assert Join("/", [a, b]) == a + "/" + b by {
      assert [a, b][1..] == [b];
    }
    var root := scheme + "://" + host + "/";
    assert GetSiteUrlFromFullUrl(Uri(scheme, host, path)) == root + (a + "/" + b);
    AppendAssociative(root, a + "/", b);
    AppendAssociative(root, a, "/");
  }

  /** The root path has no segment, so the site URL is `scheme://host/`. */
  lemma SiteUrlOfRoot(scheme: string, host: string)
    ensures GetSiteUrlFromFullUrl(Uri(scheme, host, "/")) == scheme + "://" + host + "/"
  {
    assert "/" == "" + "/" + "";
    SegmentsAfterSlash("", "");
    SegmentsOfPiece("");
    assert Join("/", []) == "";
  }

  /** A path of one segment `/a`, with or without a final '/', gives the
      site URL `scheme://host/a`. */
  lemma SiteUrlOfOneSegment(scheme: string, host: string, a: string, rest: string)
    requires a != "" && '/' !in a
    requires rest == "" || rest == "/"
    ensures GetSiteUrlFromFullUrl(Uri(scheme, host, "/" + a + rest)) == scheme + "://" + host + "/" + a
  {
    var path := "/" + a + rest;
    assert path == "" + "/" + (a + rest);
    SegmentsAfterSlash("", a + rest);
    if rest == "" {
      assert a + rest == a;
      SegmentsOfPiece(a);
    } else {
      assert a + rest == a + "/" + "";
      SegmentsAfterSlash(a, "");
      SegmentsOfPiece("");
    }
    assert Segments(path) == [a];
    assert Join("/", [a]) == a;
  }
}

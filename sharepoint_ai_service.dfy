/** Services/SharePointAIService.cs: the SharePoint-safe file names the
    embedding files are stored under, the lookup of a document's embedding
    files by name prefix, and the batching loop that embeds a document's
    lines and uploads the result, returning what it uploaded. */
module SharePointAIService {
  import opened Common
  import opened Text
  import opened EmbeddingBatches
  import SharePointExtensions
  import SharePointService

  // ---------------------------------------------------------------------
  // MakeValidSharePointFileName

  const MaxFileNameLength := 128

  /** The characters of the class `[~#%&*\{\}:<>\?\/\+\|\"\.]`. */
  predicate Invalid(c: char) {
    || c == '~' || c == '#' || c == '%' || c == '&' || c == '*' || c == '{' || c == '}' || c == ':'
    || c == '<' || c == '>' || c == '?' || c == '/' || c == '+' || c == '|' || c == '"' || c == '.'
  }

  /** `Regex.Replace(fileName, invalidChars, "_")`: every invalid character
      becomes '_'. */
  function ReplaceInvalid(s: string): (r: string)
    ensures |r| == |s|
    ensures forall i :: 0 <= i < |s| ==> r[i] == (if Invalid(s[i]) then '_' else s[i])
  {
    seq(|s|, i requires 0 <= i < |s| => if Invalid(s[i]) then '_' else s[i])
  }

  /** `Regex.Replace(s, @"(^\.|\.$)", "")`: drops a leading '.', and a '.'
      that ends the text or stands right before a final '\n' (where `$` also
      matches); one '.' that is both is dropped once. */
  function RemoveBoundaryDots(s: string): string {
    var from := if |s| >= 1 && s[0] == '.' then 1 else 0;
    var last :=
      if |s| >= 1 && s[|s| - 1] == '.' then |s| - 1
      else if |s| >= 2 && s[|s| - 1] == '\n' && s[|s| - 2] == '.' then |s| - 2
      else -1;
    if last < from then s[from..]
    else s[from..last] + s[last + 1..]
  }

  /** Keep at most the first 128 characters. */
  function Truncate(s: string): string {
    if |s| > MaxFileNameLength then s[..MaxFileNameLength] else s
  }

  /** The sanitised name is the input with every invalid character replaced
      one for one by '_', cut to 128 characters; none of the invalid
      characters is left in it. */
  function MakeValidSharePointFileName(fileName: string): (r: string)
    ensures |r| == Min(MaxFileNameLength, |fileName|)
    ensures forall i :: 0 <= i < |r| ==> r[i] == (if Invalid(fileName[i]) then '_' else fileName[i])
    ensures forall i :: 0 <= i < |r| ==> !Invalid(r[i])
  {
    var replaced := ReplaceInvalid(fileName);
    assert '.' !in replaced by {
      forall i | 0 <= i < |replaced| ensures replaced[i] != '.' {
      }
    }
    RemoveBoundaryDotsWithoutDots(replaced);
    Truncate(RemoveBoundaryDots(replaced))
  }

  /** '.' is in the first class already, so the second replacement finds
      nothing to remove. */
  lemma RemoveBoundaryDotsWithoutDots(s: string)
    requires '.' !in s
    ensures RemoveBoundaryDots(s) == s
  {
    if |s| >= 1 {
      assert s[0] != '.' && s[|s| - 1] != '.';
    }
    if |s| >= 2 {
      assert s[|s| - 2] != '.';
    }
  }

  /** Sanitising is replacing, then cutting to 128 characters: the removal
      of boundary dots never applies. */
  lemma MakeValidIsTruncatedReplace(s: string)
    ensures MakeValidSharePointFileName(s) == Truncate(ReplaceInvalid(s))
  {
  }

  lemma ReplaceInvalidAppend(p: string, q: string)
    ensures ReplaceInvalid(p + q) == ReplaceInvalid(p) + ReplaceInvalid(q)
  {
  }

  /** Sanitising a sanitised name changes nothing. */
  lemma MakeValidIdempotent(s: string)
    ensures MakeValidSharePointFileName(MakeValidSharePointFileName(s)) == MakeValidSharePointFileName(s)
  {
    var r := MakeValidSharePointFileName(s);
    MakeValidIsTruncatedReplace(r);
    assert ReplaceInvalid(r) == r;
  }

  /** The name of a text is a prefix of the name of any extension of it,
      which is what lets a name prefix find the numbered batch files. */
  lemma MakeValidPrefix(p: string, q: string)
    ensures IsPrefix(MakeValidSharePointFileName(p), MakeValidSharePointFileName(p + q))
  {
    var rp := ReplaceInvalid(p);
    var r := rp + ReplaceInvalid(q);
    assert MakeValidSharePointFileName(p) == Truncate(rp) by {
      MakeValidIsTruncatedReplace(p);
    }
    assert MakeValidSharePointFileName(p + q) == Truncate(r) by {
      MakeValidIsTruncatedReplace(p + q);
      ReplaceInvalidAppend(p, q);
    }
    TruncatePrefix(rp, r);
  }

  lemma TruncatePrefix(p: string, s: string)
    requires IsPrefix(p, s)
    ensures IsPrefix(Truncate(p), Truncate(s))
  {
    if |p| > MaxFileNameLength {
      assert s[..MaxFileNameLength] == p[..MaxFileNameLength];
    } else {
      assert Truncate(s)[..|p|] == p;
    }
  }

  /** Whatever follows the first 128 characters is cut away. */
  lemma MakeValidTruncates(p: string, q: string)
    requires |p| >= MaxFileNameLength
    ensures MakeValidSharePointFileName(p + q) == MakeValidSharePointFileName(p)
  {
    MakeValidIsTruncatedReplace(p);
    MakeValidIsTruncatedReplace(p + q);
    ReplaceInvalidAppend(p, q);
    var rp := ReplaceInvalid(p);
    assert (rp + ReplaceInvalid(q))[..MaxFileNameLength] == rp[..MaxFileNameLength];
  }

  // ---------------------------------------------------------------------
  // Names of the embedding files

  /** `$"{folderPath}{Path.GetFileNameWithoutExtension(fileName)}-{suffix}"`,
      sanitised, with ".ai" appended. */
  function UploadName(folderPath: string, fileName: string, suffix: nat): string {
    MakeValidSharePointFileName(folderPath + GetFileNameWithoutExtension(fileName) + "-" + NatToString(suffix)) + ".ai"
  }

  function UploadNames(folderPath: string, fileName: string): nat -> string {
    (suffix: nat) => UploadName(folderPath, fileName, suffix)
  }

  /** The name prefix `GetAiFilesForFile` looks the embedding files up by. */
  function AiFilePrefix(folderPath: string, file: string): string {
    MakeValidSharePointFileName(folderPath + GetFileNameWithoutExtension(file))
  }

  /** Every file uploaded for a document passes the filter its lookup uses:
      the name starts with the prefix and has the extension ".ai". */
  lemma UploadNameFound(folderPath: string, fileName: string, suffix: nat, f: SharePointExtensions.SpFile)
    requires f.name == UploadName(folderPath, fileName, suffix)
    ensures SharePointService.Matches(f, ".ai", AiFilePrefix(folderPath, fileName))
  {
    var base := folderPath + GetFileNameWithoutExtension(fileName);
    var digits := "-" + NatToString(suffix);
    var prefix := MakeValidSharePointFileName(base);
    var valid := MakeValidSharePointFileName(base + digits);
    assert IsPrefix(prefix, valid) by {
      MakeValidPrefix(base, digits);
    }
    assert f.name == valid + ".ai" by {
      AppendAssociative(base, "-", NatToString(suffix));
    }
    ExtendedNameFound(prefix, valid, f);
  }

  /** A file named `valid + ".ai"` passes the ".ai" filter for any prefix of
      `valid`. */
  lemma ExtendedNameFound(prefix: string, valid: string, f: SharePointExtensions.SpFile)
    requires IsPrefix(prefix, valid) && f.name == valid + ".ai"
    ensures SharePointService.Matches(f, ".ai", prefix)
  {
    var rest := valid[|prefix|..] + ".ai";
    assert f.name == prefix + rest;
    StartsWithIgnoreCaseOfExtension(prefix, rest);
    ExtensionOfAppended(valid, ".ai");
  }

  /** Different batches get different names while the whole name fits in
      128 characters. */
  lemma UploadNamesDistinct(folderPath: string, fileName: string, m: nat, n: nat)
    requires m != n
    requires |folderPath + GetFileNameWithoutExtension(fileName) + "-" + NatToString(m)| <= MaxFileNameLength
    requires |folderPath + GetFileNameWithoutExtension(fileName) + "-" + NatToString(n)| <= MaxFileNameLength
    ensures UploadName(folderPath, fileName, m) != UploadName(folderPath, fileName, n)
  {
    var base := folderPath + GetFileNameWithoutExtension(fileName) + "-";
    var x, y := NatToString(m), NatToString(n);
    if x == y {
      NatToStringInjective(m, n);
    }
    SanitisedEndingsDiffer(base, x, y);
    var ra, rb := MakeValidSharePointFileName(base + x), MakeValidSharePointFileName(base + y);
    assert (ra + ".ai")[..|ra|] == ra && (rb + ".ai")[..|rb|] == rb;
  }

  /** Names that fit in 128 characters and differ only in an ending made
      of digits stay different once sanitised. */
  lemma SanitisedEndingsDiffer(base: string, x: string, y: string)
    requires x != y
    requires forall i :: 0 <= i < |x| ==> '0' <= x[i] <= '9'
    requires forall i :: 0 <= i < |y| ==> '0' <= y[i] <= '9'
    requires |base + x| <= MaxFileNameLength && |base + y| <= MaxFileNameLength
    ensures MakeValidSharePointFileName(base + x) != MakeValidSharePointFileName(base + y)
  {
    var rbase := ReplaceInvalid(base);
    assert MakeValidSharePointFileName(base + x) == rbase + x by {
      SanitisedDigitEnding(base, x);
    }
    assert MakeValidSharePointFileName(base + y) == rbase + y by {
      SanitisedDigitEnding(base, y);
    }
    assert (rbase + x)[|rbase|..] == x && (rbase + y)[|rbase|..] == y;
  }

  /** A name that fits in 128 characters and ends in digits is sanitised
      up to the digits, which are kept. */
  lemma SanitisedDigitEnding(base: string, x: string)
    requires forall i :: 0 <= i < |x| ==> '0' <= x[i] <= '9'
    requires |base + x| <= MaxFileNameLength
    ensures MakeValidSharePointFileName(base + x) == ReplaceInvalid(base) + x
  {
    MakeValidIsTruncatedReplace(base + x);
    ReplaceInvalidAppend(base, x);
    assert ReplaceInvalid(x) == x by {
      forall i | 0 <= i < |x| ensures !Invalid(x[i]) {
      }
    }
  }

  /** Once the folder path and the document's name fill the 128 characters,
      every batch is uploaded under the same name. */
  lemma UploadNamesCollide(folderPath: string, fileName: string, m: nat, n: nat)
    requires |folderPath + GetFileNameWithoutExtension(fileName)| >= MaxFileNameLength
    ensures UploadName(folderPath, fileName, m) == UploadName(folderPath, fileName, n)
  {
    var base := folderPath + GetFileNameWithoutExtension(fileName);
    assert base + "-" + NatToString(m) == base + ("-" + NatToString(m));
    assert base + "-" + NatToString(n) == base + ("-" + NatToString(n));
    MakeValidTruncates(base, "-" + NatToString(m));
    MakeValidTruncates(base, "-" + NatToString(n));
  }

  // ---------------------------------------------------------------------
  // GetAiFilesForFile

  /** The cached lookup of the ".ai" files whose names start with the
      document's prefix, in the configured AI folder: a cached answer is
      returned as it is, and a fresh one holds only the bytes and times of
      files of the AI folder that pass the filter. */
  function AiFilesForFile(cache: SharePointService.Cache, remote: SharePointService.Remote,
                          siteUrl: string, folderUrl: string, folderPath: string, file: string)
    : (r: SharePointService.Lookup<seq<(Bytes, Time)>>)
    requires SharePointService.Fits(cache)
    ensures SharePointService.Fits(r.cache)
    ensures var key := SharePointService.FilesKey(siteUrl, folderUrl, ".ai", AiFilePrefix(folderPath, file));
      && (key in cache ==> r == SharePointService.Lookup(cache[key].entries, cache))
      && (key !in cache ==> forall e :: e in r.value ==>
            exists f :: f in remote.folderFiles(siteUrl, folderUrl)
                     && SharePointService.Matches(f, ".ai", AiFilePrefix(folderPath, file))
                     && e == (f.content, f.timeLastModified))
  {
    var prefix := AiFilePrefix(folderPath, file);
    SharePointService.FilesByExtensionFromFolder(cache, remote, siteUrl, folderUrl, ".ai", prefix);
    SharePointService.FilesByExtension(cache, remote, siteUrl, folderUrl, ".ai", prefix)
  }

  /** On a miss, every file of the AI folder stored under one of the
      document's upload names is among the files found. */
  lemma UploadedFilesAreFound(cache: SharePointService.Cache, remote: SharePointService.Remote,
                              siteUrl: string, folderUrl: string, folderPath: string, file: string,
                              f: SharePointExtensions.SpFile, suffix: nat)
    requires SharePointService.Fits(cache)
    requires SharePointService.FilesKey(siteUrl, folderUrl, ".ai", AiFilePrefix(folderPath, file)) !in cache
    requires f in remote.folderFiles(siteUrl, folderUrl) && f.name == UploadName(folderPath, file, suffix)
    ensures (f.content, f.timeLastModified) in AiFilesForFile(cache, remote, siteUrl, folderUrl, folderPath, file).value
  {
    var prefix := AiFilePrefix(folderPath, file);
    var kept := SharePointService.SelectFiles(remote.folderFiles(siteUrl, folderUrl), ".ai", prefix);
    UploadNameFound(folderPath, file, suffix, f);
    SharePointService.SelectFilesMembers(remote.folderFiles(siteUrl, folderUrl), ".ai", prefix, f);
    var i :| 0 <= i < |kept| && kept[i] == f;
    SharePointService.FilesByExtensionEntries(cache, remote, siteUrl, folderUrl, ".ai", prefix);
    assert AiFilesForFile(cache, remote, siteUrl, folderUrl, folderPath, file).value[i]
        == (f.content, f.timeLastModified);
  }

  // ---------------------------------------------------------------------
  // CalculateAndUploadEmbeddingsAsync

  /** The list the loop returns: the uploaded bytes of each successful call
      with the time (`DateTime.Now`) at that call. */
  function Uploaded(t: seq<Attempt>, clock: nat -> Time): seq<(Bytes, Time)>
  {
    if t == [] then []
    else (if Succeeded(t[0]) then [(t[0].uploaded.value, clock(t[0].call))] else []) + Uploaded(t[1..], clock)
  }

  lemma {:induction false} UploadedAppend(x: seq<Attempt>, y: seq<Attempt>, clock: nat -> Time)
    ensures Uploaded(x + y, clock) == Uploaded(x, clock) + Uploaded(y, clock)
  {
    if x == [] {
      assert x + y == y;
    } else {
      assert (x + y)[1..] == x[1..] + y;
      UploadedAppend(x[1..], y, clock);
    }
  }

  lemma UploadedSnoc(t: seq<Attempt>, a: Attempt, clock: nat -> Time)
    ensures Uploaded(t + [a], clock)
         == Uploaded(t, clock) + (if Succeeded(a) then [(a.uploaded.value, clock(a.call))] else [])
  {
    UploadedAppend(t, [a], clock);
    assert [a][1..] == [];
  }

  /** One entry per successful call, in order, with the bytes it uploaded. */
  lemma {:induction false} UploadedIsSuccesses(t: seq<Attempt>, clock: nat -> Time)
    ensures var u := Uploaded(t, clock); var s := Successes(t);
      |u| == |s| && forall k :: 0 <= k < |u| ==> u[k] == (s[k].uploaded.value, clock(s[k].call))
  {
    if t != [] {
      UploadedIsSuccesses(t[1..], clock);
      var u := Uploaded(t, clock);
      var u' := Uploaded(t[1..], clock);
      var s' := Successes(t[1..]);
      if Succeeded(t[0]) {
        forall k | 1 <= k < |u| ensures u[k] == (Successes(t)[k].uploaded.value, clock(Successes(t)[k].call)) {
          assert u[k] == u'[k - 1] && Successes(t)[k] == s'[k - 1];
        }
      }
    }
  }

  /** The calls the loop makes for a document's lines. */
  function UploadRun(folderPath: string, fileName: string, lines: seq<string>, service: Service): seq<Attempt> {
    Run(lines, Min(MaxBatchSize, |lines|), 1, 0, UploadNames(folderPath, fileName), service)
  }

  /** `CalculateAndUploadEmbeddingsAsync`, with `DateTime.Now` at call k
      given by `clock(k)`. */
  method CalculateAndUploadEmbeddings(folderPath: string, fileName: string, lines: seq<string>,
                                      service: Service, clock: nat -> Time)
    returns (uploadedFiles: seq<(Bytes, Time)>)
    ensures uploadedFiles == Uploaded(UploadRun(folderPath, fileName, lines, service), clock)
  {
    var name := UploadNames(folderPath, fileName);
    var remaining := lines;
    var batchSize: nat := Min(MaxBatchSize, |lines|);
    var suffix: nat := 1;
    var call: nat := 0;
    uploadedFiles := [];
    ghost var total := Run(lines, batchSize, suffix, call, name, service);
    assert total == UploadRun(folderPath, fileName, lines, service);
    ghost var done: seq<Attempt> := [];
    assert total == done + total;
    while remaining != []
      invariant Ready(remaining, batchSize)
      invariant call == |done|
      invariant total == done + Run(remaining, batchSize, suffix, call, name, service)
      invariant uploadedFiles == Uploaded(done, clock)
      decreases |remaining|, batchSize
    {
      var currentBatch := remaining[..batchSize];
      var fileNameWithSuffix := name(suffix);
      var uploaded := TryBatch(service, call, currentBatch, fileNameWithSuffix);
      ghost var a := Attempt(call, currentBatch, fileNameWithSuffix, uploaded);
      UploadedSnoc(done, a, clock);
      if uploaded.Some? {
        AdvanceOnSuccess(total, done, remaining, batchSize, suffix, call, name, service, a);
        uploadedFiles := uploadedFiles + [(uploaded.value, clock(call))];
        done := done + [a];
        call := call + 1;
        remaining := remaining[batchSize..];
        suffix := suffix + 1;
        batchSize := Min(MaxBatchSize, |remaining|);
      } else {
        AdvanceOnFailure(total, done, remaining, batchSize, suffix, call, name, service, a);
        done := done + [a];
        call := call + 1;
        batchSize := Max(1, batchSize / 2);
        if batchSize == 1 {
          break;
        }
      }
    }
    assert total == done by {
      if remaining == [] {
        assert done + [] == done;
      }
    }
  }

  /** What the loop does for a document: no call for no lines; every call
      sends between 1 and 2000 lines; the lines uploaded form an in-order
      prefix of the input; and the k-th uploaded file is named with suffix
      k + 1 and is found by the document's lookup. */
  lemma UploadRunFacts(folderPath: string, fileName: string, lines: seq<string>, service: Service,
                       f: SharePointExtensions.SpFile, k: nat)
    ensures var t := UploadRun(folderPath, fileName, lines, service);
      && (lines == [] <==> t == [])
      && BatchesWithin(t, MaxBatchSize)
      && |Sent(t)| <= |lines| && Sent(t) == lines[..|Sent(t)|]
      && (k < |Successes(t)| && f.name == Successes(t)[k].fileName ==>
            f.name == UploadName(folderPath, fileName, k + 1)
            && SharePointService.Matches(f, ".ai", AiFilePrefix(folderPath, fileName)))
  {
    var name := UploadNames(folderPath, fileName);
    var size := Min(MaxBatchSize, |lines|);
    RunShape(lines, size, 1, 0, name, service);
    RunBatchBounds(lines, size, 1, 0, name, service);
    RunSentIsPrefix(lines, size, 1, 0, name, service);
    RunNames(lines, size, 1, 0, name, service);
    var t := UploadRun(folderPath, fileName, lines, service);
    if k < |Successes(t)| && f.name == Successes(t)[k].fileName {
      assert Successes(t)[k].fileName == name(1 + k);
      UploadNameFound(folderPath, fileName, k + 1, f);
    }
  }
}

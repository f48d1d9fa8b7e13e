/** The .NET string and System.IO.Path operations the core relies on, as
    functions over `seq<char>`. The model compares characters ordinally,
    folds only ASCII case and counts lengths in characters. */
module Text {
  import opened Common

  // ---------------------------------------------------------------------
  // Case folding and prefixes

  /** ToLowerInvariant restricted to ASCII letters. */
  function Lower(c: char): (r: char)
    ensures 'A' <= c <= 'Z' ==> r as int == c as int + 32
    ensures !('A' <= c <= 'Z') ==> r == c
  {
    if 'A' <= c <= 'Z' then (c as int + 32) as char else c
  }

  function LowerStr(s: string): (r: string)
    ensures |r| == |s|
    ensures forall i :: 0 <= i < |s| ==> r[i] == Lower(s[i])
  {
    seq(|s|, i requires 0 <= i < |s| => Lower(s[i]))
  }

  predicate IsPrefix(p: string, s: string) {
    |p| <= |s| && s[..|p|] == p
  }

  predicate IsSuffix(p: string, s: string) {
    |p| <= |s| && s[|s| - |p|..] == p
  }

  /** `s.StartsWith(p, StringComparison.OrdinalIgnoreCase)` */
  predicate StartsWithIgnoreCase(s: string, p: string) {
    IsPrefix(LowerStr(p), LowerStr(s))
  }

  /** `a.Equals(b, StringComparison.OrdinalIgnoreCase)` */
  predicate EqualsIgnoreCase(a: string, b: string) {
    LowerStr(a) == LowerStr(b)
  }

  lemma LowerStrAppend(a: string, b: string)
    ensures LowerStr(a + b) == LowerStr(a) + LowerStr(b)
  {
    assert forall i :: 0 <= i < |a + b| ==> LowerStr(a + b)[i] == (LowerStr(a) + LowerStr(b))[i];
  }

  /** A string is a case-insensitive prefix of any extension of it. */
  lemma StartsWithIgnoreCaseOfExtension(p: string, q: string)
    ensures StartsWithIgnoreCase(p + q, p)
  {
    LowerStrAppend(p, q);
    assert LowerStr(p + q)[..|p|] == LowerStr(p);
  }

  // ---------------------------------------------------------------------
  // Searching

  /** `s` holds `pat` at position `i`. */
  predicate OccursAt(s: string, pat: string, i: int) {
    0 <= i && i + |pat| <= |s| && s[i..i + |pat|] == pat
  }

  /** `s.IndexOf(pat, from)`, compared character by character: the first
      position at or after `from` where `pat` occurs, or -1. */
  function IndexOf(s: string, pat: string, from: nat): (r: int)
    requires from <= |s|
    ensures r == -1 || (from <= r && OccursAt(s, pat, r))
    ensures r == -1 ==> forall j :: from <= j ==> !OccursAt(s, pat, j)
    ensures r != -1 ==> forall j :: from <= j < r ==> !OccursAt(s, pat, j)
    decreases |s| - from
  {
    if from + |pat| > |s| then -1
    else if s[from..from + |pat|] == pat then from
    else IndexOf(s, pat, from + 1)
  }

  /** The last position of `c` in `s`, or -1. */
  function LastIndexOf(s: string, c: char): (r: int)
    ensures -1 <= r < |s|
    ensures r >= 0 ==> s[r] == c
    ensures forall j :: r < j < |s| ==> s[j] != c
  {
    if s == [] then -1
    else if s[|s| - 1] == c then |s| - 1
    else LastIndexOf(s[..|s| - 1], c)
  }

  // ---------------------------------------------------------------------
  // Joining and splitting

  /** `string.Join(sep, parts)` */
  function Join(sep: string, parts: seq<string>): string
  {
    if parts == [] then ""
    else if |parts| == 1 then parts[0]
    else parts[0] + sep + Join(sep, parts[1..])
  }

  /** `s.Split(c)`: the pieces between occurrences of `c`, empty ones included. */
  function Split(s: string, c: char): (r: seq<string>)
    ensures |r| >= 1
    decreases |s|
  {
    var k := IndexOf(s, [c], 0);
    if k == -1 then [s] else [s[..k]] + Split(s[k + 1..], c)
  }

  /** `c` occurs in `s` exactly where the one-character pattern [c] does. */
  lemma OccursAtChar(s: string, c: char, j: int)
    requires 0 <= j < |s|
    ensures OccursAt(s, [c], j) <==> s[j] == c
  {
    assert s[j..j + 1] == [s[j]];
  }

  /** Splitting at the first separator: the piece before it, then the split
      of what follows. */
  lemma SplitAtFirst(x: string, y: string, c: char)
    requires c !in x
    ensures Split(x + [c] + y, c) == [x] + Split(y, c)
  {
    var s := x + [c] + y;
    assert OccursAt(s, [c], |x|);
    forall j | 0 <= j < |x| ensures !OccursAt(s, [c], j) {
      OccursAtChar(s, c, j);
    }
    assert s[..|x|] == x;
    assert s[|x| + 1..] == y;
  }

  /** A string without the separator splits into itself. */
  lemma SplitWithout(x: string, c: char)
    requires c !in x
    ensures Split(x, c) == [x]
  {
    forall j | 0 <= j ensures !OccursAt(x, [c], j) {
      if j < |x| {
        OccursAtChar(x, c, j);
      }
    }
  }

  /** No piece of a split holds the separator. */
  lemma {:induction false} SplitPiecesWithout(s: string, c: char)
    ensures forall i :: 0 <= i < |Split(s, c)| ==> c !in Split(s, c)[i]
    decreases |s|
  {
    var k := IndexOf(s, [c], 0);
    if k == -1 {
      forall j | 0 <= j < |s| ensures s[j] != c {
        OccursAtChar(s, c, j);
      }
    } else {
      forall j | 0 <= j < k ensures s[j] != c {
        OccursAtChar(s, c, j);
      }
      assert forall j :: 0 <= j < k ==> s[..k][j] == s[j];
      SplitPiecesWithout(s[k + 1..], c);
    }
  }

  /** Splitting a joined list on a separator that no part contains gives the
      parts back. */
  lemma {:induction false} SplitJoin(parts: seq<string>, c: char)
    requires parts != []
    requires forall i :: 0 <= i < |parts| ==> c !in parts[i]
    ensures Split(Join([c], parts), c) == parts
  {
    var s := Join([c], parts);
    if |parts| == 1 {
      forall j | 0 <= j ensures !OccursAt(s, [c], j) {
        if j < |s| {
          assert s[j..j + 1] == [s[j]];
        }
      }
    } else {
      var rest := Join([c], parts[1..]);
      assert s == parts[0] + [c] + rest;
      var n := |parts[0]|;
      assert OccursAt(s, [c], n);
      forall j | 0 <= j < n ensures !OccursAt(s, [c], j) {
        assert s[j..j + 1] == [parts[0][j]];
      }
      assert IndexOf(s, [c], 0) == n;
      assert s[..n] == parts[0];
      assert s[n + 1..] == rest;
      SplitJoin(parts[1..], c);
    }
  }

  // ---------------------------------------------------------------------
  // Trimming

  /** `char.IsWhiteSpace`: the Unicode space separators, line and paragraph
      separators, and U+0009..U+000D, U+0085, U+00A0. */
  predicate IsWhiteSpace(c: char) {
    ('\U{0009}' <= c <= '\U{000D}') || c == ' ' || c == '\U{0085}' || c == '\U{00A0}'
    || c == '\U{1680}' || ('\U{2000}' <= c <= '\U{200A}') || c == '\U{2028}' || c == '\U{2029}'
    || c == '\U{202F}' || c == '\U{205F}' || c == '\U{3000}'
  }

  /** The number of white-space characters `s` starts with. */
  function LeadingWhiteSpace(s: string): (n: nat)
    ensures n <= |s|
    ensures forall i :: 0 <= i < n ==> IsWhiteSpace(s[i])
    ensures n < |s| ==> !IsWhiteSpace(s[n])
  {
    if s == [] || !IsWhiteSpace(s[0]) then 0
    else
      var m := LeadingWhiteSpace(s[1..]);
      assert forall i :: 1 <= i <= m ==> s[i] == s[1..][i - 1];
      1 + m
  }

  /** The number of white-space characters `s` ends with. */
  function TrailingWhiteSpace(s: string): (n: nat)
    ensures n <= |s|
    ensures forall i :: |s| - n <= i < |s| ==> IsWhiteSpace(s[i])
    ensures n < |s| ==> !IsWhiteSpace(s[|s| - n - 1])
  {
    if s == [] || !IsWhiteSpace(s[|s| - 1]) then 0
    else
      var m := TrailingWhiteSpace(s[..|s| - 1]);
      assert forall i :: |s| - 1 - m <= i < |s| - 1 ==> s[i] == s[..|s| - 1][i];
      1 + m
  }

  /** `s.Trim()`: `s` without its leading and trailing white space. */
  function Trim(s: string): string
  {
    var i := LeadingWhiteSpace(s);
    s[i..|s| - TrailingWhiteSpace(s[i..])]
  }

  /** What `Trim` keeps is a slice of `s`, and everything it drops before
      and after that slice is white space. */
  lemma TrimSlice(s: string)
    ensures var i := LeadingWhiteSpace(s); var r := Trim(s);
      i + |r| <= |s| && r == s[i..i + |r|]
      && (forall k :: 0 <= k < i ==> IsWhiteSpace(s[k]))
      && (forall k :: i + |r| <= k < |s| ==> IsWhiteSpace(s[k]))
  {
    var i := LeadingWhiteSpace(s);
    var t := s[i..];
    var j := TrailingWhiteSpace(t);
    var r := Trim(s);
    assert r == s[i..|s| - j] && i + |r| == |s| - j;
    assert forall k :: |s| - j <= k < |s| ==> s[k] == t[k - i];
  }

  /** Only white space is dropped: what `Trim` keeps neither starts nor ends
      with white space. */
  lemma TrimEnds(s: string)
    ensures var r := Trim(s);
      r != [] ==> !IsWhiteSpace(r[0]) && !IsWhiteSpace(r[|r| - 1])
  {
    var i := LeadingWhiteSpace(s);
    var t := s[i..];
    var j := TrailingWhiteSpace(t);
    var r := Trim(s);
    assert r == s[i..|s| - j];
    if r != [] {
      assert r[0] == s[i];
      assert j < |t| && !IsWhiteSpace(t[|t| - j - 1]);
      assert r[|r| - 1] == t[|t| - j - 1];
    }
  }

  // ---------------------------------------------------------------------
  // Numbers

  function DigitChar(d: nat): (c: char)
    requires d < 10
    ensures '0' <= c <= '9' && c as int == '0' as int + d
  {
    ('0' as int + d) as char
  }

  /** The invariant-culture decimal rendering of `n`, as `$"{n}"` gives it. */
  function NatToString(n: nat): (s: string)
    ensures |s| >= 1
    ensures forall i :: 0 <= i < |s| ==> '0' <= s[i] <= '9'
  {
    if n < 10 then [DigitChar(n)] else NatToString(n / 10) + [DigitChar(n % 10)]
  }

  /** Different numbers are rendered differently. */
  lemma {:induction false} NatToStringInjective(m: nat, n: nat)
    requires NatToString(m) == NatToString(n)
    ensures m == n
  {
    var s := NatToString(m);
    if m >= 10 && n >= 10 {
      assert s[..|s| - 1] == NatToString(m / 10) == NatToString(n / 10);
      NatToStringInjective(m / 10, n / 10);
      assert DigitChar(m % 10) == s[|s| - 1] == DigitChar(n % 10);
    }
  }

  // ---------------------------------------------------------------------
  // System.IO.Path on a '/'-separated file system

  /** `Path.GetFileName`: what follows the last directory separator. */
  function GetFileName(path: string): (r: string)
    ensures IsSuffix(r, path) && '/' !in r
  {
    path[LastIndexOf(path, '/') + 1..]
  }

  /** `Path.GetFileNameWithoutExtension`: the file name up to its last '.'. */
  function GetFileNameWithoutExtension(path: string): (r: string)
    ensures '/' !in r
  {
    var name := GetFileName(path);
    var dot := LastIndexOf(name, '.');
    if dot < 0 then name else name[..dot]
  }

  /** `Path.GetExtension`: from the last '.' of the file name to the end,
      or "" when there is no '.' or it is the final character. */
  function GetExtension(path: string): (r: string)
    ensures r != [] ==> |r| >= 2 && r[0] == '.' && IsSuffix(r, path)
    ensures r != [] ==> '.' !in r[1..] && '/' !in r
  {
    ExtensionBefore(path, |path|)
  }

  /** The scan of `Path.GetExtension` from position `i` down; everything at
      or after `i` is neither a '.' nor a separator. */
  function ExtensionBefore(path: string, i: nat): (r: string)
    requires i <= |path|
    requires forall j :: i <= j < |path| ==> path[j] != '.' && path[j] != '/'
    ensures r != [] ==> |r| >= 2 && r[0] == '.' && IsSuffix(r, path)
    ensures r != [] ==> '.' !in r[1..] && '/' !in r
    decreases i
  {
    if i == 0 then ""
    else if path[i - 1] == '.' then (if i != |path| then path[i - 1..] else "")
    else if path[i - 1] == '/' then ""
    else ExtensionBefore(path, i - 1)
  }

  /** A name built as `stem + ext`, where `ext` is a '.' followed by at least
      one character that is neither '.' nor '/', has extension `ext`. */
  lemma ExtensionOfAppended(stem: string, ext: string)
    requires |ext| >= 2 && ext[0] == '.'
    requires forall j :: 1 <= j < |ext| ==> ext[j] != '.' && ext[j] != '/'
    ensures GetExtension(stem + ext) == ext
  {
    ExtensionScan(stem + ext, |stem|, |stem + ext|);
  }

  /** Scanning down from `i` over characters that are neither '.' nor '/'
      reaches the '.' at position `d`. */
  lemma {:induction false} ExtensionScan(path: string, d: nat, i: nat)
    requires d < i <= |path| && d + 1 < |path| && path[d] == '.'
    requires forall j :: d < j < |path| ==> path[j] != '.' && path[j] != '/'
    ensures ExtensionBefore(path, i) == path[d..]
    decreases i
  {
    if i > d + 1 {
      ExtensionScan(path, d, i - 1);
    }
  }
}

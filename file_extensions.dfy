/** Extensions/FileExtensions.cs: the text extracted from a Word document
    and the lines made from the records of a CSV file. The OpenXml and
    CsvHelper parsers are not modelled: a document is given as its
    paragraphs, each a sequence of runs, each a sequence of text elements;
    a CSV file as its records, each the sequence of (header, value) fields. */
module FileExtensions {
  import opened Text

  /** A parsed document: paragraphs of runs of text elements. */
  type Paragraph = seq<seq<string>>

  // ---------------------------------------------------------------------
  // ConvertDocxToText

  /** The text of one run: its text elements joined with the empty string. */
  function RunText(run: seq<string>): string {
    Join("", run)
  }

  /** The text of a paragraph: the texts of its runs, one after the other. */
  function ParagraphText(runs: Paragraph): string
  {
    if runs == [] then "" else ParagraphText(runs[..|runs| - 1]) + RunText(runs[|runs| - 1])
  }

  /** The document's text: one string per paragraph whose text is not empty,
      in paragraph order. */
  function DocxText(paragraphs: seq<Paragraph>): seq<string>
  {
    if paragraphs == [] then []
    else
      var text := ParagraphText(paragraphs[|paragraphs| - 1]);
      DocxText(paragraphs[..|paragraphs| - 1]) + (if text != "" then [text] else [])
  }

  /** The positions of the paragraphs whose text is not empty, ascending. */
  function Kept(paragraphs: seq<Paragraph>): (ks: seq<nat>)
    ensures forall k :: 0 <= k < |ks| ==> ks[k] < |paragraphs|
  {
    if paragraphs == [] then []
    else
      var last := |paragraphs| - 1;
      Kept(paragraphs[..last]) + (if ParagraphText(paragraphs[last]) != "" then [last] else [])
  }

  /** `ConvertDocxToText`: a StringBuilder per paragraph collects its runs'
      texts; non-empty ones are added to the result. */
  method ConvertDocxToText(paragraphs: seq<Paragraph>) returns (result: seq<string>)
    ensures result == DocxText(paragraphs)
  {
    result := [];
    var i := 0;
    while i < |paragraphs|
      invariant 0 <= i <= |paragraphs|
      invariant result == DocxText(paragraphs[..i])
    {
      var runs := paragraphs[i];
      var sb := "";
      var j := 0;
      while j < |runs|
        invariant 0 <= j <= |runs|
        invariant sb == ParagraphText(runs[..j])
      {
        var text := Join("", runs[j]);
        sb := sb + text;
        assert runs[..j + 1][..j] == runs[..j];
        j := j + 1;
      }
      assert runs[..j] == runs;
      if sb != "" {
        result := result + [sb];
      }
      assert paragraphs[..i + 1][..i] == paragraphs[..i];
      i := i + 1;
    }
    assert paragraphs[..i] == paragraphs;
  }

  /** The output's k-th string is the text of the paragraph at position k
      of `Kept`, and it is not empty. */
  lemma {:induction false} DocxTextAtKept(paragraphs: seq<Paragraph>)
    ensures var r := DocxText(paragraphs); var ks := Kept(paragraphs);
      && |r| == |ks| <= |paragraphs|
      && forall k :: 0 <= k < |r| ==> r[k] == ParagraphText(paragraphs[ks[k]]) && r[k] != ""
  {
    if paragraphs != [] {
      var last := |paragraphs| - 1;
      var init := paragraphs[..last];
      DocxTextAtKept(init);
      var text := ParagraphText(paragraphs[last]);
      var r0, ks0 := DocxText(init), Kept(init);
      var r, ks := DocxText(paragraphs), Kept(paragraphs);
      assert r == r0 + (if text != "" then [text] else []);
      assert ks == ks0 + (if text != "" then [last] else []);
      forall k | 0 <= k < |r| ensures r[k] == ParagraphText(paragraphs[ks[k]]) && r[k] != "" {
        if k < |r0| {
          assert r[k] == r0[k] && ks[k] == ks0[k] && init[ks0[k]] == paragraphs[ks0[k]];
        }
      }
    }
  }

  /** The positions `Kept` ascend, and every paragraph not among them has
      empty text. */
  lemma {:induction false} KeptPositions(paragraphs: seq<Paragraph>)
    ensures var ks := Kept(paragraphs);
      && (forall k, l :: 0 <= k < l < |ks| ==> ks[k] < ks[l])
      && (forall i :: 0 <= i < |paragraphs| && i !in ks ==> ParagraphText(paragraphs[i]) == "")
  {
    if paragraphs != [] {
      var last := |paragraphs| - 1;
      var init := paragraphs[..last];
      KeptPositions(init);
      var ks0, ks := Kept(init), Kept(paragraphs);
      var kept := ParagraphText(paragraphs[last]) != "";
      assert ks == ks0 + (if kept then [last] else []);
      forall k, l | 0 <= k < l < |ks| ensures ks[k] < ks[l] {
        if l >= |ks0| {
          assert ks[k] == ks0[k] < last;
        }
      }
      forall i | 0 <= i < |paragraphs| && i !in ks ensures ParagraphText(paragraphs[i]) == "" {
        if i < last {
          assert i !in ks0;
          assert init[i] == paragraphs[i];
        }
      }
    }
  }

  /** The output is, in order, exactly the texts of the paragraphs at the
      positions `Kept`: those positions ascend, and every paragraph left out
      has empty text. So no output string is empty and there are at most as
      many outputs as paragraphs. */
  lemma DocxTextKept(paragraphs: seq<Paragraph>)
    ensures var r := DocxText(paragraphs); var ks := Kept(paragraphs);
      && |r| == |ks| <= |paragraphs|
      && (forall k :: 0 <= k < |r| ==> r[k] == ParagraphText(paragraphs[ks[k]]) && r[k] != "")
      && (forall k, l :: 0 <= k < l < |ks| ==> ks[k] < ks[l])
      && (forall i :: 0 <= i < |paragraphs| && i !in ks ==> ParagraphText(paragraphs[i]) == "")
  {
    DocxTextAtKept(paragraphs);
    KeptPositions(paragraphs);
  }

  // ---------------------------------------------------------------------
  // ConvertCsvToList

  /** A CSV record: its (header, value) fields in column order. */
  type Record = seq<(string, string)>

  /** One field as `$"{entry.Key}:{entry.Value.ToString().Trim()}"`. */
  function FormatField(field: (string, string)): string {
    field.0 + ":" + Trim(field.1)
  }

  function FormatFields(record: Record): (r: seq<string>)
    ensures |r| == |record|
    ensures forall i :: 0 <= i < |record| ==> r[i] == FormatField(record[i])
  {
    seq(|record|, i requires 0 <= i < |record| => FormatField(record[i]))
  }

  /** A record's line: its formatted fields joined with ";". */
  function FormatRecord(record: Record): string {
    Join(";", FormatFields(record))
  }

  /** The lines of a CSV file: one formatted line per record. */
  function CsvLines(records: seq<Record>): seq<string> {
    seq(|records|, i requires 0 <= i < |records| => FormatRecord(records[i]))
  }

  /** `ConvertCsvToList`: for each record, collect its formatted fields and
      add them joined with ";" to the result. */
  method ConvertCsvToList(records: seq<Record>) returns (lines: seq<string>)
    ensures |lines| == |records|
    ensures forall i :: 0 <= i < |records| ==> lines[i] == FormatRecord(records[i])
    ensures lines == CsvLines(records)
  {
    lines := [];
    var i := 0;
    while i < |records|
      invariant 0 <= i <= |records|
      invariant |lines| == i
      invariant forall k :: 0 <= k < i ==> lines[k] == FormatRecord(records[k])
    {
      var record := records[i];
      var formattedRecord := [];
      var j := 0;
      while j < |record|
        invariant 0 <= j <= |record|
        invariant |formattedRecord| == j
        invariant forall k :: 0 <= k < j ==> formattedRecord[k] == FormatField(record[k])
      {
        var entry := record[j];
        formattedRecord := formattedRecord + [entry.0 + ":" + Trim(entry.1)];
        j := j + 1;
      }
      assert formattedRecord == FormatFields(record);
      lines := lines + [Join(";", formattedRecord)];
      i := i + 1;
    }
  }

  /** Trimming keeps only characters of the trimmed string. */
  lemma TrimKeeps(s: string, c: char)
    requires c !in s
    ensures c !in Trim(s)
  {
    var i := LeadingWhiteSpace(s);
    var r := Trim(s);
    TrimSlice(s);
    forall k | 0 <= k < |r| ensures r[k] != c {
      assert r[k] == s[i + k];
    }
  }

  /** A formatted field is its header, ':' and its trimmed value: the first
      ':' is right after the header when the header has none. */
  lemma FormatFieldSplits(field: (string, string))
    requires ':' !in field.0
    ensures var f := FormatField(field); var k := |field.0|;
      IndexOf(f, ":", 0) == k && f[..k] == field.0 && f[k + 1..] == Trim(field.1)
  {
    var f := FormatField(field);
    var key := field.0;
    var k := |key|;
    assert OccursAt(f, ":", k);
    forall j | 0 <= j < k ensures !OccursAt(f, ":", j) {
      assert f[j..j + 1] == [key[j]];
    }
  }

  /** Splitting a record's line on ';' gives back its formatted fields when
      no header or value contains ';'. */
  lemma FormatRecordSplits(record: Record)
    requires record != []
    requires forall i :: 0 <= i < |record| ==> ';' !in record[i].0 && ';' !in record[i].1
    ensures Split(FormatRecord(record), ';') == FormatFields(record)
  {
    var fields := FormatFields(record);
    forall i | 0 <= i < |record| ensures ';' !in fields[i] {
      TrimKeeps(record[i].1, ';');
    }
    SplitJoin(fields, ';');
  }
}

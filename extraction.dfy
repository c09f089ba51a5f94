/**
  extract_text_from_file: dispatch on the file extension, read, normalise.  Reading is
  I/O and normalising is spaCy, so both come in as functions; an exception while
  reading is a None from the reader.
 */
module Extraction {

  import opened Wrappers

  datatype FileKind = Pdf | PlainText | Unsupported

  function LowerAscii(c: char): char
  {
    if 'A' <= c <= 'Z' then ((c as int) + 32) as char else c
  }

  /** str.lower() on the characters a path can carry an extension in: A-Z become a-z. */
  function LowerAll(s: string): string
  {
    seq(|s|, i requires 0 <= i < |s| => LowerAscii(s[i]))
  }

  /** str.endswith(suffix) */
  predicate EndsWith(s: string, suffix: string)
  {
    |suffix| <= |s| && s[|s| - |suffix|..] == suffix
  }

  /** The suffix test, character by character: the last |suffix| characters of the path,
      lower-cased, spell the suffix. */
  predicate EndsWithIgnoringCase(path: string, suffix: string)
  {
    |suffix| <= |path| &&
    forall i :: 0 <= i < |suffix| ==> LowerAscii(path[|path| - |suffix| + i]) == suffix[i]
  }

  /** file_path.lower().endswith(...) is the character-by-character test. */
  lemma LowerEndsWith(path: string, suffix: string)
    ensures EndsWith(LowerAll(path), suffix) <==> EndsWithIgnoringCase(path, suffix)
  {
    var l := LowerAll(path);
    if |suffix| <= |path| {
      var tail := l[|l| - |suffix|..];
      assert forall i :: 0 <= i < |suffix| ==> tail[i] == LowerAscii(path[|path| - |suffix| + i]);
      if EndsWithIgnoringCase(path, suffix) {
        assert tail == suffix;
      }
    }
  }

  /** The branches of extract_text_from_file, in their order: a path whose last four
      characters spell ".pdf" in any case is a PDF, otherwise one ending in ".txt" in any
      case is plain text. */
  function KindOf(path: string): (k: FileKind)
    ensures k == Pdf <==> EndsWithIgnoringCase(path, ".pdf")
    ensures k == PlainText <==> !EndsWithIgnoringCase(path, ".pdf") && EndsWithIgnoringCase(path, ".txt")
  {
    LowerEndsWith(path, ".pdf");
    LowerEndsWith(path, ".txt");
    var lower := LowerAll(path);
    if EndsWith(lower, ".pdf") then Pdf
    else if EndsWith(lower, ".txt") then PlainText
    else Unsupported
  }

  /** The file system as seen by the extractor: the text of each page of a PDF, or the
      whole of a UTF-8 file; None where opening or reading raises. */
  datatype Files = Files(
    pdfPages: string -> Option<seq<string>>,
    readText: string -> Option<string>
  )

  /** " ".join(pages) */
  function JoinWithSpaces(pages: seq<string>): string
  {
    if pages == [] then ""
    else if |pages| == 1 then pages[0]
    else pages[0] + " " + JoinWithSpaces(pages[1..])
  }

  function ExtractText(path: string, files: Files, preprocess: string -> string): (text: string)
    ensures KindOf(path) == Unsupported ==> text == ""
    ensures KindOf(path) == Pdf && files.pdfPages(path).None? ==> text == ""
    ensures KindOf(path) == PlainText && files.readText(path).None? ==> text == ""
    ensures KindOf(path) == Pdf && files.pdfPages(path).Some? ==>
              text == preprocess(JoinWithSpaces(files.pdfPages(path).value))
    ensures KindOf(path) == PlainText && files.readText(path).Some? ==>
              text == preprocess(files.readText(path).value)
  {
    match KindOf(path)
    case Pdf =>
      (match files.pdfPages(path)
       case Some(pages) => preprocess(JoinWithSpaces(pages))
       case None => "")
    case PlainText =>
      (match files.readText(path)
       case Some(raw) => preprocess(raw)
       case None => "")
    case Unsupported => ""
  }

  lemma LowerAllAppend(a: string, b: string)
    ensures LowerAll(a + b) == LowerAll(a) + LowerAll(b)
  {
    assert forall i :: 0 <= i < |a + b| ==>
      LowerAll(a + b)[i] == (if i < |a| then LowerAll(a)[i] else LowerAll(b)[i - |a|]);
  }

  lemma LowerAllTwice(s: string)
    ensures LowerAll(LowerAll(s)) == LowerAll(s)
  {
  }

  /** The extension test ignores case: a path is dispatched as its lower-cased self is. */
  lemma KindOfLowered(path: string)
    ensures KindOf(LowerAll(path)) == KindOf(path)
  {
    LowerAllTwice(path);
  }

  /** Whatever the case of its letters, ".pdf" names a PDF and ".txt" a text file. */
  lemma ExtensionIgnoresCase(stem: string, ext: string)
    ensures LowerAll(ext) == ".pdf" ==> KindOf(stem + ext) == Pdf
    ensures LowerAll(ext) == ".txt" ==> KindOf(stem + ext) == PlainText
    ensures KindOf(stem + ".PDF") == Pdf && KindOf(stem + ".TXT") == PlainText
  {
    forall e | LowerAll(e) == ".pdf" || LowerAll(e) == ".txt"
      ensures KindOf(stem + e) == (if LowerAll(e) == ".pdf" then Pdf else PlainText)
    {
      LowerAllAppend(stem, e);
      var l := LowerAll(stem) + LowerAll(e);
      assert l[|l| - 4..] == LowerAll(e);
      if LowerAll(e) == ".txt" {
        assert l[|l| - 1] == 't';
      }
    }
    assert LowerAll(".PDF") == ".pdf";
    assert LowerAll(".TXT") == ".txt";
  }

  /** It looks at the very end of the path only: ".pdf.bak" is not supported. */
  lemma ExtensionAtEnd(stem: string)
    ensures KindOf(stem + ".pdf.bak") == Unsupported
  {
    LowerAllAppend(stem, ".pdf.bak");
    var l := LowerAll(stem + ".pdf.bak");
    assert LowerAll(".pdf.bak")[7] == 'k';
    assert l[|l| - 1] == 'k';
  }
}

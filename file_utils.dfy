/** The file-type lookup: the extension after the last '.', lowercased, picks one of six labels. */
module FileUtils {
  import opened Wrappers

  /** `String.lastIndexOf`: the last position of `c` in `s`, or -1. */
  function LastIndexOf(s: string, c: char): (r: int)
    ensures -1 <= r < |s|
    ensures r >= 0 ==> s[r] == c
    ensures forall i :: r < i < |s| ==> s[i] != c
    ensures r == -1 <==> c !in s
    decreases |s|
  {
    if s == [] then -1
    else if s[|s| - 1] == c then |s| - 1
    else LastIndexOf(s[..|s| - 1], c)
  }

  function LowerChar(c: char): char {
    if 'A' <= c <= 'Z' then (c as int - 'A' as int + 'a' as int) as char else c
  }

  /** `toLowerCase` on ASCII letters; every other character is kept. */
  function ToLower(s: string): (r: string)
    ensures |r| == |s| && forall i :: 0 <= i < |s| ==> r[i] == LowerChar(s[i])
  {
    seq(|s|, i requires 0 <= i < |s| => LowerChar(s[i]))
  }

  const TextFile: string := "Text File"
  const PdfDocument: string := "PDF Document"
  const ImageFile: string := "Image File"
  const ZipArchive: string := "ZIP Archive"
  const GzipArchive: string := "GZIP Archive"
  const Unknown: string := "Unknown"

  /** The switch on the lowercased extension: eight known extensions, everything else "Unknown". */
  function Category(extension: string): (r: string)
    ensures r in {TextFile, PdfDocument, ImageFile, ZipArchive, GzipArchive, Unknown}
    ensures r == Unknown <==> extension !in {"txt", "pdf", "jpg", "jpeg", "png", "gif", "zip", "gz"}
    ensures r == ImageFile <==> extension in {"jpg", "jpeg", "png", "gif"}
  {
    if extension == "txt" then TextFile
    else if extension == "pdf" then PdfDocument
    else if extension in {"jpg", "jpeg", "png", "gif"} then ImageFile
    else if extension == "zip" then ZipArchive
    else if extension == "gz" then GzipArchive
    else Unknown
  }

  /** `getFileType`: "Unknown" for null or a name without '.', otherwise the extension's category. */
  function GetFileType(fileName: Option<string>): (r: string)
    ensures r in {TextFile, PdfDocument, ImageFile, ZipArchive, GzipArchive, Unknown}
    ensures fileName.None? || '.' !in fileName.value ==> r == Unknown
  {
    if fileName.None? || LastIndexOf(fileName.value, '.') == -1 then Unknown
    else Category(ToLower(fileName.value[LastIndexOf(fileName.value, '.') + 1..]))
  }

  /** Only the text after the last '.' matters, in either case: `stem + "." + extension` with no '.' in the extension. */
  lemma ExtensionAfterLastDot(stem: string, extension: string)
    requires '.' !in extension
    ensures GetFileType(Some(stem + "." + extension)) == Category(ToLower(extension))
  {
    var name := stem + "." + extension;
    assert name[|stem|] == '.';
    var k := LastIndexOf(name, '.');
    assert k == |stem|;
    assert name[k + 1..] == extension;
  }

  /** The last extension decides, whatever its case. */
  lemma UpperCaseExtensionExample()
    ensures GetFileType(Some("a.b.TXT")) == TextFile
  {
    ExtensionAfterLastDot("a.b", "TXT");
    assert "a.b" + "." + "TXT" == "a.b.TXT";
    assert ToLower("TXT") == "txt";
  }

  lemma TextFileExample()
    ensures GetFileType(Some("test.txt")) == TextFile
  {
    ExtensionAfterLastDot("test", "txt");
    assert "test" + "." + "txt" == "test.txt";
    assert ToLower("txt") == "txt";
  }

  lemma ImageFileExample()
    ensures GetFileType(Some("photo.JPeG")) == ImageFile
  {
    ExtensionAfterLastDot("photo", "JPeG");
    assert "photo" + "." + "JPeG" == "photo.JPeG";
    assert ToLower("JPeG") == "jpeg";
    assert Category("jpeg") == ImageFile;
  }

  /** A trailing dot leaves an empty extension, which no case matches. */
  lemma TrailingDotExample()
    ensures GetFileType(Some("archive.")) == Unknown
  {
    ExtensionAfterLastDot("archive", "");
    assert "archive" + "." + "" == "archive.";
  }
}

/** Upload validation (src/utils/file_validator.py).

    The file system enters as two parameters: whether the path exists and
    what the size query returned (a size in bytes, or the error it raised).
    What is left is the path's string handling and the ordered chain of
    guards. */
module FileValidator {

  /** The lower-case extensions accepted for upload. */
  const AllowedExtensions: set<string> := {"pdf", "docx", "pptx", "xlsx", "csv", "jpeg", "jpg", "png"}

  /** 250 MiB, in bytes. */
  const MaxFileSize: nat := 250 * 1024 * 1024

  /** What asking the file system for the size returned. */
  datatype SizeQuery = Size(bytes: nat) | SizeError(detail: string)

  /** The message half of the result. The size message prints megabytes as
      floating point and the unsupported-type message lists the allowed set
      in hash order, so those two carry the values they are built from. */
  datatype Message =
    | Exact(text: string)
    | SizeExceeded(bytes: nat)
    | TypeNotSupported(extension: string)
    | ValidationError(detail: string)

  datatype Validation = Validation(valid: bool, message: Message)

  const Success: Message := Exact("File validation successful")
  const NoExtension: Message := Exact("No file extension found")

  function Missing(path: string): Message
  {
    Exact("File does not exist: " + path)
  }

  lemma MissingIsNotSuccess(path: string)
    ensures Missing(path) != Success
  {
    assert Missing(path).text[5] == 'd' != Success.text[5];
  }

  // ---------------------------------------------------------------------------
  // String handling

  function LowerChar(c: char): char
  {
    if 'A' <= c <= 'Z' then (c as int - 'A' as int + 'a' as int) as char else c
  }

  /** `s.lower()` on ASCII letters. */
  function Lower(s: string): (r: string)
    ensures |r| == |s|
    ensures forall i | 0 <= i < |r| :: !('A' <= r[i] <= 'Z')
    ensures forall i | 0 <= i < |r| :: r[i] == s[i] || ('A' <= s[i] <= 'Z' && r[i] as int == s[i] as int + 32)
  {
    seq(|s|, i requires 0 <= i < |s| => LowerChar(s[i]))
  }

  /** Lowering twice is lowering once. */
  lemma LowerIdempotent(s: string)
    ensures Lower(Lower(s)) == Lower(s)
  {
    var l := Lower(s);
    assert forall i | 0 <= i < |l| :: LowerChar(l[i]) == l[i];
  }

  /** `path.rsplit('.', 1)[1]`: the text after the last dot. */
  function Extension(path: string): (r: string)
    requires '.' in path
    ensures |r| < |path| && path[|path| - |r| - 1] == '.'
    ensures path[|path| - |r|..] == r && '.' !in r
    decreases |path|
  {
    var last := path[|path| - 1];
    if last == '.' then []
    else
      assert path == path[..|path| - 1] + [last];
      Extension(path[..|path| - 1]) + [last]
  }

  /** Whatever comes before the last dot, the extension is what follows it. */
  lemma {:induction false} ExtensionOf(stem: string, ext: string)
    requires '.' !in ext
    ensures Extension(stem + "." + ext) == ext
    decreases |ext|
  {
    var path := stem + "." + ext;
    if ext != [] {
      var front := ext[..|ext| - 1];
      assert path[..|path| - 1] == stem + "." + front;
      assert '.' !in front by { assert forall c | c in front :: c in ext; }
      ExtensionOf(stem, front);
      assert ext == front + [ext[|ext| - 1]];
    }
  }

  // ---------------------------------------------------------------------------
  // The guard chain

  predicate SizeWithinLimit(size: SizeQuery)
  {
    size.Size? && size.bytes <= MaxFileSize
  }

  predicate ExtensionAllowed(path: string)
  {
    '.' in path && Lower(Extension(path)) in AllowedExtensions
  }

  /** `validate_file(path)`: the guards run in order -- existence, size,
      dot, extension -- and the first that fails decides the message. */
  function ValidateFile(path: string, present: bool, size: SizeQuery): (r: Validation)
    ensures r.valid <==> present && SizeWithinLimit(size) && ExtensionAllowed(path)
    ensures r.valid <==> r.message == Success
    ensures !present ==> r.message == Missing(path)
    ensures present && size.SizeError? ==> r.message == ValidationError(size.detail)
    ensures present && size.Size? && size.bytes > MaxFileSize ==> r.message == SizeExceeded(size.bytes)
    ensures present && SizeWithinLimit(size) && '.' !in path ==> r.message == NoExtension
    ensures present && SizeWithinLimit(size) && '.' in path && !ExtensionAllowed(path) ==>
      r.message == TypeNotSupported(Lower(Extension(path)))
  {
    MissingIsNotSuccess(path);
    if !present then Validation(false, Missing(path))
    else match size
      case SizeError(detail) => Validation(false, ValidationError(detail))
      case Size(bytes) =>
        if bytes > MaxFileSize then Validation(false, SizeExceeded(bytes))
        else if '.' !in path then Validation(false, NoExtension)
        else
          var extension := Lower(Extension(path));
          if extension !in AllowedExtensions then Validation(false, TypeNotSupported(extension))
          else Validation(true, Success)
  }

  // ---------------------------------------------------------------------------
  // Properties

  /** The case of the extension does not matter: the verdict is the same,
      and so is the message once the file exists. */
  lemma CaseInsensitive(stem: string, ext: string, present: bool, size: SizeQuery)
    requires '.' !in ext
    ensures ValidateFile(stem + "." + ext, present, size).valid == ValidateFile(stem + "." + Lower(ext), present, size).valid
    ensures present ==> ValidateFile(stem + "." + ext, present, size) == ValidateFile(stem + "." + Lower(ext), present, size)
  {
    var lower := Lower(ext);
    var p1, p2 := stem + "." + ext, stem + "." + lower;
    assert '.' !in lower by {
      forall i | 0 <= i < |ext| ensures lower[i] != '.' { assert ext[i] != '.'; }
    }
    assert p1[|stem|] == '.' && p2[|stem|] == '.';
    ExtensionOf(stem, ext);
    ExtensionOf(stem, lower);
    LowerIdempotent(ext);
    assert Lower(Extension(p1)) == Lower(Extension(p2));
  }

  /** A missing file is reported first, whatever its size and name. */
  lemma MissingReportedFirst(path: string, size: SizeQuery)
    ensures ValidateFile(path, false, size) == Validation(false, Missing(path))
  {
  }

  /** A file of exactly the limit passes the size guard; one byte more does not. */
  lemma SizeBoundary(path: string)
    ensures ValidateFile(path, true, Size(MaxFileSize)).message != SizeExceeded(MaxFileSize)
    ensures ValidateFile(path, true, Size(MaxFileSize + 1)) == Validation(false, SizeExceeded(262144001))
  {
  }

  /** Every allowed extension has three or four letters and starts with one
      of five letters. */
  lemma AllowedShape(e: string)
    ensures e in AllowedExtensions ==> 3 <= |e| <= 4 && e[0] in {'p', 'd', 'x', 'c', 'j'}
  {
  }

  /** The extension of `stem + "." + ext`, lowered, when `ext` holds no dot. */
  lemma LoweredExtension(path: string, stem: string, ext: string, lower: string)
    requires path == stem + "." + ext && '.' !in ext && Lower(ext) == lower
    ensures '.' in path && Lower(Extension(path)) == lower
  {
    assert path[|stem|] == '.';
    ExtensionOf(stem, ext);
  }

  /** "a.PDF" is accepted. */
  lemma UpperCasePdfAccepted()
    ensures ValidateFile("a.PDF", true, Size(1024)) == Validation(true, Success)
  {
    PdfPath();
    LoweredExtension("a.PDF", "a", "PDF", "pdf");
  }

  lemma PdfPath()
    ensures "a.PDF" == "a" + "." + "PDF" && Lower("PDF") == "pdf"
  {
  }

  /** "a.txt" is rejected for its type. */
  lemma TxtRejected()
    ensures ValidateFile("a.txt", true, Size(1024)) == Validation(false, TypeNotSupported("txt"))
  {
    TxtPath();
    LoweredExtension("a.txt", "a", "txt", "txt");
    AllowedShape("txt");
  }

  lemma TxtPath()
    ensures "a.txt" == "a" + "." + "txt" && Lower("txt") == "txt"
  {
  }

  /** Only the last dot counts, even inside a directory name. */
  lemma DotInDirectory()
    ensures ValidateFile("notes.d/readme", true, Size(10)) == Validation(false, TypeNotSupported("d/readme"))
  {
    NotesPath();
    LoweredExtension("notes.d/readme", "notes", "d/readme", "d/readme");
    AllowedShape("d/readme");
  }

  lemma NotesPath()
    ensures "notes.d/readme" == "notes" + "." + "d/readme" && '.' !in "d/readme" && Lower("d/readme") == "d/readme"
  {
  }

  /** A name without any dot has no extension. */
  lemma NoDotNoExtension()
    ensures ValidateFile("README", true, Size(10)) == Validation(false, NoExtension)
  {
  }
}

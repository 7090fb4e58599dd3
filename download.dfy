/**
 * The download dialog of the code view (src/app/components/DownloadButton.tsx):
 * the language-to-extension table, the file name derived from what the user
 * typed, and the two pieces of dialog state that Download and Cancel reset.
 */
module Download {

  /** `LANGUAGE_TO_EXTENSION` */
  const LANGUAGE_TO_EXTENSION: map<string, string> := map[
    "javascript" := "js",
    "typescript" := "ts",
    "python" := "py",
    "java" := "java",
    "csharp" := "cs",
    "php" := "php",
    "ruby" := "rb",
    "go" := "go",
    "rust" := "rs",
    "html" := "html",
    "css" := "css",
    "json" := "json",
    "markdown" := "md",
    "plaintext" := "txt"
  ]

  /** The language values the code editor offers (src/app/components/CodeEditor.tsx). */
  const SUPPORTED_LANGUAGES: seq<string> := [
    "javascript", "typescript", "python", "java", "csharp", "php", "ruby",
    "go", "rust", "html", "css", "json", "markdown", "plaintext"
  ]

  const FALLBACK_EXTENSION: string := "txt"
  const DEFAULT_BASENAME: string := "secret-code"

  /**
   * The characters JavaScript's `String.prototype.trim` removes, by code
   * point: tab, line feed, vertical tab, form feed, carriage return, space,
   * no-break space, the Unicode space separators, the line and paragraph
   * separators and the byte order mark. Letters, digits and '.' are never
   * whitespace.
   */
  predicate IsWhitespace(c: char): (ws: bool)
    ensures c == '\t' || c == '\n' || c == '\r' || c == ' ' ==> ws
    ensures ws ==> c != '.' && !('a' <= c <= 'z') && !('A' <= c <= 'Z') && !('0' <= c <= '9')
  {
    var n := c as int;
    || 0x09 <= n <= 0x0D || n == 0x20 || n == 0xA0 || n == 0x1680
    || 0x2000 <= n <= 0x200A || n == 0x2028 || n == 0x2029 || n == 0x202F
    || n == 0x205F || n == 0x3000 || n == 0xFEFF
  }

  /** Every entry of the table is a non-empty word with no whitespace and no '.'. */
  predicate PlainExtension(ext: string)
  {
    ext != [] && forall i :: 0 <= i < |ext| ==> !IsWhitespace(ext[i]) && ext[i] != '.'
  }

  /** `LANGUAGE_TO_EXTENSION[language] || 'txt'` */
  function Extension(language: string): (ext: string)
    ensures language in LANGUAGE_TO_EXTENSION ==> ext == LANGUAGE_TO_EXTENSION[language]
    ensures language !in LANGUAGE_TO_EXTENSION ==> ext == FALLBACK_EXTENSION
    ensures PlainExtension(ext)
  {
    if language in LANGUAGE_TO_EXTENSION && LANGUAGE_TO_EXTENSION[language] != [] then
      LANGUAGE_TO_EXTENSION[language]
    else
      FALLBACK_EXTENSION
  }

  /** Every language the editor offers has its own entry in the table. */
  lemma EditorLanguagesCovered()
    ensures forall i :: 0 <= i < |SUPPORTED_LANGUAGES| ==> SUPPORTED_LANGUAGES[i] in LANGUAGE_TO_EXTENSION
  {
  }

  /** Leading whitespace removed: the rest of `s` from its first non-blank character. */
  function TrimStart(s: string): (r: string)
    ensures |r| <= |s| && r == s[|s| - |r|..]
    ensures forall i :: 0 <= i < |s| - |r| ==> IsWhitespace(s[i])
    ensures r == [] || !IsWhitespace(r[0])
  {
    if s != [] && IsWhitespace(s[0]) then TrimStart(s[1..]) else s
  }

  /** Trailing whitespace removed: `s` up to its last non-blank character. */
  function TrimEnd(s: string): (r: string)
    ensures |r| <= |s| && r == s[..|r|]
    ensures forall i :: |r| <= i < |s| ==> IsWhitespace(s[i])
    ensures r == [] || !IsWhitespace(r[|r| - 1])
  {
    if s != [] && IsWhitespace(s[|s| - 1]) then TrimEnd(s[..|s| - 1]) else s
  }

  /**
   * `s.trim()`: no longer than `s`, and empty or starting and ending with a
   * non-blank character.
   */
  function Trim(s: string): (r: string)
    ensures |r| <= |s|
    ensures r == [] || (!IsWhitespace(r[0]) && !IsWhitespace(r[|r| - 1]))
  {
    var t := TrimStart(s);
    var r := TrimEnd(t);
    assert r == [] || r[0] == t[0];
    r
  }

  /** A string that is empty or has non-blank ends is its own trim. */
  lemma TrimOfTrimmed(s: string)
    requires s == [] || (!IsWhitespace(s[0]) && !IsWhitespace(s[|s| - 1]))
    ensures Trim(s) == s
  {
  }

  /** Trimming is idempotent. */
  lemma TrimIdempotent(s: string)
    ensures Trim(Trim(s)) == Trim(s)
  {
    TrimOfTrimmed(Trim(s));
  }

  /** The trim is empty exactly when every character is whitespace. */
  lemma TrimEmptyIffBlank(s: string)
    ensures Trim(s) == [] <==> forall i :: 0 <= i < |s| ==> IsWhitespace(s[i])
  {
    var t := TrimStart(s);
    if Trim(s) != [] {
      assert t != [] && !IsWhitespace(t[0]) && t[0] == s[|s| - |t|];
    }
  }

  /** A non-blank character of `s` lies in the part `TrimStart` keeps. */
  lemma TrimStartKeepsAt(s: string, i: nat)
    requires i < |s| && !IsWhitespace(s[i])
    ensures |s| - |TrimStart(s)| <= i && TrimStart(s)[i - (|s| - |TrimStart(s)|)] == s[i]
  {
    var t := TrimStart(s);
    assert t == s[|s| - |t|..];
  }

  /** A non-blank character of `s` lies in the part `TrimEnd` keeps. */
  lemma TrimEndKeepsAt(s: string, i: nat)
    requires i < |s| && !IsWhitespace(s[i])
    ensures i < |TrimEnd(s)| && TrimEnd(s)[i] == s[i]
  {
    var t := TrimEnd(s);
    assert t == s[..|t|];
  }

  /** Every non-blank character of `s` survives trimming. */
  lemma TrimKeepsForward(s: string, i: nat)
    requires i < |s| && !IsWhitespace(s[i])
    ensures s[i] in Trim(s)
  {
    var t := TrimStart(s);
    var j := i - (|s| - |t|);
    TrimStartKeepsAt(s, i);
    TrimEndKeepsAt(t, j);
    assert Trim(s)[j] == s[i];
  }

  /** Trimming adds no character. */
  lemma TrimKeepsBackward(s: string, c: char)
    requires c in Trim(s)
    ensures c in s
  {
    var t := TrimStart(s);
    var u := TrimEnd(t);
    var j :| 0 <= j < |u| && u[j] == c;
    assert u == t[..|u|];
    assert t[j] == c;
    assert t == s[|s| - |t|..];
    assert s[j + (|s| - |t|)] == c;
  }

  /** Trimming removes only whitespace: every other character stays, in particular '.'. */
  lemma TrimKeeps(s: string, c: char)
    requires !IsWhitespace(c)
    ensures c in s <==> c in Trim(s)
  {
    if c in s {
      var i :| 0 <= i < |s| && s[i] == c;
      TrimKeepsForward(s, i);
    }
    if c in Trim(s) {
      TrimKeepsBackward(s, c);
    }
  }

  /**
   * The name the download gets for the extension `ext`: the trimmed input as
   * typed when it contains a '.', the trimmed input plus '.' and `ext` when
   * it has none, and `secret-code.<ext>` when the input is blank.
   */
  function FinalName(filename: string, ext: string): (name: string)
    ensures name != [] && '.' in name
  {
    var base := Trim(filename);
    if base != [] then
      base + (if '.' in filename then [] else "." + ext)
    else
      DEFAULT_BASENAME + "." + ext
  }

  /** `finalFilename` for the language's extension. */
  function FinalFilename(filename: string, language: string): (name: string)
    ensures name != [] && '.' in name
  {
    FinalName(filename, Extension(language))
  }

  /** A blank input (empty or whitespace only) gives `secret-code.<ext>`. */
  lemma BlankFilename(filename: string, ext: string)
    requires forall i :: 0 <= i < |filename| ==> IsWhitespace(filename[i])
    ensures FinalName(filename, ext) == DEFAULT_BASENAME + "." + ext
  {
    TrimEmptyIffBlank(filename);
  }

  /** An input containing '.' is used as its trimmed form, with nothing appended. */
  lemma DottedFilename(filename: string, ext: string)
    requires '.' in filename
    ensures FinalName(filename, ext) == Trim(filename)
  {
    TrimKeeps(filename, '.');
  }

  /** A non-blank input without '.' gets '.' and the extension appended to its trim. */
  lemma UndottedFilename(filename: string, ext: string)
    requires '.' !in filename
    requires exists i :: 0 <= i < |filename| && !IsWhitespace(filename[i])
    ensures FinalName(filename, ext) == Trim(filename) + "." + ext
  {
    TrimEmptyIffBlank(filename);
  }

  /** A non-blank start, then '.' and an extension: both ends are non-blank. */
  lemma DottedJoinTrimmed(base: string, ext: string)
    requires base != [] && !IsWhitespace(base[0]) && PlainExtension(ext)
    ensures Trim(base + "." + ext) == base + "." + ext
  {
    var name := base + "." + ext;
    assert name[0] == base[0] && name[|name| - 1] == ext[|ext| - 1];
    TrimOfTrimmed(name);
  }

  /** The derived name starts and ends with a non-blank character, so it is its own trim. */
  lemma FinalNameTrimmed(filename: string, ext: string)
    requires PlainExtension(ext)
    ensures Trim(FinalName(filename, ext)) == FinalName(filename, ext)
  {
    var base := Trim(filename);
    if base == [] {
      assert FinalName(filename, ext) == DEFAULT_BASENAME + "." + ext;
      DottedJoinTrimmed(DEFAULT_BASENAME, ext);
    } else if '.' in filename {
      assert FinalName(filename, ext) == base;
      TrimIdempotent(filename);
    } else {
      assert FinalName(filename, ext) == base + "." + ext;
      DottedJoinTrimmed(base, ext);
    }
  }

  /**
   * Typing the produced name back in, for the same language, produces it
   * again: the derivation is idempotent.
   */
  lemma FinalFilenameIdempotent(filename: string, language: string)
    ensures FinalFilename(FinalFilename(filename, language), language) == FinalFilename(filename, language)
  {
    var ext := Extension(language);
    var name := FinalName(filename, ext);
    FinalNameTrimmed(filename, ext);
    assert Trim(name) == name && name != [] && '.' in name;
  }

  /**
   * The dialog's two pieces of state: whether it is open and the name typed
   * so far.
   */
  class DownloadDialog {
    var showDialog: bool
    var filename: string

    /** `useState(false)`, `useState('')` */
    constructor ()
      ensures !showDialog && filename == []
    {
      showDialog := false;
      filename := [];
    }

    /** The Download button opens the dialog; the typed name is kept. */
    method Open()
      modifies this
      ensures showDialog && filename == old(filename)
    {
      showDialog := true;
    }

    /** Typing in the name field replaces the name. */
    method Edit(value: string)
      modifies this
      ensures filename == value && showDialog == old(showDialog)
    {
      filename := value;
    }

    /** Cancel closes the dialog and clears the name. */
    method Cancel()
      modifies this
      ensures !showDialog && filename == []
    {
      showDialog := false;
      filename := [];
    }

    /**
     * `handleDownload`: saves the content under the derived name (the file
     * itself is not modelled), then closes the dialog and clears the name.
     */
    method Download(language: string) returns (name: string)
      modifies this
      ensures name == FinalFilename(old(filename), language)
      ensures !showDialog && filename == []
    {
      var extension := Extension(language);
      name := FinalName(filename, extension);
      showDialog := false;
      filename := [];
    }
  }
}

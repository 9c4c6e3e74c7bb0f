/**
 * The upload check (src/validators/uploadValidator.js): a file must be
 * attached, and the text from the last dot of its original name, lower-cased,
 * must be one of the spreadsheet extensions.
 */
module UploadValidator {
  import opened Wrappers
  import opened Text

  const AllowedTypes: seq<string> := [".csv", ".xlsx", ".xls"]

  /**
   * `originalname.substring(originalname.lastIndexOf('.')).toLowerCase()`:
   * from the last dot on, or the whole name when it has no dot.
   */
  function Extension(name: string): (r: string)
    ensures |r| <= |name|
    ensures r == ToLower(name[|name| - |r|..])
    ensures '.' !in name ==> |r| == |name|
    ensures '.' in name ==> r != [] && r[0] == '.' && '.' !in r[1..]
  {
    LowerKeepsDot(FromLast(name, '.'));
    ToLower(FromLast(name, '.'))
  }

  /** Lower-casing neither creates nor removes dots. */
  lemma LowerKeepsDot(s: string)
    ensures forall i :: 0 <= i < |s| ==> (ToLower(s)[i] == '.' <==> s[i] == '.')
  {
  }

  /**
   * The custom validator: no file fails with 'File is required'; a file is
   * accepted, with `true`, exactly when its extension is allowed, and fails
   * with 'Only CSV and XLSX files are allowed' otherwise.
   */
  function CheckUpload(originalName: Option<string>): (r: Result<bool>)
    ensures originalName.None? ==> r == Failure("File is required")
    ensures originalName.Some? ==> (r == Success(true) <==> Extension(originalName.value) in AllowedTypes)
    ensures originalName.Some? && r.Failure? ==> r.error == "Only CSV and XLSX files are allowed"
    ensures r.Success? ==> r.value
  {
    match originalName
    case None => Failure("File is required")
    case Some(name) =>
      if Extension(name) in AllowedTypes then Success(true)
      else Failure("Only CSV and XLSX files are allowed")
  }

  /** A name without a dot is always refused, even one spelled `csv`. */
  lemma NoDotRejected(name: string)
    requires '.' !in name
    ensures CheckUpload(Some(name)).Failure?
  {
    LowerKeepsDot(name);
  }

  /** Each allowed extension is a dot followed by dot-free text. */
  lemma AllowedShape(e: string)
    requires e in AllowedTypes
    ensures |e| >= 1 && e[0] == '.' && '.' !in e[1..]
  {
    assert e == ".csv" || e == ".xlsx" || e == ".xls";
  }

  /** When the dot at `j` is the last one, the extension is the lower-cased text from `j`. */
  lemma ExtensionFromDot(name: string, j: nat)
    requires j < |name| && name[j] == '.' && '.' !in name[j + 1..]
    ensures Extension(name) == ToLower(name[j..])
  {
    assert forall i :: j < i < |name| ==> name[i] == name[j + 1..][i - j - 1];
  }

  /** A name that ends, up to case, with an allowed extension is accepted. */
  lemma AllowedSuffixAccepted(name: string, e: string)
    requires e in AllowedTypes && |e| <= |name| && ToLower(name[|name| - |e|..]) == e
    ensures CheckUpload(Some(name)) == Success(true)
  {
    AllowedShape(e);
    SuffixIsExtension(name, e);
  }

  /** A suffix that lower-cases to a dot and dot-free text is the name's extension. */
  lemma SuffixIsExtension(name: string, e: string)
    requires |e| >= 1 && e[0] == '.' && '.' !in e[1..]
    requires |e| <= |name| && ToLower(name[|name| - |e|..]) == e
    ensures Extension(name) == e
  {
    SuffixLastDot(name, e);
    ExtensionFromDot(name, |name| - |e|);
  }

  /** Such a suffix starts at the name's last dot. */
  lemma SuffixLastDot(name: string, e: string)
    requires |e| >= 1 && e[0] == '.' && '.' !in e[1..]
    requires |e| <= |name| && ToLower(name[|name| - |e|..]) == e
    ensures name[|name| - |e|] == '.' && '.' !in name[|name| - |e| + 1..]
  {
    var j := |name| - |e|;
    var tail := name[j..];
    LowerKeepsDot(tail);
    assert name[j] == tail[0];
    var rest := name[j + 1..];
    forall i | 0 <= i < |rest| ensures rest[i] != '.' {
      assert rest[i] == tail[i + 1];
      assert e[i + 1] == e[1..][i];
    }
  }

  /**
   * Acceptance is a case-insensitive suffix test: the name is accepted
   * exactly when, lower-cased, it ends with one of the allowed extensions.
   */
  lemma AcceptedIffAllowedSuffix(name: string)
    ensures CheckUpload(Some(name)).Success? <==>
              exists e :: e in AllowedTypes && |e| <= |name| && ToLower(name[|name| - |e|..]) == e
  {
    var x := Extension(name);
    if CheckUpload(Some(name)).Success? {
      assert x in AllowedTypes && |x| <= |name| && ToLower(name[|name| - |x|..]) == x;
    }
    if e :| e in AllowedTypes && |e| <= |name| && ToLower(name[|name| - |e|..]) == e {
      AllowedSuffixAccepted(name, e);
    }
  }

  lemma UpperCaseExtensionAccepted()
    ensures CheckUpload(Some("DATA.CSV")) == Success(true)
  {
    var name := "DATA.CSV";
    assert name[4..] == ".CSV";
    var lowered := ToLower(".CSV");
    assert lowered[0] == '.' && lowered[1] == 'c' && lowered[2] == 's' && lowered[3] == 'v';
    assert lowered == ".csv";
    AllowedSuffixAccepted(name, ".csv");
  }

  lemma InnerExtensionRejected()
    ensures CheckUpload(Some("a.csv.txt")).Failure?
  {
    var name := "a.csv.txt";
    assert Extension(name) == ToLower(".txt") by {
      ExtensionFromDot(name, 5);
      assert name[5..] == ".txt";
    }
    assert ToLower(".txt")[1] == 't';
    SecondLetterNotAllowed(ToLower(".txt"));
  }

  /** No allowed extension has `t` as its second character. */
  lemma SecondLetterNotAllowed(x: string)
    requires |x| >= 2 && x[1] == 't'
    ensures x !in AllowedTypes
  {
    assert ".csv"[1] == 'c' && ".xlsx"[1] == 'x' && ".xls"[1] == 'x';
  }
}

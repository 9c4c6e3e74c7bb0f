/**
 * The format dispatch of `parseFile` (src/utils/csvParser.js). Decoding the
 * CSV and spreadsheet contents is left out; the result names the parser the
 * path is handed to.
 */
module CsvParser {
  import opened Wrappers
  import opened Text
  import UploadValidator

  datatype Format = Csv | Spreadsheet

  const Unsupported := "Unsupported file format. Only CSV and XLSX are supported."

  /** `filePath.split('.').pop().toLowerCase()`: the text after the last dot, or the whole path without one. */
  function PathExtension(path: string): (r: string)
    ensures '.' !in path ==> r == ToLower(path)
    ensures |r| <= |path| && r == ToLower(path[|path| - |r|..])
    ensures |r| < |path| ==> path[|path| - |r| - 1] == '.'
    ensures '.' !in r
  {
    var a := AfterLast(path, '.');
    LowerDotFree(a);
    ToLower(a)
  }

  /** Lower-casing keeps length and adds no dot. */
  lemma LowerDotFree(a: string)
    requires '.' !in a
    ensures |ToLower(a)| == |a| && '.' !in ToLower(a)
  {
    UploadValidator.LowerKeepsDot(a);
  }

  /**
   * `parseFile(filePath)`: 'csv' goes to the CSV parser, 'xlsx' and 'xls'
   * to the spreadsheet parser, anything else throws.
   */
  function ParseFormat(path: string): (r: Result<Format>)
    ensures r == Success(Csv) <==> PathExtension(path) == "csv"
    ensures r == Success(Spreadsheet) <==> PathExtension(path) == "xlsx" || PathExtension(path) == "xls"
    ensures r.Failure? ==> r.error == Unsupported
  {
    var ext := PathExtension(path);
    if ext == "csv" then Success(Csv)
    else if ext == "xlsx" || ext == "xls" then Success(Spreadsheet)
    else Failure(Unsupported)
  }

  /** A path without a dot is classified by its whole text, so a file named `CSV` goes to the CSV parser. */
  lemma DotlessPathUsesWholeName()
    ensures ParseFormat("CSV") == Success(Csv)
  {
    var r := ToLower("CSV");
    assert r[0] == 'c' && r[1] == 's' && r[2] == 'v';
    assert r == "csv";
  }

  /** A dotless path named `notes` is classified by its whole text too, and refused. */
  lemma DotlessNotesRejected()
    ensures ParseFormat("notes").Failure?
  {
    assert |ToLower("notes")| == 5;
  }

  /**
   * The upload gate and the parser agree on stored uploads: the stored file
   * name ends with the extension of the original name, and any name the
   * extension test accepts yields a stored path, in whatever directory, that
   * `parseFile` hands to a parser. The gate the upload route applies is
   * multer's `fileFilter`, whose test is the same lower-cased extension
   * against '.csv', '.xlsx' and '.xls' as `UploadValidator.CheckUpload`'s;
   * the `uploadValidation` validator itself is mounted on no route.
   */
  lemma AcceptedUploadParses(storedPrefix: string, originalName: string)
    requires UploadValidator.CheckUpload(Some(originalName)).Success?
    ensures ParseFormat(storedPrefix + FromLast(originalName, '.')).Success?
  {
    var ext := FromLast(originalName, '.');
    AcceptedSuffixShape(originalName);
    var path := storedPrefix + ext;
    assert path[|storedPrefix|..] == ext;
    AfterLastDot(path, |storedPrefix|);
    assert path[|storedPrefix| + 1..] == ext[1..];
  }

  /** The suffix an accepted name keeps is a dot and dot-free text that lower-cases to an allowed extension. */
  lemma AcceptedSuffixShape(originalName: string)
    requires UploadValidator.CheckUpload(Some(originalName)).Success?
    ensures var ext := FromLast(originalName, '.');
            && |ext| >= 1 && ext[0] == '.' && '.' !in ext[1..]
            && (ToLower(ext[1..]) == "csv" || ToLower(ext[1..]) == "xlsx" || ToLower(ext[1..]) == "xls")
  {
    var ext := FromLast(originalName, '.');
    var lowered := UploadValidator.Extension(originalName);
    UploadValidator.AllowedShape(lowered);
    UploadValidator.LowerKeepsDot(ext);
    assert ext[0] == '.';
    var rest := ext[1..];
    forall i | 0 <= i < |rest| ensures rest[i] != '.' {
      assert rest[i] == ext[i + 1];
      assert lowered[i + 1] == lowered[1..][i];
    }
    assert ToLower(rest) == lowered[1..];
    assert lowered == ".csv" || lowered == ".xlsx" || lowered == ".xls";
    if lowered == ".csv" {
      assert lowered[1..] == "csv";
    } else if lowered == ".xlsx" {
      assert lowered[1..] == "xlsx";
    } else {
      assert lowered[1..] == "xls";
    }
  }

  /** When the dot at `j` is the last one, the text after it is what `split('.').pop()` yields. */
  lemma AfterLastDot(path: string, j: nat)
    requires j < |path| && path[j] == '.' && '.' !in path[j + 1..]
    ensures AfterLast(path, '.') == path[j + 1..]
  {
    assert forall i :: j < i < |path| ==> path[i] == path[j + 1..][i - j - 1];
  }
}

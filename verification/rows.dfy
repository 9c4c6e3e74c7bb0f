/**
 * Parsed upload rows: one map from column name to cell text per line of the
 * file, and the two ways the application reads a cell.
 */
module Rows {

  type Row = map<string, string>

  /** JavaScript truthiness of `row[name]` for a string cell: present and not empty. */
  predicate Has(row: Row, name: string) {
    name in row && row[name] != ""
  }

  /** `row[name] || ''`: the cell when it is truthy, the empty string otherwise. */
  function Field(row: Row, name: string): (r: string)
    ensures r == "" <==> !Has(row, name)
    ensures Has(row, name) ==> r == row[name]
  {
    if name in row then row[name] else ""
  }

  /** `${row[name]}` in a template literal: a missing cell prints as "undefined". */
  function Show(row: Row, name: string): (r: string)
    ensures name in row ==> r == row[name]
    ensures name !in row ==> r == "undefined"
  {
    if name in row then row[name] else "undefined"
  }
}

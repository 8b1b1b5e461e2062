/**
 * How both scripts cut a GTF file into lines, columns and attribute units.
 */
module GtfLines {
  import opened Text

  /** The non-header lines of a file, in order. */
  function NonHeaders(lines: seq<String>): (r: seq<String>)
    ensures forall i :: 0 <= i < |r| ==> !("#" <= r[i])
  {
    if lines == [] then []
    else NonHeaders(lines[..|lines| - 1]) + if "#" <= lines[|lines| - 1] then [] else [lines[|lines| - 1]]
  }

  /** The tab-separated columns of a non-header line: `line.strip().split("\t")`. */
  function Columns(line: String): seq<String> {
    Split(Strip(line), '\t')
  }

  /** The units of the attribute column: `column.strip(";").split(";")`. */
  function AttributeUnits(column: String): seq<String> {
    Split(StripChar(column, ';'), ';')
  }
}

/** BED interval records: the single place where 1-based GTF starts become 0-based BED starts. */
module BedRecords {
  import opened Wrappers
  import opened Text

  datatype BedRecord = BedRecord(chrom: String, start: int, end: int, info: Option<seq<String>>)

  /** `BEDRecord(chrom, start, end, info)`: the start is shifted to 0-based, the end is kept. */
  function NewBed(chrom: String, start: int, end: int, info: Option<seq<String>>): (r: BedRecord)
    ensures r.chrom == chrom && r.start == start - 1 && r.end == end && r.info == info
  {
    BedRecord(chrom, start - 1, end, info)
  }

  /** The extra columns `BEDRecord.__str__` writes after the end: none, or `"\t".join(info)`. */
  function InfoColumns(info: Option<seq<String>>): seq<String> {
    match info
    case None => []
    case Some(cols) => [Join(cols, "\t")]
  }

  /** `str(record)`: the tab-separated columns of the record followed by a newline. */
  function Format(r: BedRecord): String {
    Join([r.chrom, IntToString(r.start), IntToString(r.end)] + InfoColumns(r.info), "\t") + "\n"
  }

  /**
   * A record written without extra columns reads back as its own chromosome, start and
   * end: the line ends in a newline, and splitting the rest on tabs gives three fields
   * whose numbers parse back to the record's coordinates.
   */
  lemma FormatReadsBack(r: BedRecord)
    requires r.info.None?
    requires '\t' !in r.chrom
    ensures |Format(r)| > 0 && Format(r)[|Format(r)| - 1] == '\n'
    ensures var fields := Split(Format(r)[..|Format(r)| - 1], '\t');
      |fields| == 3 && fields[0] == r.chrom
      && ParseInt(fields[1]) == Some(r.start) && ParseInt(fields[2]) == Some(r.end)
  {
    var cols := [r.chrom, IntToString(r.start), IntToString(r.end)];
    assert cols + InfoColumns(r.info) == cols;
    var line := Join(cols, "\t");
    assert Format(r)[..|Format(r)| - 1] == line;
    NoTabInNumber(r.start);
    NoTabInNumber(r.end);
    SplitJoin(cols, '\t');
    ParseIntToString(r.start);
    ParseIntToString(r.end);
  }

  lemma NoTabInNumber(i: int)
    ensures '\t' !in IntToString(i)
  {
    var digits := NatToString(if i < 0 then -i else i);
    assert forall k :: 0 <= k < |digits| ==> IsDigit(digits[k]);
    if i < 0 {
      assert IntToString(i) == "-" + digits;
    }
  }
}

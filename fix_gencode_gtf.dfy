/**
 * `fix_gtf` of `fix_gencode_gtf.py`: rewrites a GENCODE GTF file line by line.
 * Lines starting with `#` are kept, stripped, as header lines; in every other line
 * the attribute column is read into an insertion-ordered dictionary and written
 * back as `key 'value'` units joined by `; `, the other columns unchanged.
 * `FixSpec` gives the meaning of a whole file on values; `FixGtf` is the loop
 * over the lines, proved to agree with it.
 */
module FixGencodeGtf {
  import opened Wrappers
  import opened Text
  import opened OrderedMaps
  import opened GtfLines

  /** The exception `fix_gtf` can raise. */
  datatype FixError =
    | MalformedUnit(unit: String) // ValueError: the trimmed unit is not two words around exactly one space

  type Info = OrderedMap<String, String>

  /** The header lines and the rewritten annotation lines, each in file order. */
  datatype FixedGtf = FixedGtf(headerLines: seq<String>, annotationLines: seq<String>)

  /**
   * One attribute unit, `info.strip().split(" ")` unpacked into exactly two names:
   * the trimmed unit must hold exactly one space. The value loses its surrounding
   * double quotes.
   */
  function SplitUnit(unit: String): (r: Result<(String, String), FixError>)
    ensures r.Success? <==> Count(Strip(unit), ' ') == 1
    ensures r.Failure? ==> r.error == MalformedUnit(unit)
  {
    var parts := Split(Strip(unit), ' ');
    SplitLength(Strip(unit), ' ');
    if |parts| != 2 then Failure(MalformedUnit(unit))
    else Success((parts[0], StripChar(parts[1], '"')))
  }

  /**
   * A good unit is its key, its one space and its raw value: neither part holds a
   * space, and the value is the raw value without surrounding double quotes.
   */
  lemma SplitUnitParts(unit: String)
    requires SplitUnit(unit).Success?
    ensures var (k, v) := SplitUnit(unit).value; var s := Strip(unit);
      && |k| < |s| && s == k + " " + s[|k| + 1..]
      && ' ' !in k && ' ' !in s[|k| + 1..]
      && v == StripChar(s[|k| + 1..], '"')
  {
    var s := Strip(unit);
    var parts := Split(s, ' ');
    JoinSplit(s, ' ');
    JoinCons(parts[0], parts[1..], " ");
    assert parts[1..] == [parts[1]];
    assert s == parts[0] + " " + parts[1];
    assert s[|parts[0]| + 1..] == parts[1];
  }

  /** The pairs of all units of a column, or the error of the first malformed one. */
  function InfoPairs(units: seq<String>): Result<seq<(String, String)>, FixError> {
    MapResult(units, SplitUnit)
  }

  /** The attribute dictionary of a column: a repeated key keeps its first place and takes the later value. */
  function InfoOf(column: String): (r: Result<Info, FixError>)
    ensures r.Success? ==> r.value.Valid()
  {
    var pairs :- InfoPairs(AttributeUnits(column));
    Success(FromPairs(pairs))
  }

  /** Reading the attributes fails exactly when some trimmed unit does not hold exactly one space. */
  lemma InfoFailIff(column: String)
    ensures var units := AttributeUnits(column);
      InfoOf(column).Failure? <==> exists i :: 0 <= i < |units| && Count(Strip(units[i]), ' ') != 1
  {
    MapResultSuccess(AttributeUnits(column), SplitUnit);
  }

  /** The error reported names the first malformed unit. */
  lemma InfoFirstError(column: String, i: nat)
    requires var units := AttributeUnits(column);
      i < |units| && Count(Strip(units[i]), ' ') != 1 &&
      forall j :: 0 <= j < i ==> Count(Strip(units[j]), ' ') == 1
    ensures InfoOf(column) == Failure(MalformedUnit(AttributeUnits(column)[i]))
  {
    MapResultFirstFailure(AttributeUnits(column), i, SplitUnit);
  }

  /**
   * On success every unit's key is in the dictionary, and it maps to the value of
   * the last unit with that key.
   */
  lemma InfoLastWins(column: String, i: nat)
    requires InfoOf(column).Success? && i < |AttributeUnits(column)|
    ensures var units := AttributeUnits(column);
      && SplitUnit(units[i]).Success?
      && var (k, v) := SplitUnit(units[i]).value;
      && k in InfoOf(column).value.entries
      && ((forall j :: i < j < |units| ==> SplitUnit(units[j]).Success? && SplitUnit(units[j]).value.0 != k) ==>
            InfoOf(column).value.entries[k] == v)
  {
    var units := AttributeUnits(column);
    MapResultSuccess(units, SplitUnit);
    var ps := InfoPairs(units).value;
    FromPairsLastWins(ps);
    assert SplitUnit(units[i]) == Success(ps[i]);
    if forall j :: i < j < |units| ==> SplitUnit(units[j]).Success? && SplitUnit(units[j]).value.0 != ps[i].0 {
      assert LastOccurrence(ps, i) by {
        forall j | i < j < |ps| ensures ps[j].0 != ps[i].0 {
          assert SplitUnit(units[j]) == Success(ps[j]);
        }
      }
    }
  }

  /**
   * On success the dictionary lists every unit's key once, in the order in which
   * the keys first occur among the units.
   */
  lemma InfoFirstOrder(column: String)
    requires InfoOf(column).Success?
    ensures var units := AttributeUnits(column); var keys := InfoOf(column).value.keys;
      && (forall i :: 0 <= i < |units| ==> SplitUnit(units[i]).Success? && SplitUnit(units[i]).value.0 in keys)
      && InFirstOccurrenceOrder(keys, KeysOf(InfoPairs(units).value))
  {
    var units := AttributeUnits(column);
    MapResultSuccess(units, SplitUnit);
    FromPairsFirstOrder(InfoPairs(units).value);
  }

  /** One unit as `fix_gtf` writes it: the key, a space and the value in single quotes. */
  function Quoted(k: String, v: String): String {
    k + " '" + v + "'"
  }

  /** The rewritten attribute column: every entry quoted, in key order, joined by `; `. */
  function Requote(info: Info): String
    requires info.Valid()
  {
    Join(QuotedUnits(info), "; ")
  }

  /** Each entry of the dictionary written as a unit, in key order. */
  function QuotedUnits(info: Info): (r: seq<String>)
    requires info.Valid()
    ensures |r| == |info.keys| && forall i :: 0 <= i < |r| ==> r[i] == Quoted(info.keys[i], info.entries[info.keys[i]])
  {
    seq(|info.keys|, i requires 0 <= i < |info.keys| => Quoted(info.keys[i], info.entries[info.keys[i]]))
  }

  /** One annotation line rewritten: its columns with the last one requoted, joined by tabs. */
  function FixLine(line: String): Result<String, FixError> {
    var cols := Columns(line);
    var info :- InfoOf(AttributeColumn(line));
    Success(Join(cols[|cols| - 1 := Requote(info)], "\t"))
  }

  /** No key and no value of the dictionary holds a tab. */
  ghost predicate TabFree(info: Info) {
    forall k :: k in info.entries ==> '\t' !in k && '\t' !in info.entries[k]
  }

  /** A dictionary built from tab-free pairs is tab-free. */
  lemma {:induction false} FromPairsTabFree(ps: seq<(String, String)>)
    requires forall i :: 0 <= i < |ps| ==> '\t' !in ps[i].0 && '\t' !in ps[i].1
    ensures TabFree(FromPairs(ps))
  {
    if ps != [] {
      var init := ps[..|ps| - 1];
      FromPairsTabFree(init);
    }
  }

  /** The attributes of a tab-free column are tab-free. */
  lemma InfoTabFree(column: String)
    requires '\t' !in column && InfoOf(column).Success?
    ensures TabFree(InfoOf(column).value)
  {
    var units := AttributeUnits(column);
    StripSetChars(column, {';'});
    SplitChars(StripChar(column, ';'), ';');
    MapResultSuccess(units, SplitUnit);
    var ps := InfoPairs(units).value;
    forall i | 0 <= i < |ps| ensures '\t' !in ps[i].0 && '\t' !in ps[i].1 {
      SplitUnitTabFree(units[i]);
    }
    FromPairsTabFree(ps);
  }

  /** The key and value of a tab-free unit are tab-free. */
  lemma SplitUnitTabFree(unit: String)
    requires '\t' !in unit && SplitUnit(unit).Success?
    ensures '\t' !in SplitUnit(unit).value.0 && '\t' !in SplitUnit(unit).value.1
  {
    var s := Strip(unit);
    StripSetChars(unit, Whitespace);
    SplitChars(s, ' ');
    var parts := Split(s, ' ');
    StripSetChars(parts[1], {'"'});
  }

  /** The requoted column of a tab-free dictionary holds no tab. */
  lemma RequoteTabFree(info: Info)
    requires info.Valid() && TabFree(info)
    ensures '\t' !in Requote(info)
  {
    JoinAvoids(QuotedUnits(info), "; ", '\t');
  }

  /** The last tab-separated column of a stripped line, where GTF keeps the attributes. */
  function AttributeColumn(line: String): String {
    var cols := Columns(line);
    cols[|cols| - 1]
  }

  /**
   * A rewritten line splits at its tabs into the columns of the stripped input line,
   * the last one replaced by the requoted attribute dictionary: the other columns
   * pass through unchanged.
   */
  lemma FixLineColumns(line: String)
    requires FixLine(line).Success?
    ensures InfoOf(AttributeColumn(line)).Success?
    ensures var cols := Columns(line);
      Split(FixLine(line).value, '\t') == cols[|cols| - 1 := Requote(InfoOf(AttributeColumn(line)).value)]
  {
    var cols := Columns(line);
    var column := AttributeColumn(line);
    var info := InfoOf(column).value;
    InfoTabFree(column);
    RequoteTabFree(info);
    SplitReplacedLast(cols, Requote(info));
  }

  /** Replacing the last of some tab-free columns by tab-free text, the tab join splits back into the new columns. */
  lemma SplitReplacedLast(cols: seq<String>, x: String)
    requires |cols| >= 1 && '\t' !in x && forall i :: 0 <= i < |cols| ==> '\t' !in cols[i]
    ensures Split(Join(cols[|cols| - 1 := x], "\t"), '\t') == cols[|cols| - 1 := x]
  {
    SplitJoin(cols[|cols| - 1 := x], '\t');
  }

  /**
   * One line of `fix_gtf`: a `#` line is kept, stripped, among the header lines; any
   * other line is rewritten onto the annotation lines, or ends the pass with its error.
   */
  function FixStep(done: FixedGtf, line: String): Result<FixedGtf, FixError> {
    if "#" <= line then Success(done.(headerLines := done.headerLines + [Strip(line)]))
    else
      var fixedLine :- FixLine(line);
      Success(done.(annotationLines := done.annotationLines + [fixedLine]))
  }

  /** `fix_gtf` on a whole file, one line after another; the first malformed unit ends it with its error. */
  function FixSpec(lines: seq<String>): Result<FixedGtf, FixError> {
    if lines == [] then Success(FixedGtf([], []))
    else
      var done :- FixSpec(lines[..|lines| - 1]);
      FixStep(done, lines[|lines| - 1])
  }

  /** The header lines of a file, stripped, in order. */
  function StrippedHeaders(lines: seq<String>): (r: seq<String>)
    ensures |r| <= |lines|
  {
    if lines == [] then []
    else StrippedHeaders(lines[..|lines| - 1]) + if "#" <= lines[|lines| - 1] then [Strip(lines[|lines| - 1])] else []
  }

  /**
   * Every line goes to exactly one side: a `#` line, stripped, to the header lines and
   * any other line to the annotation lines; nothing else arrives on either side, and the
   * two sides together hold as many lines as the file.
   */
  lemma {:induction false} LinesPartition(lines: seq<String>)
    ensures forall l :: l in NonHeaders(lines) <==> l in lines && !("#" <= l)
    ensures forall l :: l in lines && "#" <= l ==> Strip(l) in StrippedHeaders(lines)
    ensures forall h :: h in StrippedHeaders(lines) ==> exists l :: l in lines && "#" <= l && h == Strip(l)
    ensures |StrippedHeaders(lines)| + |NonHeaders(lines)| == |lines|
  {
    if lines != [] {
      var init, last := lines[..|lines| - 1], lines[|lines| - 1];
      LinesPartition(init);
      assert lines == init + [last];
      forall h | h in StrippedHeaders(lines) ensures exists l :: l in lines && "#" <= l && h == Strip(l) {
        if h !in StrippedHeaders(init) {
          assert "#" <= last && h == Strip(last);
        }
      }
    }
  }

  /**
   * `fix_gtf` keeps the headers apart: its header lines are the file's header lines
   * stripped, and its annotation lines are the other lines rewritten one for one, in
   * order; it fails with the error of the first line that cannot be rewritten.
   */
  lemma {:induction false} FixSpecSeparates(lines: seq<String>)
    ensures var bodies := MapResult(NonHeaders(lines), FixLine);
      FixSpec(lines) == if bodies.Success? then Success(FixedGtf(StrippedHeaders(lines), bodies.value)) else Failure(bodies.error)
  {
    if lines != [] {
      var init, line := lines[..|lines| - 1], lines[|lines| - 1];
      FixSpecSeparates(init);
      var bodies := NonHeaders(init);
      if "#" <= line {
        assert NonHeaders(lines) == bodies;
        assert StrippedHeaders(lines) == StrippedHeaders(init) + [Strip(line)];
      } else {
        var rest := bodies + [line];
        assert NonHeaders(lines) == rest;
        assert StrippedHeaders(lines) == StrippedHeaders(init);
        assert rest[..|rest| - 1] == bodies && rest[|rest| - 1] == line;
        assert MapResult(rest, FixLine) == (
          var ys :- MapResult(bodies, FixLine);
          var y :- FixLine(line);
          Success(ys + [y]));
      }
    }
  }

  /** On success there is one annotation line per non-header line, the rewrite of that line. */
  lemma FixSpecAnnotations(lines: seq<String>)
    requires FixSpec(lines).Success?
    ensures var bodies, out := NonHeaders(lines), FixSpec(lines).value;
      && out.headerLines == StrippedHeaders(lines)
      && |out.annotationLines| == |bodies|
      && forall i :: 0 <= i < |bodies| ==> FixLine(bodies[i]) == Success(out.annotationLines[i])
  {
    FixSpecSeparates(lines);
    MapResultSuccess(NonHeaders(lines), FixLine);
  }

  /** `fix_gtf`'s attribute loop, filling the ordered dictionary unit by unit. */
  method ReadInfo(column: String) returns (r: Result<Info, FixError>)
    ensures r == InfoOf(column)
  {
    var units := AttributeUnits(column);
    var annotInfo := Empty();
    for i := 0 to |units|
      invariant MapResult(units[..i], SplitUnit).Success?
      invariant annotInfo == FromPairs(MapResult(units[..i], SplitUnit).value)
    {
      var parts := Split(Strip(units[i]), ' ');
      MapResultSnoc(units, i, SplitUnit);
      if |parts| != 2 {
        MapResultFailurePersists(units, i + 1, SplitUnit);
        return Failure(MalformedUnit(units[i]));
      }
      var infoType, infoValue := parts[0], StripChar(parts[1], '"');
      FromPairsSnoc(MapResult(units[..i], SplitUnit).value, (infoType, infoValue));
      annotInfo := annotInfo.Put(infoType, infoValue);
    }
    assert units[..|units|] == units;
    r := Success(annotInfo);
  }

  /** One annotation line: its attribute column is replaced in place by the requoted one. */
  method FixAnnotationLine(line: String) returns (r: Result<String, FixError>)
    ensures r == FixLine(line)
  {
    var annotData := Columns(line);
    var info := ReadInfo(AttributeColumn(line));
    if info.Success? {
      annotData := annotData[|annotData| - 1 := Requote(info.value)];
      r := Success(Join(annotData, "\t"));
    } else {
      r := Failure(info.error);
    }
  }

  /** Rewriting one more line is one more `FixStep`; if that step fails, the whole pass fails with its error. */
  lemma FixSpecNext(lines: seq<String>, i: nat, done: FixedGtf)
    requires i < |lines| && FixSpec(lines[..i]) == Success(done)
    ensures FixSpec(lines[..i + 1]) == FixStep(done, lines[i])
    ensures FixStep(done, lines[i]).Failure? ==> FixSpec(lines) == FixStep(done, lines[i])
  {
    assert lines[..i + 1][..i] == lines[..i];
    if FixStep(done, lines[i]).Failure? {
      FixSpecFailurePersists(lines, i + 1);
    }
  }

  lemma {:induction false} FixSpecFailurePersists(lines: seq<String>, n: nat)
    requires n <= |lines| && FixSpec(lines[..n]).Failure?
    ensures FixSpec(lines) == FixSpec(lines[..n])
    decreases |lines| - n
  {
    if n < |lines| {
      assert lines[..n + 1][..n] == lines[..n];
      FixSpecFailurePersists(lines, n + 1);
    } else {
      assert lines[..n] == lines;
    }
  }

  /** `fix_gtf`: header lines and rewritten annotation lines, collected in one pass over the file. */
  method FixGtf(lines: seq<String>) returns (r: Result<FixedGtf, FixError>)
    ensures r == FixSpec(lines)
  {
    var headerLines: seq<String> := [];
    var annotationLines: seq<String> := [];
    for i := 0 to |lines|
      invariant FixSpec(lines[..i]) == Success(FixedGtf(headerLines, annotationLines))
    {
      var line := lines[i];
      FixSpecNext(lines, i, FixedGtf(headerLines, annotationLines));
      if "#" <= line {
        headerLines := headerLines + [Strip(line)];
        continue;
      }
      var fixedLine := FixAnnotationLine(line);
      if fixedLine.Failure? {
        return Failure(fixedLine.error);
      }
      annotationLines := annotationLines + [fixedLine.value];
    }
    assert lines[..|lines|] == lines;
    r := Success(FixedGtf(headerLines, annotationLines));
  }
}

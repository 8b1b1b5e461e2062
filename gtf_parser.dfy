/**
 * `parse_gtf` of `make_beds.py`: reads annotation lines in file order into an
 * insertion-ordered dictionary `gene_id -> Gene`. `Step` and `ParseSpec` give the
 * meaning of one line and of a whole file on model values; `ParseGtf` is the loop
 * over the lines, proved to agree with them.
 */
module GtfParser {
  import opened Wrappers
  import opened Text
  import opened OrderedMaps
  import opened Annotation
  import opened GtfLines

  /** The exceptions `parse_gtf` can raise, each naming what was missing or malformed. */
  datatype ParseError =
    | MalformedAttribute(unit: String)       // ValueError: the unit has no space to split on
    | MissingAttribute(key: String)          // KeyError: the attribute column lacks the key
    | MissingColumn(index: nat)              // IndexError: the line has too few columns
    | NotAnInteger(text: String)             // ValueError: a coordinate column is not a number
    | MissingGene(geneId: String)            // KeyError: no gene with this id was declared yet
    | MissingTranscript(transcriptId: String) // KeyError: the gene has no transcript with this id yet

  type Attributes = OrderedMap<String, String>
  type Model = OrderedMap<String, GeneValue>

  /**
   * One attribute unit, `info.strip().split(" ", 1)` unpacked into key and value:
   * the key is the text before the first space, the value the rest with its
   * surrounding double quotes removed. A unit without a space is an error.
   */
  function ParseUnit(unit: String): (r: Result<(String, String), ParseError>)
    ensures r.Success? <==> ' ' in Strip(unit)
    ensures r.Failure? ==> r.error == MalformedAttribute(unit)
  {
    var parts := SplitOnce(Strip(unit), ' ');
    if |parts| != 2 then Failure(MalformedAttribute(unit))
    else Success((parts[0], StripChar(parts[1], '"')))
  }

  /**
   * A unit with a space splits at its first space: the key is the text before it and
   * contains no space, the value is the rest with its surrounding double quotes removed.
   */
  lemma ParseUnitSplitsAtFirstSpace(unit: String)
    requires ' ' in Strip(unit)
    ensures var (k, v) := ParseUnit(unit).value; var s := Strip(unit);
      && ' ' !in k && |k| < |s| && s[..|k| + 1] == k + " "
      && v == StripChar(s[|k| + 1..], '"')
  {
    var s := Strip(unit);
    var parts := SplitOnce(s, ' ');
    assert s[..|parts[0]| + 1] == parts[0] + " ";
    assert s[|parts[0]| + 1..] == parts[1];
  }

  /** The key/value pairs of all units, or the error of the first malformed one. */
  function UnitPairs(units: seq<String>): Result<seq<(String, String)>, ParseError> {
    MapResult(units, ParseUnit)
  }

  /** The attribute dictionary of a column; a repeated key takes the later value. */
  function AttributesOf(column: String): Result<Attributes, ParseError> {
    var pairs :- UnitPairs(AttributeUnits(column));
    Success(FromPairs(pairs))
  }

  /** Attribute parsing fails exactly when some unit, once trimmed, has no space. */
  lemma AttributesFailIff(column: String)
    ensures var units := AttributeUnits(column);
      AttributesOf(column).Failure? <==> exists i :: 0 <= i < |units| && ' ' !in Strip(units[i])
  {
    MapResultSuccess(AttributeUnits(column), ParseUnit);
  }

  /** The error reported is the one of the first unit without a space. */
  lemma AttributesFirstError(column: String, i: nat)
    requires var units := AttributeUnits(column);
      i < |units| && ' ' !in Strip(units[i]) && forall j :: 0 <= j < i ==> ' ' in Strip(units[j])
    ensures AttributesOf(column) == Failure(MalformedAttribute(AttributeUnits(column)[i]))
  {
    MapResultFirstFailure(AttributeUnits(column), i, ParseUnit);
  }

  /**
   * On success every unit's key is in the dictionary, and it maps to the value of the
   * last unit with that key: a repeated key takes the later value.
   */
  lemma AttributesLastWins(column: String, i: nat)
    requires AttributesOf(column).Success? && i < |AttributeUnits(column)|
    ensures var units := AttributeUnits(column);
      && ParseUnit(units[i]).Success?
      && var (k, v) := ParseUnit(units[i]).value;
      && k in AttributesOf(column).value.entries
      && ((forall j :: i < j < |units| ==> ParseUnit(units[j]).Success? && ParseUnit(units[j]).value.0 != k) ==>
            AttributesOf(column).value.entries[k] == v)
  {
    var units := AttributeUnits(column);
    MapResultSuccess(units, ParseUnit);
    var ps := UnitPairs(units).value;
    FromPairsLastWins(ps);
    assert ParseUnit(units[i]) == Success(ps[i]);
    if forall j :: i < j < |units| ==> ParseUnit(units[j]).Success? && ParseUnit(units[j]).value.0 != ps[i].0 {
      assert LastOccurrence(ps, i) by {
        forall j | i < j < |ps| ensures ps[j].0 != ps[i].0 {
          assert ParseUnit(units[j]) == Success(ps[j]);
        }
      }
    }
  }

  /** `parse_gtf`'s attribute loop, filling the dictionary unit by unit. */
  method ParseAttributes(column: String) returns (r: Result<Attributes, ParseError>)
    ensures r == AttributesOf(column)
  {
    var units := AttributeUnits(column);
    var annotInfo := Empty();
    var i := 0;
    while i < |units|
      invariant 0 <= i <= |units|
      invariant UnitPairs(units[..i]).Success?
      invariant annotInfo == FromPairs(UnitPairs(units[..i]).value)
    {
      var parts := SplitOnce(Strip(units[i]), ' ');
      MapResultSnoc(units, i, ParseUnit);
      if |parts| != 2 {
        MapResultFailurePersists(units, i + 1, ParseUnit);
        return Failure(MalformedAttribute(units[i]));
      }
      var infoType, infoValue := parts[0], StripChar(parts[1], '"');
      FromPairsSnoc(UnitPairs(units[..i]).value, (infoType, infoValue));
      annotInfo := annotInfo.Put(infoType, infoValue);
      i := i + 1;
    }
    assert units[..i] == units;
    r := Success(annotInfo);
  }

  function Lookup(attrs: Attributes, key: String): (r: Result<String, ParseError>)
    ensures r.Success? <==> key in attrs.entries
    ensures r.Success? ==> r.value == attrs.entries[key]
    ensures r.Failure? ==> r.error == MissingAttribute(key)
  {
    if key in attrs.entries then Success(attrs.entries[key]) else Failure(MissingAttribute(key))
  }

  function Column(cols: seq<String>, index: nat): (r: Result<String, ParseError>)
    ensures r.Success? <==> index < |cols|
    ensures r.Success? ==> r.value == cols[index]
    ensures r.Failure? ==> r.error == MissingColumn(index)
  {
    if index < |cols| then Success(cols[index]) else Failure(MissingColumn(index))
  }

  function ToInt(text: String): (r: Result<int, ParseError>)
    ensures r.Success? <==> ParseInt(text).Some?
    ensures r.Success? ==> Some(r.value) == ParseInt(text)
    ensures r.Failure? ==> r.error == NotAnInteger(text)
  {
    match ParseInt(text)
    case None => Failure(NotAnInteger(text))
    case Some(n) => Success(n)
  }

  /** The model is well formed: every gene's and transcript's key order lists its keys once. */
  ghost predicate ModelValid(m: Model) {
    m.Valid() && forall k :: k in m.entries ==> m.entries[k].transcripts.Valid()
  }

  /**
   * A `gene` line: builds a gene with no transcripts from the line and stores it
   * under its `gene_id`, replacing any earlier gene with that id in its old position.
   */
  function GeneStep(m: Model, cols: seq<String>, attrs: Attributes): Result<Model, ParseError>
    requires |cols| >= 3
  {
    var g :- GeneFields(cols, attrs);
    Success(m.Put(g.id, g))
  }

  /**
   * The gene a `gene` line describes, its fields read in the order `Gene(...)` is
   * called with them: `gene_id`, columns 3 and 4, `gene_type`, then the two integers.
   */
  function GeneFields(cols: seq<String>, attrs: Attributes): (r: Result<GeneValue, ParseError>)
    requires |cols| >= 3
    ensures r.Success? <==>
      "gene_id" in attrs.entries && "gene_type" in attrs.entries && |cols| >= 5 && ParseInt(cols[3]).Some? && ParseInt(cols[4]).Some?
    ensures r.Success? ==> r.value == GeneValue(attrs.entries["gene_id"],
      cols[0], ParseInt(cols[3]).value, ParseInt(cols[4]).value, attrs.entries["gene_type"], Empty())
    ensures "gene_id" !in attrs.entries ==> r == Failure(MissingAttribute("gene_id"))
    ensures "gene_id" in attrs.entries && |cols| < 4 ==> r == Failure(MissingColumn(3))
    ensures "gene_id" in attrs.entries && |cols| == 4 ==> r == Failure(MissingColumn(4))
    ensures "gene_id" in attrs.entries && |cols| >= 5 && "gene_type" !in attrs.entries ==>
      r == Failure(MissingAttribute("gene_type"))
    ensures "gene_id" in attrs.entries && |cols| >= 5 && "gene_type" in attrs.entries && ParseInt(cols[3]).None? ==>
      r == Failure(NotAnInteger(cols[3]))
    ensures ("gene_id" in attrs.entries && |cols| >= 5 && "gene_type" in attrs.entries && ParseInt(cols[3]).Some? &&
      ParseInt(cols[4]).None?) ==>
      r == Failure(NotAnInteger(cols[4]))
  {
    var geneId :- Lookup(attrs, "gene_id");
    var startText :- Column(cols, 3);
    var endText :- Column(cols, 4);
    var geneType :- Lookup(attrs, "gene_type");
    var start :- ToInt(startText);
    var end :- ToInt(endText);
    Success(GeneValue(geneId, cols[0], start, end, geneType, Empty()))
  }

  /**
   * A `transcript` line: builds a transcript with no exons or UTRs and stores it in
   * its gene under its `transcript_id`. The gene must already be in the model.
   */
  function TranscriptStep(m: Model, cols: seq<String>, attrs: Attributes): Result<Model, ParseError>
    requires |cols| >= 3
  {
    var (geneId, t) :- TranscriptFields(cols, attrs);
    if geneId !in m.entries then Failure(MissingGene(geneId))
    else
      var g := m.entries[geneId];
      Success(m.Put(geneId, g.(transcripts := g.transcripts.Put(t.id, t))))
  }

  /**
   * The transcript a `transcript` line describes and the `gene_id` it names, read in
   * the order `parse_gtf` reads them: `transcript_id`, columns 3, 4 and 6, the two
   * integers, then `gene_id`.
   */
  function TranscriptFields(cols: seq<String>, attrs: Attributes): (r: Result<(String, TranscriptValue), ParseError>)
    requires |cols| >= 3
    ensures r.Success? <==>
      "transcript_id" in attrs.entries && "gene_id" in attrs.entries && |cols| >= 7 && ParseInt(cols[3]).Some? && ParseInt(cols[4]).Some?
    ensures r.Success? ==> r.value == (attrs.entries["gene_id"],
      TranscriptValue(attrs.entries["transcript_id"], cols[0], ParseInt(cols[3]).value, ParseInt(cols[4]).value, cols[6] == "+", [], []))
    ensures "transcript_id" !in attrs.entries ==> r == Failure(MissingAttribute("transcript_id"))
    ensures "transcript_id" in attrs.entries && |cols| < 4 ==> r == Failure(MissingColumn(3))
    ensures "transcript_id" in attrs.entries && |cols| == 4 ==> r == Failure(MissingColumn(4))
    ensures "transcript_id" in attrs.entries && 5 <= |cols| < 7 ==> r == Failure(MissingColumn(6))
    ensures "transcript_id" in attrs.entries && |cols| >= 7 && ParseInt(cols[3]).None? ==>
      r == Failure(NotAnInteger(cols[3]))
    ensures "transcript_id" in attrs.entries && |cols| >= 7 && ParseInt(cols[3]).Some? && ParseInt(cols[4]).None? ==>
      r == Failure(NotAnInteger(cols[4]))
    ensures ("transcript_id" in attrs.entries && |cols| >= 7 && ParseInt(cols[3]).Some? && ParseInt(cols[4]).Some? &&
      "gene_id" !in attrs.entries) ==>
      r == Failure(MissingAttribute("gene_id"))
  {
    var transId :- Lookup(attrs, "transcript_id");
    var startText :- Column(cols, 3);
    var endText :- Column(cols, 4);
    var strand :- Column(cols, 6);
    var start :- ToInt(startText);
    var end :- ToInt(endText);
    var geneId :- Lookup(attrs, "gene_id");
    Success((geneId, TranscriptValue(transId, cols[0], start, end, strand == "+", [], [])))
  }

  /**
   * The parents an `exon` or `UTR` line names, looked up in the order `parse_gtf`
   * looks them up: the gene by `gene_id`, then its transcript by `transcript_id`.
   */
  function FindParents(m: Model, attrs: Attributes): (r: Result<(String, String), ParseError>)
    ensures r.Success? <==>
      && "gene_id" in attrs.entries && attrs.entries["gene_id"] in m.entries
      && "transcript_id" in attrs.entries && attrs.entries["transcript_id"] in m.entries[attrs.entries["gene_id"]].transcripts.entries
    ensures r.Success? ==>
      && "gene_id" in attrs.entries && "transcript_id" in attrs.entries
      && r.value == (attrs.entries["gene_id"], attrs.entries["transcript_id"])
      && r.value.0 in m.entries && r.value.1 in m.entries[r.value.0].transcripts.entries
    ensures "gene_id" !in attrs.entries ==> r == Failure(MissingAttribute("gene_id"))
    ensures "gene_id" in attrs.entries && attrs.entries["gene_id"] !in m.entries ==>
      r == Failure(MissingGene(attrs.entries["gene_id"]))
    ensures "gene_id" in attrs.entries && attrs.entries["gene_id"] in m.entries && "transcript_id" !in attrs.entries ==>
      r == Failure(MissingAttribute("transcript_id"))
    ensures ("gene_id" in attrs.entries && attrs.entries["gene_id"] in m.entries && "transcript_id" in attrs.entries &&
      attrs.entries["transcript_id"] !in m.entries[attrs.entries["gene_id"]].transcripts.entries) ==>
      r == Failure(MissingTranscript(attrs.entries["transcript_id"]))
  {
    var geneId :- Lookup(attrs, "gene_id");
    if geneId !in m.entries then Failure(MissingGene(geneId))
    else
      var transId :- Lookup(attrs, "transcript_id");
      if transId !in m.entries[geneId].transcripts.entries then Failure(MissingTranscript(transId))
      else Success((geneId, transId))
  }

  /** The coordinates of columns 3 and 4 of an `exon` or `UTR` line. */
  function Coordinates(cols: seq<String>): (r: Result<Span, ParseError>)
    ensures r.Success? <==> |cols| >= 5 && ParseInt(cols[3]).Some? && ParseInt(cols[4]).Some?
    ensures r.Success? ==> ParseInt(cols[3]) == Some(r.value.start) && ParseInt(cols[4]) == Some(r.value.end)
    ensures |cols| < 4 ==> r == Failure(MissingColumn(3))
    ensures |cols| == 4 ==> r == Failure(MissingColumn(4))
    ensures |cols| >= 5 && ParseInt(cols[3]).None? ==> r == Failure(NotAnInteger(cols[3]))
    ensures |cols| >= 5 && ParseInt(cols[3]).Some? && ParseInt(cols[4]).None? ==> r == Failure(NotAnInteger(cols[4]))
  {
    var startText :- Column(cols, 3);
    var endText :- Column(cols, 4);
    var start :- ToInt(startText);
    var end :- ToInt(endText);
    Success(Span(start, end))
  }

  /** The model with one transcript replaced by `t`, everything else as it was. */
  function ReplaceTranscript(m: Model, geneId: String, transId: String, t: TranscriptValue): Model
    requires geneId in m.entries
  {
    var g := m.entries[geneId];
    m.Put(geneId, g.(transcripts := g.transcripts.Put(transId, t)))
  }

  /** An `exon` line: inserts the span into its transcript by the strand rule. */
  function ExonStep(m: Model, cols: seq<String>, attrs: Attributes): Result<Model, ParseError>
  {
    var (geneId, transId) :- FindParents(m, attrs);
    var span :- Coordinates(cols);
    var t := m.entries[geneId].transcripts.entries[transId];
    Success(ReplaceTranscript(m, geneId, transId, t.(exons := InsertExon(t.isForward, t.exons, span))))
  }

  /** A `UTR` line: appends the span to its transcript's UTRs. */
  function UtrStep(m: Model, cols: seq<String>, attrs: Attributes): Result<Model, ParseError>
  {
    var (geneId, transId) :- FindParents(m, attrs);
    var span :- Coordinates(cols);
    var t := m.entries[geneId].transcripts.entries[transId];
    Success(ReplaceTranscript(m, geneId, transId, t.(utrs := t.utrs + [span])))
  }

  /**
   * One line of `parse_gtf`: a header line changes nothing; otherwise the attribute
   * column is parsed and the line is dispatched on its feature column; a feature other
   * than `gene`, `transcript`, `exon` and `UTR` changes nothing.
   */
  function Step(m: Model, line: String): Result<Model, ParseError> {
    if "#" <= line then Success(m) else LineStep(m, Columns(line))
  }

  /** A non-header line cut into its columns: the attribute column is parsed, then the line is dispatched. */
  function LineStep(m: Model, annotData: seq<String>): Result<Model, ParseError>
    requires |annotData| > 0
  {
    var annotInfo :- AttributesOf(annotData[|annotData| - 1]);
    Dispatch(m, annotData, annotInfo)
  }

  /** A non-header line with its columns and attributes, dispatched on its feature column. */
  function Dispatch(m: Model, cols: seq<String>, attrs: Attributes): Result<Model, ParseError> {
    var feature :- Column(cols, 2);
    if feature == "gene" then GeneStep(m, cols, attrs)
    else if feature == "transcript" then TranscriptStep(m, cols, attrs)
    else if feature == "exon" then ExonStep(m, cols, attrs)
    else if feature == "UTR" then UtrStep(m, cols, attrs)
    else Success(m)
  }

  /** The model after all lines, or the first error. */
  function ParseSpec(lines: seq<String>): Result<Model, ParseError> {
    if lines == [] then Success(Empty())
    else
      var m :- ParseSpec(lines[..|lines| - 1]);
      Step(m, lines[|lines| - 1])
  }

  /** Once a prefix of the file fails, the whole file fails with the same error. */
  lemma {:induction false} ParseSpecFailurePersists(lines: seq<String>, n: nat)
    requires n <= |lines| && ParseSpec(lines[..n]).Failure?
    ensures ParseSpec(lines) == ParseSpec(lines[..n])
    decreases |lines| - n
  {
    if n < |lines| {
      assert lines[..n + 1][..n] == lines[..n];
      ParseSpecFailurePersists(lines, n + 1);
    } else {
      assert lines[..n] == lines;
    }
  }

  /**
   * One pass of the loop body of `parse_gtf`: skip a header, parse the attribute
   * column, then dispatch on the feature column.
   */
  method ParseLine(genes: Model, line: String) returns (next: Result<Model, ParseError>)
    ensures next == Step(genes, line)
  {
    if "#" <= line {
      return Success(genes);
    }
    var annotData := Columns(line);
    var annotInfo := ParseAttributes(annotData[|annotData| - 1]);
    if annotInfo.Failure? {
      return Failure(annotInfo.error);
    }
    if |annotData| < 3 {
      next := Failure(MissingColumn(2));
    } else if annotData[2] == "gene" {
      next := GeneStep(genes, annotData, annotInfo.value);
    } else if annotData[2] == "transcript" {
      next := TranscriptStep(genes, annotData, annotInfo.value);
    } else if annotData[2] == "exon" {
      next := ExonStep(genes, annotData, annotInfo.value);
    } else if annotData[2] == "UTR" {
      next := UtrStep(genes, annotData, annotInfo.value);
    } else {
      next := Success(genes);
    }
  }

  /**
   * `parse_gtf`: the loop over the lines of the file, skipping headers, parsing the
   * attribute column and dispatching on the feature column. It returns the genes, or
   * the error of the first line that raises.
   */
  method ParseGtf(lines: seq<String>) returns (r: Result<Model, ParseError>)
    ensures r == ParseSpec(lines)
  {
    var genes: Model := Empty();
    for i := 0 to |lines|
      invariant ParseSpec(lines[..i]) == Success(genes)
    {
      var next := ParseLine(genes, lines[i]);
      ParseSpecNext(lines, i, genes);
      if next.Failure? {
        return next;
      }
      genes := next.value;
    }
    assert lines[..|lines|] == lines;
    r := Success(genes);
  }

  /** The next line moves the model by `Step`; an error there is the error of the whole file. */
  lemma ParseSpecNext(lines: seq<String>, i: nat, m: Model)
    requires i < |lines| && ParseSpec(lines[..i]) == Success(m)
    ensures ParseSpec(lines[..i + 1]) == Step(m, lines[i])
    ensures Step(m, lines[i]).Failure? ==> ParseSpec(lines) == Step(m, lines[i])
  {
    assert lines[..i + 1][..i] == lines[..i];
    if Step(m, lines[i]).Failure? {
      ParseSpecFailurePersists(lines, i + 1);
    }
  }

  /** A line keeps the model well formed; genes keep their order and at most one is appended. */
  lemma StepValid(m: Model, line: String)
    requires ModelValid(m)
    ensures KeptValid(m, Step(m, line))
  {
    if !("#" <= line) {
      LineStepValid(m, Columns(line));
    }
  }

  /** The same for a non-header line, whatever its attribute column gave. */
  lemma LineStepValid(m: Model, cols: seq<String>)
    requires |cols| > 0 && ModelValid(m)
    ensures KeptValid(m, LineStep(m, cols))
  {
    var attrs := AttributesOf(cols[|cols| - 1]);
    if attrs.Success? {
      DispatchValid(m, cols, attrs.value);
    }
  }

  /**
   * After a successful step the model is well formed, the old gene order is a prefix
   * of the new one, and at most one gene was added.
   */
  ghost predicate KeptValid(m: Model, r: Result<Model, ParseError>) {
    r.Success? ==> ModelValid(r.value) && m.keys <= r.value.keys && |r.value.keys| <= |m.keys| + 1
  }

  /** `Dispatch` keeps the model well formed; genes keep their order and at most one is appended. */
  lemma DispatchValid(m: Model, cols: seq<String>, attrs: Attributes)
    requires ModelValid(m)
    ensures KeptValid(m, Dispatch(m, cols, attrs))
  {
    if |cols| > 2 {
      if cols[2] == "gene" {
        GeneStepSpec(m, cols, attrs);
      } else if cols[2] == "transcript" {
        TranscriptStepValid(m, cols, attrs);
      } else if cols[2] == "exon" {
        ReplaceTranscriptValid(m, ExonStep(m, cols, attrs));
      } else if cols[2] == "UTR" {
        ReplaceTranscriptValid(m, UtrStep(m, cols, attrs));
      }
    }
  }

  /**
   * A line with too few columns has no feature and fails; a feature other than `gene`,
   * `transcript`, `exon` and `UTR` leaves the model as it was.
   */
  lemma DispatchOtherFeatures(m: Model, cols: seq<String>, attrs: Attributes)
    ensures |cols| < 3 ==> Dispatch(m, cols, attrs) == Failure(MissingColumn(2))
    ensures |cols| >= 3 && cols[2] != "gene" && cols[2] != "transcript" && cols[2] != "exon" && cols[2] != "UTR" ==>
      Dispatch(m, cols, attrs) == Success(m)
  {
  }

  /** An `exon` or `UTR` step only replaces a transcript, so the model stays well formed with the same gene order. */
  lemma ReplaceTranscriptValid(m: Model, r: Result<Model, ParseError>)
    requires ModelValid(m)
    requires r.Success? ==> exists g, t, v :: g in m.entries && r.value == ReplaceTranscript(m, g, t, v)
    ensures r.Success? ==> ModelValid(r.value) && r.value.keys == m.keys && r.value.entries.Keys == m.entries.Keys
  {
  }

  /** The model after any number of lines is well formed. */
  lemma {:induction false} ParseSpecValid(lines: seq<String>)
    ensures ParseSpec(lines).Success? ==> ModelValid(ParseSpec(lines).value)
  {
    if lines != [] {
      ParseSpecValid(lines[..|lines| - 1]);
      if ParseSpec(lines[..|lines| - 1]).Success? {
        StepValid(ParseSpec(lines[..|lines| - 1]).value, lines[|lines| - 1]);
      }
    }
  }

  /** What a `gene` line does to the model. */
  lemma GeneStepSpec(m: Model, cols: seq<String>, attrs: Attributes)
    requires |cols| >= 3
    ensures GeneStep(m, cols, attrs).Success? <==>
      "gene_id" in attrs.entries && "gene_type" in attrs.entries && |cols| >= 5 && ParseInt(cols[3]).Some? && ParseInt(cols[4]).Some?
    ensures var r := GeneStep(m, cols, attrs);
      r.Success? ==>
      && "gene_id" in attrs.entries && "gene_type" in attrs.entries && |cols| >= 5
      && var gid := attrs.entries["gene_id"];
      && r.value.entries.Keys == m.entries.Keys + {gid}
      && r.value.entries[gid].id == gid && r.value.entries[gid].chrom == cols[0]
      && Some(r.value.entries[gid].start) == ParseInt(cols[3]) && Some(r.value.entries[gid].end) == ParseInt(cols[4])
      && r.value.entries[gid].geneType == attrs.entries["gene_type"]
      && r.value.entries[gid].transcripts == Empty()
      && (forall k :: k in m.entries && k != gid ==> k in r.value.entries && r.value.entries[k] == m.entries[k])
      && (ModelValid(m) ==> ModelValid(r.value) && r.value.keys == if gid in m.entries then m.keys else m.keys + [gid])
  {
  }

  /** What a `transcript` line does to the model; it fails when its gene is not there. */
  lemma TranscriptStepSpec(m: Model, cols: seq<String>, attrs: Attributes)
    requires |cols| >= 3
    ensures var r := TranscriptStep(m, cols, attrs);
      "gene_id" in attrs.entries && attrs.entries["gene_id"] !in m.entries ==> r.Failure?
    ensures TranscriptFields(cols, attrs).Success? && attrs.entries["gene_id"] !in m.entries ==>
      TranscriptStep(m, cols, attrs) == Failure(MissingGene(attrs.entries["gene_id"]))
    ensures TranscriptStep(m, cols, attrs).Success? <==>
      && "transcript_id" in attrs.entries && "gene_id" in attrs.entries && |cols| >= 7
      && ParseInt(cols[3]).Some? && ParseInt(cols[4]).Some? && attrs.entries["gene_id"] in m.entries
    ensures var r := TranscriptStep(m, cols, attrs);
      r.Success? ==>
      && "transcript_id" in attrs.entries && "gene_id" in attrs.entries && |cols| >= 7
      && ParseInt(cols[3]).Some? && ParseInt(cols[4]).Some?
      && var gid, tid := attrs.entries["gene_id"], attrs.entries["transcript_id"];
      && var t := TranscriptValue(tid, cols[0], ParseInt(cols[3]).value, ParseInt(cols[4]).value, cols[6] == "+", [], []);
      && gid in m.entries && r.value.entries.Keys == m.entries.Keys
      && var g, g' := m.entries[gid], r.value.entries[gid];
      && g'.id == g.id && g'.chrom == g.chrom && g'.start == g.start && g'.end == g.end && g'.geneType == g.geneType
      && g'.transcripts == g.transcripts.Put(tid, t)
      && tid in g'.transcripts.entries && g'.transcripts.entries[tid] == t
      && (forall k :: k in g.transcripts.entries && k != tid ==> k in g'.transcripts.entries && g'.transcripts.entries[k] == g.transcripts.entries[k])
      && (forall k :: k in m.entries && k != gid ==> k in r.value.entries && r.value.entries[k] == m.entries[k])
  {
  }

  /**
   * A `transcript` line keeps a well-formed model well formed and keeps the gene order;
   * a new transcript id goes last in its gene, a known one keeps its place.
   */
  lemma TranscriptStepValid(m: Model, cols: seq<String>, attrs: Attributes)
    requires |cols| >= 3 && ModelValid(m)
    ensures var r := TranscriptStep(m, cols, attrs);
      r.Success? ==>
      && ModelValid(r.value) && r.value.keys == m.keys
      && "transcript_id" in attrs.entries && "gene_id" in attrs.entries
      && var gid, tid := attrs.entries["gene_id"], attrs.entries["transcript_id"];
      && gid in m.entries && gid in r.value.entries
      && var g, g' := m.entries[gid], r.value.entries[gid];
      && g'.transcripts.keys == if tid in g.transcripts.entries then g.transcripts.keys else g.transcripts.keys + [tid]
  {
  }

  /** What the attribute column of a `gene` line names as its `gene_id`, if the line is one. */
  function GeneLineId(line: String): Option<String> {
    if "#" <= line then None else LineGeneId(Columns(line))
  }

  /** The same for a non-header line cut into its columns. */
  function LineGeneId(cols: seq<String>): Option<String>
    requires |cols| > 0
  {
    match AttributesOf(cols[|cols| - 1])
    case Failure(_) => None
    case Success(attrs) => GeneIdOf(cols, attrs)
  }

  /** The `gene_id` of a line with columns `cols` and attributes `attrs`, if it is a `gene` line. */
  function GeneIdOf(cols: seq<String>, attrs: Attributes): Option<String> {
    if |cols| >= 3 && cols[2] == "gene" && "gene_id" in attrs.entries then Some(attrs.entries["gene_id"]) else None
  }

  /** The `gene_id`s of the `gene` lines, in file order, repeats included. */
  function GeneLineIds(lines: seq<String>): seq<String> {
    if lines == [] then []
    else
      GeneLineIds(lines[..|lines| - 1]) +
        match GeneLineId(lines[|lines| - 1]) case Some(g) => [g] case None => []
  }

  /**
   * A `gene` line adds its id to the genes (appending it unless it is there already);
   * any other line keeps the set and the order of the genes.
   */
  lemma StepKeys(m: Model, line: String)
    requires ModelValid(m) && Step(m, line).Success?
    ensures KeysAfter(m, Step(m, line).value, GeneLineId(line))
  {
    if !("#" <= line) {
      LineStepKeys(m, Columns(line));
    }
  }

  /** The same for a non-header line cut into its columns. */
  lemma LineStepKeys(m: Model, cols: seq<String>)
    requires |cols| > 0 && ModelValid(m) && LineStep(m, cols).Success?
    ensures KeysAfter(m, LineStep(m, cols).value, LineGeneId(cols))
  {
    var attrs := AttributesOf(cols[|cols| - 1]);
    assert attrs.Success? && LineStep(m, cols) == Dispatch(m, cols, attrs.value);
    DispatchKeys(m, cols, attrs.value);
  }

  /**
   * The genes after a line with gene id `id`: a `gene` line adds its id, appended unless
   * it is there already; any other line keeps the set and the order of the genes.
   */
  ghost predicate KeysAfter(m: Model, r: Model, id: Option<String>) {
    match id
    case Some(g) =>
      r.entries.Keys == m.entries.Keys + {g} && r.keys == if g in m.entries then m.keys else m.keys + [g]
    case None =>
      r.entries.Keys == m.entries.Keys && r.keys == m.keys
  }

  /** `Dispatch` adds the id of a `gene` line to the genes; any other feature keeps them. */
  lemma DispatchKeys(m: Model, cols: seq<String>, attrs: Attributes)
    requires ModelValid(m) && Dispatch(m, cols, attrs).Success?
    ensures KeysAfter(m, Dispatch(m, cols, attrs).value, GeneIdOf(cols, attrs))
  {
    if cols[2] == "gene" {
      GeneStepSpec(m, cols, attrs);
    } else if cols[2] == "transcript" {
      TranscriptStepValid(m, cols, attrs);
    } else if cols[2] == "exon" {
      ReplaceTranscriptValid(m, ExonStep(m, cols, attrs));
    } else if cols[2] == "UTR" {
      ReplaceTranscriptValid(m, UtrStep(m, cols, attrs));
    }
  }

  /**
   * The genes of a parsed file are exactly the ids of its `gene` lines, in the order of
   * each id's first `gene` line: a gene declared again keeps its first position.
   */
  lemma {:induction false} ParseSpecGeneOrder(lines: seq<String>)
    ensures ParseSpec(lines).Success? ==>
      && (forall g :: g in ParseSpec(lines).value.entries <==> g in GeneLineIds(lines))
      && InFirstOccurrenceOrder(ParseSpec(lines).value.keys, GeneLineIds(lines))
  {
    if lines != [] && ParseSpec(lines).Success? {
      var init, line := lines[..|lines| - 1], lines[|lines| - 1];
      ParseSpecGeneOrder(init);
      ParseSpecValid(init);
      var m := ParseSpec(init).value;
      var ids := GeneLineIds(init);
      StepKeys(m, line);
      match GeneLineId(line)
      case Some(g) =>
        assert GeneLineIds(lines) == ids + [g];
        if g in m.entries {
          OrderAppendOld(m.keys, ids, g);
        } else {
          OrderAppendNew(m.keys, ids, g);
        }
      case None =>
        assert GeneLineIds(lines) == ids;
    }
  }

  /**
   * `r` is `m` with transcript `tid` of gene `gid` replaced by `t`: the gene order, the
   * other genes, the gene's own fields, its transcript order and its other transcripts
   * are all as they were.
   */
  ghost predicate TranscriptReplaced(m: Model, r: Model, gid: String, tid: String, t: TranscriptValue)
    requires gid in m.entries
  {
    && r.keys == m.keys && r.entries.Keys == m.entries.Keys
    && (forall k :: k in m.entries && k != gid ==> r.entries[k] == m.entries[k])
    && var g, g' := m.entries[gid], r.entries[gid];
    && g'.id == g.id && g'.chrom == g.chrom && g'.start == g.start && g'.end == g.end && g'.geneType == g.geneType
    && g'.transcripts.keys == g.transcripts.keys
    && g'.transcripts.entries == g.transcripts.entries[tid := t]
  }

  /** Replacing a transcript that exists changes exactly that transcript and keeps the model well formed. */
  lemma ReplaceTranscriptSpec(m: Model, gid: String, tid: String, t: TranscriptValue)
    requires ModelValid(m) && gid in m.entries && tid in m.entries[gid].transcripts.entries
    ensures ModelValid(ReplaceTranscript(m, gid, tid, t))
    ensures TranscriptReplaced(m, ReplaceTranscript(m, gid, tid, t), gid, tid, t)
  {
  }

  /**
   * An `exon` line fails when its gene or its transcript is missing; otherwise it
   * inserts its span into that transcript by the strand rule and changes nothing else.
   */
  lemma ExonStepSpec(m: Model, cols: seq<String>, attrs: Attributes)
    requires ModelValid(m)
    ensures "gene_id" in attrs.entries && attrs.entries["gene_id"] !in m.entries ==>
      ExonStep(m, cols, attrs) == Failure(MissingGene(attrs.entries["gene_id"]))
    ensures ("gene_id" in attrs.entries && attrs.entries["gene_id"] in m.entries && "transcript_id" in attrs.entries &&
      attrs.entries["transcript_id"] !in m.entries[attrs.entries["gene_id"]].transcripts.entries) ==>
      ExonStep(m, cols, attrs) == Failure(MissingTranscript(attrs.entries["transcript_id"]))
    ensures ExonStep(m, cols, attrs).Success? <==>
      && "gene_id" in attrs.entries && attrs.entries["gene_id"] in m.entries
      && "transcript_id" in attrs.entries && attrs.entries["transcript_id"] in m.entries[attrs.entries["gene_id"]].transcripts.entries
      && |cols| >= 5 && ParseInt(cols[3]).Some? && ParseInt(cols[4]).Some?
    ensures var r := ExonStep(m, cols, attrs);
      r.Success? ==>
      && "gene_id" in attrs.entries && "transcript_id" in attrs.entries && |cols| >= 5
      && ParseInt(cols[3]).Some? && ParseInt(cols[4]).Some?
      && var gid, tid := attrs.entries["gene_id"], attrs.entries["transcript_id"];
      && gid in m.entries && tid in m.entries[gid].transcripts.entries
      && var t := m.entries[gid].transcripts.entries[tid];
      && ModelValid(r.value)
      && TranscriptReplaced(m, r.value, gid, tid,
        t.(exons := InsertExon(t.isForward, t.exons, Span(ParseInt(cols[3]).value, ParseInt(cols[4]).value))))
  {
    var r := ExonStep(m, cols, attrs);
    if r.Success? {
      var (gid, tid) := FindParents(m, attrs).value;
      var t := m.entries[gid].transcripts.entries[tid];
      ReplaceTranscriptSpec(m, gid, tid, t.(exons := InsertExon(t.isForward, t.exons, Coordinates(cols).value)));
    }
  }

  /**
   * A `UTR` line fails when its gene or its transcript is missing; otherwise it appends
   * its span to that transcript's UTRs, whatever the strand, and changes nothing else.
   */
  lemma UtrStepSpec(m: Model, cols: seq<String>, attrs: Attributes)
    requires ModelValid(m)
    ensures "gene_id" in attrs.entries && attrs.entries["gene_id"] !in m.entries ==>
      UtrStep(m, cols, attrs) == Failure(MissingGene(attrs.entries["gene_id"]))
    ensures ("gene_id" in attrs.entries && attrs.entries["gene_id"] in m.entries && "transcript_id" in attrs.entries &&
      attrs.entries["transcript_id"] !in m.entries[attrs.entries["gene_id"]].transcripts.entries) ==>
      UtrStep(m, cols, attrs) == Failure(MissingTranscript(attrs.entries["transcript_id"]))
    ensures UtrStep(m, cols, attrs).Success? <==>
      && "gene_id" in attrs.entries && attrs.entries["gene_id"] in m.entries
      && "transcript_id" in attrs.entries && attrs.entries["transcript_id"] in m.entries[attrs.entries["gene_id"]].transcripts.entries
      && |cols| >= 5 && ParseInt(cols[3]).Some? && ParseInt(cols[4]).Some?
    ensures var r := UtrStep(m, cols, attrs);
      r.Success? ==>
      && "gene_id" in attrs.entries && "transcript_id" in attrs.entries && |cols| >= 5
      && ParseInt(cols[3]).Some? && ParseInt(cols[4]).Some?
      && var gid, tid := attrs.entries["gene_id"], attrs.entries["transcript_id"];
      && gid in m.entries && tid in m.entries[gid].transcripts.entries
      && var t := m.entries[gid].transcripts.entries[tid];
      && ModelValid(r.value)
      && TranscriptReplaced(m, r.value, gid, tid, t.(utrs := t.utrs + [Span(ParseInt(cols[3]).value, ParseInt(cols[4]).value)]))
  {
    var r := UtrStep(m, cols, attrs);
    if r.Success? {
      var (gid, tid) := FindParents(m, attrs).value;
      var t := m.entries[gid].transcripts.entries[tid];
      ReplaceTranscriptSpec(m, gid, tid, t.(utrs := t.utrs + [Coordinates(cols).value]));
    }
  }

  /** Header lines change nothing wherever they stand: parsing a file is parsing its other lines. */
  lemma {:induction false} HeadersIgnored(lines: seq<String>)
    ensures ParseSpec(lines) == ParseSpec(NonHeaders(lines))
  {
    if lines != [] {
      var init, line := lines[..|lines| - 1], lines[|lines| - 1];
      HeadersIgnored(init);
      if "#" <= line {
        assert NonHeaders(lines) == NonHeaders(init);
        assert ParseSpec(lines) == ParseSpec(init) by {
          if ParseSpec(init).Success? {
            assert Step(ParseSpec(init).value, line) == ParseSpec(init);
          }
        }
      } else {
        var rest := NonHeaders(init) + [line];
        assert NonHeaders(lines) == rest;
        assert rest[..|rest| - 1] == NonHeaders(init) && rest[|rest| - 1] == line;
      }
    }
  }
}

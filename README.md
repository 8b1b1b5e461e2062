# gtf_2_beds in Dafny

This project models the two command-line tools of gtf_2_beds.

`make_beds.py` reads a GTF gene annotation. It does three things:
- builds an insertion-ordered dictionary `gene_id -> Gene`;
- gives each gene an insertion-ordered dictionary `transcript_id -> Transcript`;
- keeps the exon and UTR spans of each transcript.

From that model it writes BED interval files: exons, introns, UTRs, gene bodies, and the gene bodies of three biotypes (rRNA, miRNA, lincRNA).

`fix_gencode_gtf.py` rewrites a GENCODE GTF file in two ways:
- it keeps the `#` header lines apart;
- it rewrites the attribute column of every other line as `key 'value'` units joined by `; `.

Modules, one per concern:

- `Wrappers` (`wrappers.dfy`): `Option` and `Result`. Python exceptions become `Failure` values. `MapResult` applies a fallible function to each element and stops at the first failure.
- `Text` (`text.dfy`): the Python string operations the tools use:
  - `strip()`, `strip(c)`;
  - `split(c)`, `split(c, 1)`;
  - `join`;
  - `lower()`;
  - `int()` and `str()` on integers.
- `OrderedMaps` (`ordered_maps.dfy`): an insertion-ordered dictionary, used for `OrderedDict` and for Python 3.7+ `dict`. A key assigned again keeps its first position and takes the new value.
- `BedRecords` (`bed_records.dfy`): `BEDRecord`. This is the only place where a 1-based GTF start becomes a 0-based BED start.
- `Annotation` (`annotation.dfy`):
  - `Transcript` and `Gene` are classes whose methods update their fields in place, as in the source;
  - `TranscriptValue` and `GeneValue` are their model values;
  - the BED records each derives (`ExonBeds`, `UtrBeds`, `IntronBeds`, `GeneBed`, `PerTranscript`).
- `GtfLines` (`gtf_lines.dfy`): how both tools cut a file into non-`#` lines, tab-separated columns and `;`-separated attribute units.
- `GtfParser` (`gtf_parser.dfy`): `parse_gtf`.
  - `Step` is one line and `ParseSpec` is the whole file, both on model values.
  - `ParseGtf` is the loop over the lines, proved equal to `ParseSpec`.
  - Lemmas state what each kind of line does to the model and when it fails.
- `BedOutputs` (`bed_outputs.dfy`): the `write_*_bed` functions. Each returns the records it would write, in order, without the file.
- `FixGencodeGtf` (`fix_gencode_gtf.dfy`): `fix_gtf`.
  - `FixSpec` is its meaning on values.
  - `FixGtf` and `ReadInfo` are its loops and `FixAnnotationLine` its in-place rewrite of one line, each proved equal to its specification.

Behaviour worth noting:
- `fix_gtf` stores header lines stripped, not verbatim (`fix_gencode_gtf.py:21`).
- `fix_gtf` requires exactly one space in each trimmed attribute unit, because it unpacks `split(" ")` into two names. `parse_gtf` only needs one space and splits at the first one (`make_beds.py:134`).
- `parse_gtf` skips header lines; it does not collect them.

## Model

| member | source | states |
|---|---|---|
| BedRecords.NewBed | make_beds.py:8-14 | the stored start is the given 1-based start minus one; chromosome, end and info are kept |
| BedRecords.FormatReadsBack | make_beds.py:16-20 | a record without info is written as one newline-terminated line; it splits at tabs into three fields: the chromosome and the two coordinates, which parse back to the record's start and end |
| Annotation.Transcript.constructor | make_beds.py:73-84 | the new transcript has the given id, chromosome and span, is forward exactly when the strand is `+`, and has no exons or UTRs |
| Annotation.Transcript.AddExon | make_beds.py:86-91 | a forward transcript appends the exon; any other strand inserts it at the front; UTRs are unchanged |
| Annotation.InsertExonsOrder | make_beds.py:86-91 | after adding exons x1..xn, a forward transcript holds the old exons followed by x1..xn; any other strand holds xn..x1 followed by the old exons; nothing is sorted |
| Annotation.Transcript.AddUtr | make_beds.py:109-110 | the UTR is appended whatever the strand; exons are unchanged |
| Annotation.ExonBeds | make_beds.py:93-94 | one record per stored exon, in stored order, on the transcript's chromosome, start shifted to 0-based, end kept |
| Annotation.UtrBeds | make_beds.py:112-113 | one record per stored UTR, in declaration order, start shifted to 0-based, end kept |
| Annotation.IntronBeds | make_beds.py:96-107 | n stored exons give max(0, n-1) records; record i starts at the end of exon i and ends one before the start of exon i+1; overlapping or touching exons still give a record |
| Annotation.Transcript.GetIntrons | make_beds.py:96-107 | the loop over consecutive exon pairs returns exactly `IntronBeds` of the transcript |
| Annotation.Gene.constructor | make_beds.py:28-38 | the new gene has the given id, chromosome, span and type, and no transcripts |
| Annotation.Gene.AddTranscript | make_beds.py:40-41 | the transcript is stored under its id: a new id goes last, a known id keeps its place and the new object replaces the old one; the gene's value changes in the same way |
| Annotation.Gene.GetExons | make_beds.py:43-49 | the records are the exon records of every transcript, concatenated in transcript insertion order |
| Annotation.Gene.GetIntrons | make_beds.py:51-57 | the records are the intron records of every transcript, concatenated in transcript insertion order |
| Annotation.Gene.GetUtrs | make_beds.py:59-65 | the records are the UTR records of every transcript, concatenated in transcript insertion order |
| Annotation.FlattenAt | make_beds.py:43-65 | concatenating the per-transcript lists drops and merges nothing: element j of list i sits at the total length of the lists before it plus j |
| Annotation.Gene.AsBed | make_beds.py:67-68 | the gene body uses the gene's own declared chromosome, start and end, start shifted to 0-based |
| Annotation.GeneBed | make_beds.py:67-68 | the same gene-body record, computed from a gene's model value |
| OrderedMaps.FromPairsLastWins | make_beds.py:137 | filling a dictionary pair by pair: its keys are exactly the keys of the pairs, and each maps to the value of the last pair with that key |
| OrderedMaps.FromPairsFirstOrder | fix_gencode_gtf.py:26-35 | filling an ordered dictionary pair by pair lists each key once, in the order of the key's first occurrence |
| Text.StripSetSpec | make_beds.py:131 | `strip(cs)` leaves a slice of the string that neither starts nor ends with a character of `cs`, and everything cut off on either side is in `cs` |
| Text.LowerEqualsIff | make_beds.py:255 | for an all-lower-case ASCII word, the lower-cased string equals it exactly when the string has the same length and each character is the word's letter or its upper-case form |
| GtfParser.ParseUnit | make_beds.py:134-137 | a unit parses exactly when, once trimmed, it holds a space; otherwise a malformed-attribute error names the unit |
| GtfParser.ParseUnitSplitsAtFirstSpace | make_beds.py:134-137 | the key is the text before the first space and holds no space; the value is the rest with surrounding double quotes stripped |
| GtfParser.AttributesFailIff | make_beds.py:131-134 | reading the attribute column fails exactly when some unit of `column.strip(";").split(";")`, once trimmed, has no space |
| GtfParser.AttributesFirstError | make_beds.py:131-134 | the error reported is the one of the first such unit |
| GtfParser.AttributesLastWins | make_beds.py:130-137 | every unit's key is in the dictionary; the value stored is that of the last unit with the key |
| GtfParser.ParseAttributes | make_beds.py:130-137 | the loop filling the dictionary unit by unit returns the attributes of the column, or the first unit's error |
| GtfParser.GeneFields | make_beds.py:143-147 | a gene line succeeds exactly when `gene_id` and `gene_type` are present, there are at least five columns and columns 3 and 4 are integers; it then gives the gene built from `gene_id`, column 0, those two integers and `gene_type`, with no transcripts; a failing line gets the error Python raises first, in the order `gene_id`, column 3, column 4, `gene_type`, then `int()` of column 3 and of column 4 (`Gene.__init__`, make_beds.py:33-34) |
| GtfParser.GeneStepSpec | make_beds.py:140-150 | a gene line succeeds exactly when its fields do; it then stores its gene under its id: a new id goes last, a repeated id replaces the old gene in its old place; other genes are unchanged |
| GtfParser.TranscriptFields | make_beds.py:156-163 | a transcript line succeeds exactly when `transcript_id` and `gene_id` are present, there are at least seven columns and columns 3 and 4 are integers; it then gives `transcript_id`, column 0, those two integers, forward exactly when column 6 is `+`, no exons or UTRs, and names its `gene_id`; a failing line gets the error Python raises first, in the order `transcript_id`, columns 3, 4 and 6, `int()` of columns 3 and 4 (`Transcript.__init__`, make_beds.py:79-80), then `gene_id` |
| GtfParser.TranscriptStepSpec | make_beds.py:153-164 | a transcript line succeeds exactly when its fields do and its gene is known; a line whose fields read but whose `gene_id` names no known gene fails with a missing-gene error naming that id; on success the gene's transcripts become the old ones with the new transcript (its id, column 0, the integers of columns 3 and 4, forward exactly when column 6 is `+`, no exons or UTRs) put under its id; the gene's other fields, its other transcripts, the other genes and the gene order are unchanged |
| GtfParser.TranscriptStepValid | make_beds.py:153-164 | a transcript line keeps the model well formed and the gene order unchanged; a new transcript id goes last in its gene, a known one keeps its place |
| GtfParser.FindParents | make_beds.py:170-171 | an exon or UTR line finds its parents exactly when `gene_id` is present and a known gene, and `transcript_id` is present and a transcript of that gene; the error is the first lookup that fails, in the order `gene_id` attribute, gene, `transcript_id` attribute, transcript: a missing attribute names its key, a missing gene or transcript names its id |
| GtfParser.Coordinates | make_beds.py:172 | the span of an exon or UTR line is read exactly when there are at least five columns and columns 3 and 4 are integers; it is those two integers; otherwise the error names the first missing column, 3 then 4, or else the first of the two that is not an integer (`int()` in `add_exon`/`add_utr`, make_beds.py:89-110) |
| GtfParser.ExonStepSpec | make_beds.py:167-172 | an exon line succeeds exactly when its parents are found and its span is read; a missing gene or transcript fails with the matching error; on success its span is inserted into that transcript by the strand rule, and nothing else changes |
| GtfParser.UtrStepSpec | make_beds.py:175-180 | a UTR line succeeds exactly when its parents are found and its span is read; a missing gene or transcript fails with the matching error; on success its span is appended to that transcript's UTRs, and nothing else changes |
| GtfParser.DispatchOtherFeatures | make_beds.py:139-180 | a line with fewer than three columns is a missing-column error; a line whose feature is not `gene`, `transcript`, `exon` or `UTR` leaves the model unchanged |
| GtfParser.StepValid | make_beds.py:125-180 | every line keeps the model well formed; the gene order is kept and grows by at most one gene |
| GtfParser.ParseSpecValid | make_beds.py:116-185 | the model after any file is well formed: each key order lists its keys once |
| GtfParser.ParseSpecGeneOrder | make_beds.py:140-150 | the genes of a parsed file are exactly the ids of its gene lines, in the order of each id's first gene line |
| GtfParser.HeadersIgnored | make_beds.py:125-126 | a file parses as the same file with its `#` lines removed |
| GtfParser.ParseLine | make_beds.py:124-180 | one iteration of the loop agrees with `Step`: a header line or an unknown feature leaves the model unchanged, too few columns is an error, and gene, transcript, exon and UTR lines are dispatched |
| GtfParser.ParseGtf | make_beds.py:116-185 | the loop over the lines returns `ParseSpec` of the file: the model after all lines, or the first line's error |
| BedOutputs.OfBiotypeMembers | make_beds.py:253-256 | a gene is selected exactly when it is one of the genes and its lower-cased type equals the biotype |
| BedOutputs.OfBiotypeOrder | make_beds.py:253-256 | the selected genes are the genes at increasing positions, and a position is picked exactly when the lower-cased type of its gene equals the biotype |
| BedOutputs.BiotypesDisjoint | make_beds.py:249-276 | no gene is selected for two different biotype names |
| BedOutputs.GeneBeds | make_beds.py:283-285 | one gene-body record per gene, in gene order |
| BedOutputs.WriteBiotypeBed | make_beds.py:253-256 | the loop writes the gene bodies of exactly the selected genes, in gene order |
| BedOutputs.WriteRrnaBed | make_beds.py:249-256 | the gene bodies of the genes whose type is `rRNA` in any letter case (by `Text.LowerEqualsIff`), in gene order |
| BedOutputs.WriteMirnaBed | make_beds.py:259-266 | the gene bodies of the genes whose type is `miRNA` in any letter case (by `Text.LowerEqualsIff`), in gene order |
| BedOutputs.WriteLincrnaBed | make_beds.py:269-276 | the gene bodies of the genes whose type is `lincRNA` in any letter case (by `Text.LowerEqualsIff`), in gene order |
| BedOutputs.WriteGenesBed | make_beds.py:279-285 | the gene body of every gene, in gene order |
| BedOutputs.WritePerTranscriptBed | make_beds.py:219-246 | the records of every transcript of every gene, genes in insertion order and then transcripts in insertion order |
| BedOutputs.WriteExonsBed | make_beds.py:219-226 | the exon records of every gene, concatenated in gene order |
| BedOutputs.WriteIntronsBed | make_beds.py:229-236 | the intron records of every gene, concatenated in gene order |
| BedOutputs.WriteUtrsBed | make_beds.py:239-246 | the UTR records of every gene, concatenated in gene order |
| FixGencodeGtf.SplitUnit | fix_gencode_gtf.py:32-35 | a unit is accepted exactly when, once trimmed, it holds exactly one space; zero or several spaces are an error naming the unit |
| FixGencodeGtf.SplitUnitParts | fix_gencode_gtf.py:32-35 | an accepted unit is its key, one space and its raw value; neither holds a space; the value is the raw value with surrounding double quotes stripped |
| FixGencodeGtf.InfoFailIff | fix_gencode_gtf.py:29-32 | reading the attribute column fails exactly when some unit of `column.strip(";").split(";")`, once trimmed, does not hold exactly one space |
| FixGencodeGtf.InfoFirstError | fix_gencode_gtf.py:29-32 | the error reported names the first such unit |
| FixGencodeGtf.InfoLastWins | fix_gencode_gtf.py:26-35 | every unit's key is in the dictionary; the value stored is that of the last unit with the key |
| FixGencodeGtf.InfoFirstOrder | fix_gencode_gtf.py:26-35 | the dictionary lists each unit's key once, in the order of the key's first occurrence among the units |
| FixGencodeGtf.ReadInfo | fix_gencode_gtf.py:26-35 | the loop filling the ordered dictionary returns the attributes of the column, or the first malformed unit's error |
| FixGencodeGtf.FixLineColumns | fix_gencode_gtf.py:25-39 | a rewritten line splits at its tabs into the columns of the stripped input line, with only the last one replaced by the requoted attributes; the other columns pass through unchanged |
| FixGencodeGtf.FixAnnotationLine | fix_gencode_gtf.py:25-39 | rewriting one annotation line in place gives `FixLine` of the line: the attributes requoted as `key 'value'` units joined by `; `, in dictionary order |
| FixGencodeGtf.LinesPartition | fix_gencode_gtf.py:17-39 | a line is an annotation line exactly when it is a line of the file not starting with `#`; every `#` line, stripped, is a header line and every header line is a stripped `#` line; the two sides together hold as many lines as the file |
| FixGencodeGtf.FixSpecSeparates | fix_gencode_gtf.py:17-41 | the header lines are the file's `#` lines, stripped, in order; the annotation lines are the other lines rewritten one for one, in order; the first line that cannot be rewritten gives the error |
| FixGencodeGtf.FixSpecAnnotations | fix_gencode_gtf.py:17-41 | on success there is exactly one annotation line per non-header line, the rewrite of that line, and the header lines are the stripped `#` lines |
| FixGencodeGtf.FixGtf | fix_gencode_gtf.py:7-41 | the loop over the lines returns `FixSpec` of the file: the header lines and rewritten annotation lines, or the first error |

## Left out

- File I/O is not modelled. Both tools take the file's lines as a sequence of strings. The `write_*_bed` functions and `write_gtf` return the records or lines they would write, so the files themselves are not modelled. `BedRecords.Format` gives the text of one record.
- The command line is not modelled: argument parsing, `main`, `configure_argparser`, and the `print` progress output of `parse_gtf` and `main`. These are user interface only.
- `obtain_chr_lengths` is not modelled: it is file I/O, and no part of the derivation calls it.
- `GtfParser.ToInt`: `int()` on a coordinate column accepts an optional sign followed by ASCII decimal digits. Python also accepts surrounding whitespace, underscores and non-ASCII digits; the model rejects those.
- `Text.Lower` lower-cases ASCII letters only, while Python's `lower()` covers all of Unicode. The only non-ASCII characters Python lower-cases into ASCII are KELVIN SIGN, which becomes `k`, and U+0130, which becomes `i` followed by U+0307. None of `rrna`, `mirna` and `lincrna` holds a `k`, and U+0307 is not ASCII, so neither can produce these words. The three biotype comparisons therefore select the same genes as Python.
- `BEDRecord.__repr__` is not modelled. The `info` branch of `__str__` is modelled but never used, because no caller passes `info`.
- Python exceptions are modelled as `Failure` values naming the missing key, column or malformed unit. The messages themselves are not modelled.
- `parse_gtf` updates `Gene` and `Transcript` objects in place, reached through the `genes` dictionary. The model does not capture this aliasing or the in-place updates. `GtfParser.ParseGtf` runs the same loop on the model values `GeneValue` and `TranscriptValue`. The classes `Annotation.Gene` and `Annotation.Transcript` keep the in-place methods, each verified against those values on its own.
- The writers in `BedOutputs` take the parsed model as values, not as `Gene` objects. `Annotation.Gene.GetExons`, `GetIntrons` and `GetUtrs` are proved to return `PerTranscript` of the gene's value, and the writers use that same function.
- `Transcript.get_exons` and `get_utrs` are the functions `Annotation.Transcript.GetExons` and `GetUtrs`. Each is `ExonBeds` or `UtrBeds` of the transcript's value, and the contracts live on those two functions.

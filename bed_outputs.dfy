/**
 * The `write_*_bed` functions of `make_beds.py`: each walks the genes that
 * `parse_gtf` returned, in insertion order, and writes one BED record per line of
 * its output file. The records written are returned in order; the file text is
 * `Format` of each record, one after another.
 */
module BedOutputs {
  import opened Text
  import opened OrderedMaps
  import opened BedRecords
  import opened Annotation
  import opened GtfParser

  /** The genes whose type, lower-cased, is `biotype`, in their order. */
  function OfBiotype(genes: seq<GeneValue>, biotype: String): (r: seq<GeneValue>)
    ensures |r| <= |genes|
  {
    if genes == [] then []
    else
      var last := genes[|genes| - 1];
      OfBiotype(genes[..|genes| - 1], biotype) + if Lower(last.geneType) == biotype then [last] else []
  }

  /** `r` lists elements of `s` at strictly increasing positions `idx`. */
  ghost predicate PickedAt<T>(r: seq<T>, s: seq<T>, idx: seq<int>) {
    && |idx| == |r|
    && (forall k :: 0 <= k < |idx| ==> 0 <= idx[k] < |s| && r[k] == s[idx[k]])
    && (forall k, l :: 0 <= k < l < |idx| ==> idx[k] < idx[l])
  }

  /** A gene is selected exactly when it is one of the genes and its lower-cased type is `biotype`. */
  lemma {:induction false} OfBiotypeMembers(genes: seq<GeneValue>, biotype: String)
    ensures forall g :: g in OfBiotype(genes, biotype) <==> g in genes && Lower(g.geneType) == biotype
  {
    if genes != [] {
      var init, last := genes[..|genes| - 1], genes[|genes| - 1];
      OfBiotypeMembers(init, biotype);
      assert genes == init + [last];
    }
  }

  /** The positions of the selected genes among all genes. */
  function PickedIndices(genes: seq<GeneValue>, biotype: String): seq<int> {
    if genes == [] then []
    else
      var last := genes[|genes| - 1];
      PickedIndices(genes[..|genes| - 1], biotype) + if Lower(last.geneType) == biotype then [|genes| - 1] else []
  }

  /**
   * The selection keeps the genes' relative order: it is a subsequence of them, taken at
   * exactly the positions whose gene has the lower-cased type `biotype`.
   */
  lemma {:induction false} OfBiotypeOrder(genes: seq<GeneValue>, biotype: String)
    ensures PickedAt(OfBiotype(genes, biotype), genes, PickedIndices(genes, biotype))
    ensures forall i :: 0 <= i < |genes| ==> (i in PickedIndices(genes, biotype) <==> Lower(genes[i].geneType) == biotype)
  {
    if genes != [] {
      var init, last := genes[..|genes| - 1], genes[|genes| - 1];
      OfBiotypeOrder(init, biotype);
      assert genes == init + [last];
      assert |genes| - 1 !in PickedIndices(init, biotype);
      assert forall i :: 0 <= i < |init| ==> init[i] == genes[i];
      if Lower(last.geneType) == biotype {
        PickedAtSnoc(OfBiotype(init, biotype), init, PickedIndices(init, biotype), last);
      } else {
        PickedAtGrow(OfBiotype(init, biotype), init, PickedIndices(init, biotype), last);
      }
    }
  }

  lemma PickedAtSnoc<T>(r: seq<T>, s: seq<T>, idx: seq<int>, x: T)
    requires PickedAt(r, s, idx)
    ensures PickedAt(r + [x], s + [x], idx + [|s|])
  {
  }

  lemma PickedAtGrow<T>(r: seq<T>, s: seq<T>, idx: seq<int>, x: T)
    requires PickedAt(r, s, idx)
    ensures PickedAt(r, s + [x], idx)
  {
  }

  /** A gene goes to at most one of two biotype files with different names. */
  lemma BiotypesDisjoint(genes: seq<GeneValue>, a: String, b: String, g: GeneValue)
    requires a != b
    ensures !(g in OfBiotype(genes, a) && g in OfBiotype(genes, b))
  {
    OfBiotypeMembers(genes, a);
    OfBiotypeMembers(genes, b);
  }

  /** One gene-body record per gene, in order. */
  function GeneBeds(genes: seq<GeneValue>): (r: seq<BedRecord>)
    ensures |r| == |genes| && forall i :: 0 <= i < |genes| ==> r[i] == GeneBed(genes[i])
  {
    seq(|genes|, i requires 0 <= i < |genes| => GeneBed(genes[i]))
  }

  lemma GeneBedsAppend(a: seq<GeneValue>, b: seq<GeneValue>)
    ensures GeneBeds(a + b) == GeneBeds(a) + GeneBeds(b)
  {
  }

  /** The gene bodies of the selection grow by the next gene's exactly when it is selected. */
  lemma OfBiotypeStep(genes: seq<GeneValue>, i: nat, biotype: String)
    requires i < |genes|
    ensures GeneBeds(OfBiotype(genes[..i + 1], biotype)) ==
      GeneBeds(OfBiotype(genes[..i], biotype)) + if Lower(genes[i].geneType) == biotype then [GeneBed(genes[i])] else []
  {
    assert genes[..i + 1][..i] == genes[..i];
    var picked := if Lower(genes[i].geneType) == biotype then [genes[i]] else [];
    GeneBedsAppend(OfBiotype(genes[..i], biotype), picked);
  }

  /**
   * The loop shared by `write_rrna_bed`, `write_mirna_bed` and `write_lincrna_bed`:
   * the gene body of every gene whose lower-cased type is `biotype`.
   */
  method WriteBiotypeBed(genes: Model, biotype: String) returns (records: seq<BedRecord>)
    requires genes.Valid()
    ensures records == GeneBeds(OfBiotype(genes.Values(), biotype))
  {
    var geneObjs := genes.Values();
    records := [];
    for i := 0 to |geneObjs|
      invariant records == GeneBeds(OfBiotype(geneObjs[..i], biotype))
    {
      OfBiotypeStep(geneObjs, i, biotype);
      if Lower(geneObjs[i].geneType) == biotype {
        records := records + [GeneBed(geneObjs[i])];
      }
    }
    assert geneObjs[..|geneObjs|] == geneObjs;
  }

  /** `write_rrna_bed`: the genes of type `rRNA`, in any letter case. */
  method WriteRrnaBed(genes: Model) returns (records: seq<BedRecord>)
    requires genes.Valid()
    ensures records == GeneBeds(OfBiotype(genes.Values(), "rrna"))
  {
    records := WriteBiotypeBed(genes, "rrna");
  }

  /** `write_mirna_bed`: the genes of type `miRNA`, in any letter case. */
  method WriteMirnaBed(genes: Model) returns (records: seq<BedRecord>)
    requires genes.Valid()
    ensures records == GeneBeds(OfBiotype(genes.Values(), "mirna"))
  {
    records := WriteBiotypeBed(genes, "mirna");
  }

  /** `write_lincrna_bed`: the genes of type `lincRNA`, in any letter case. */
  method WriteLincrnaBed(genes: Model) returns (records: seq<BedRecord>)
    requires genes.Valid()
    ensures records == GeneBeds(OfBiotype(genes.Values(), "lincrna"))
  {
    records := WriteBiotypeBed(genes, "lincrna");
  }

  /** `write_genes_bed`: the gene body of every gene, in insertion order. */
  method WriteGenesBed(genes: Model) returns (records: seq<BedRecord>)
    requires genes.Valid()
    ensures records == GeneBeds(genes.Values())
  {
    var geneObjs := genes.Values();
    records := [];
    for i := 0 to |geneObjs|
      invariant records == GeneBeds(geneObjs[..i])
    {
      records := records + [GeneBed(geneObjs[i])];
    }
  }


  /** Every gene's transcript order lists its transcripts once. */
  ghost predicate TranscriptsValid(gs: seq<GeneValue>) {
    forall i :: 0 <= i < |gs| ==> gs[i].transcripts.Valid()
  }

  /** The records `f` gives for each transcript of each gene, genes in order, then transcripts in order. */
  function PerGene(gs: seq<GeneValue>, f: TranscriptValue -> seq<BedRecord>): seq<BedRecord>
    requires TranscriptsValid(gs)
  {
    if gs == [] then [] else PerGene(gs[..|gs| - 1], f) + PerTranscript(gs[|gs| - 1], f)
  }

  /** The genes of a well-formed model have well-formed transcript orders. */
  lemma ValuesValid(genes: Model)
    requires ModelValid(genes)
    ensures TranscriptsValid(genes.Values())
  {
  }

  /**
   * The loop shared by `write_exons_bed`, `write_introns_bed` and `write_utrs_bed`:
   * `get_exons`, `get_introns` or `get_utrs` of every gene, in insertion order.
   */
  method WritePerTranscriptBed(genes: Model, f: TranscriptValue -> seq<BedRecord>) returns (records: seq<BedRecord>)
    requires ModelValid(genes)
    ensures TranscriptsValid(genes.Values()) && records == PerGene(genes.Values(), f)
  {
    var geneValues := genes.Values();
    ValuesValid(genes);
    records := [];
    for i := 0 to |geneValues|
      invariant records == PerGene(geneValues[..i], f)
    {
      var beds := PerTranscript(geneValues[i], f);
      assert geneValues[..i + 1][..i] == geneValues[..i];
      records := records + beds;
    }
    assert geneValues[..|geneValues|] == geneValues;
  }

  /** `write_exons_bed`: the exon records of every gene, in insertion order. */
  method WriteExonsBed(genes: Model) returns (records: seq<BedRecord>)
    requires ModelValid(genes)
    ensures TranscriptsValid(genes.Values()) && records == PerGene(genes.Values(), ExonBeds)
  {
    records := WritePerTranscriptBed(genes, ExonBeds);
  }

  /** `write_introns_bed`: the intron records of every gene, in insertion order. */
  method WriteIntronsBed(genes: Model) returns (records: seq<BedRecord>)
    requires ModelValid(genes)
    ensures TranscriptsValid(genes.Values()) && records == PerGene(genes.Values(), IntronBeds)
  {
    records := WritePerTranscriptBed(genes, IntronBeds);
  }

  /** `write_utrs_bed`: the UTR records of every gene, in insertion order. */
  method WriteUtrsBed(genes: Model) returns (records: seq<BedRecord>)
    requires ModelValid(genes)
    ensures TranscriptsValid(genes.Values()) && records == PerGene(genes.Values(), UtrBeds)
  {
    records := WritePerTranscriptBed(genes, UtrBeds);
  }
}

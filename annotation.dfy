/**
 * The annotation model of `make_beds.py`: a `Transcript` owns its exon and UTR
 * intervals, a `Gene` owns an insertion-ordered dictionary of transcripts, and both
 * derive BED records from what they hold.
 */
module Annotation {
  import opened Wrappers
  import opened Text
  import opened OrderedMaps
  import opened BedRecords

  /** A stored `(start, end)` pair, 1-based and inclusive as declared in the GTF line. */
  datatype Span = Span(start: int, end: int)

  /**
   * The strand-dependent insertion rule of `Transcript.add_exon`: a forward-strand
   * transcript appends, any other strand inserts at the front.
   */
  function InsertExon(isForward: bool, exons: seq<Span>, x: Span): seq<Span> {
    if isForward then exons + [x] else [x] + exons
  }

  /** The exon list after inserting `xs` one after another. */
  function InsertExons(isForward: bool, exons: seq<Span>, xs: seq<Span>): seq<Span>
    decreases |xs|
  {
    if xs == [] then exons else InsertExons(isForward, InsertExon(isForward, exons, xs[0]), xs[1..])
  }

  function Reverse<T>(xs: seq<T>): (r: seq<T>)
    ensures |r| == |xs| && forall i :: 0 <= i < |xs| ==> r[i] == xs[|xs| - 1 - i]
  {
    if xs == [] then [] else Reverse(xs[1..]) + [xs[0]]
  }

  /**
   * Exons are stored in arrival order on the forward strand and in reverse arrival
   * order otherwise; they are never sorted.
   */
  lemma {:induction false} InsertExonsOrder(isForward: bool, exons: seq<Span>, xs: seq<Span>)
    ensures InsertExons(isForward, exons, xs) == if isForward then exons + xs else Reverse(xs) + exons
    decreases |xs|
  {
    if xs != [] {
      var x, rest := xs[0], xs[1..];
      var next := InsertExon(isForward, exons, x);
      assert InsertExons(isForward, exons, xs) == InsertExons(isForward, next, rest);
      InsertExonsOrder(isForward, next, rest);
      assert xs == [x] + rest;
      if isForward {
        assert next + rest == exons + xs;
      } else {
        assert Reverse(xs) == Reverse(rest) + [x];
        assert Reverse(rest) + next == Reverse(xs) + exons;
      }
    }
  }

  /** Concatenation of a sequence of lists, as repeated `list.extend`. */
  function Flatten<T>(ss: seq<seq<T>>): (r: seq<T>)
  {
    if ss == [] then [] else Flatten(ss[..|ss| - 1]) + ss[|ss| - 1]
  }

  /** The total length of the lists in `ss`. */
  function TotalLength<T>(ss: seq<seq<T>>): nat {
    if ss == [] then 0 else TotalLength(ss[..|ss| - 1]) + |ss[|ss| - 1]|
  }

  lemma FlattenPrefix<T>(ss: seq<seq<T>>, i: nat)
    requires i < |ss|
    ensures Flatten(ss[..i + 1]) == Flatten(ss[..i]) + ss[i]
  {
    assert ss[..i + 1][..i] == ss[..i];
  }

  /**
   * The lists are laid end to end in order, nothing merged or dropped: element `j` of
   * list `i` sits in `Flatten(ss)` right after all elements of the lists before it.
   */
  lemma {:induction false} FlattenAt<T>(ss: seq<seq<T>>, i: nat, j: nat)
    requires i < |ss| && j < |ss[i]|
    ensures |Flatten(ss)| == TotalLength(ss)
    ensures TotalLength(ss[..i]) + j < |Flatten(ss)|
    ensures Flatten(ss)[TotalLength(ss[..i]) + j] == ss[i][j]
  {
    var init := ss[..|ss| - 1];
    FlattenLength(init);
    if i < |ss| - 1 {
      FlattenAt(init, i, j);
      assert init[..i] == ss[..i];
      assert init[i] == ss[i];
    } else {
      assert ss[..i] == init;
    }
  }

  lemma {:induction false} FlattenLength<T>(ss: seq<seq<T>>)
    ensures |Flatten(ss)| == TotalLength(ss)
  {
    if ss != [] {
      FlattenLength(ss[..|ss| - 1]);
    }
  }

  /** The model value of a transcript: what `Transcript` holds, without object identity. */
  datatype TranscriptValue = TranscriptValue(
    id: String, chrom: String, start: int, end: int, isForward: bool,
    exons: seq<Span>, utrs: seq<Span>)

  /** The model value of a gene, its transcripts given by value in insertion order. */
  datatype GeneValue = GeneValue(
    id: String, chrom: String, start: int, end: int, geneType: String,
    transcripts: OrderedMap<String, TranscriptValue>)

  /** `Transcript.get_exons`: one record per stored exon, in stored order. */
  function ExonBeds(t: TranscriptValue): (r: seq<BedRecord>)
    ensures |r| == |t.exons|
    ensures forall i :: 0 <= i < |r| ==>
      r[i].chrom == t.chrom && r[i].start == t.exons[i].start - 1 && r[i].end == t.exons[i].end && r[i].info.None?
  {
    seq(|t.exons|, i requires 0 <= i < |t.exons| => NewBed(t.chrom, t.exons[i].start, t.exons[i].end, None))
  }

  /** `Transcript.get_utrs`: one record per stored UTR, in declaration order. */
  function UtrBeds(t: TranscriptValue): (r: seq<BedRecord>)
    ensures |r| == |t.utrs|
    ensures forall i :: 0 <= i < |r| ==>
      r[i].chrom == t.chrom && r[i].start == t.utrs[i].start - 1 && r[i].end == t.utrs[i].end && r[i].info.None?
  {
    seq(|t.utrs|, i requires 0 <= i < |t.utrs| => NewBed(t.chrom, t.utrs[i].start, t.utrs[i].end, None))
  }

  /**
   * `Transcript.get_introns`: one record for every pair of consecutive stored exons,
   * built from `(prev.end + 1, next.start - 1)`, so that its BED start is the previous
   * exon's end and its end is one before the next exon's start. Nothing is filtered:
   * exons that touch or overlap yield a record with `start >= end`.
   */
  function IntronBeds(t: TranscriptValue): (r: seq<BedRecord>)
    ensures |r| == if |t.exons| == 0 then 0 else |t.exons| - 1
    ensures forall i :: 0 <= i < |r| ==>
      r[i].chrom == t.chrom && r[i].start == t.exons[i].end && r[i].end == t.exons[i + 1].start - 1 && r[i].info.None?
  {
    var n := if |t.exons| == 0 then 0 else |t.exons| - 1;
    seq(n, i requires 0 <= i < n => IntronBed(t.chrom, t.exons[i], t.exons[i + 1]))
  }

  /** The intron between two consecutive exons, from `(prev.end + 1, next.start - 1)`. */
  function IntronBed(chrom: String, prev: Span, next: Span): (r: BedRecord)
    ensures r.chrom == chrom && r.start == prev.end && r.end == next.start - 1 && r.info.None?
  {
    NewBed(chrom, prev.end + 1, next.start - 1, None)
  }

  /** The records `f` gives for each transcript of `g`, concatenated in transcript insertion order. */
  function PerTranscript(g: GeneValue, f: TranscriptValue -> seq<BedRecord>): seq<BedRecord>
    requires g.transcripts.Valid()
  {
    var ts := g.transcripts.Values();
    Flatten(seq(|ts|, i requires 0 <= i < |ts| => f(ts[i])))
  }

  /** `Gene.as_bed`: the gene body from the gene's own declared span, not from its transcripts. */
  function GeneBed(g: GeneValue): (r: BedRecord)
    ensures r.chrom == g.chrom && r.start == g.start - 1 && r.end == g.end && r.info.None?
  {
    NewBed(g.chrom, g.start, g.end, None)
  }

  class Transcript {
    const id: String
    const chrom: String
    const start: int
    const end: int
    const isForward: bool
    var exons: seq<Span>
    var utrs: seq<Span>

    /** `Transcript(trans_id, chrom, start, end, strand)`; the strand is forward exactly when it is `"+"`. */
    constructor (id: String, chrom: String, start: int, end: int, strand: String)
      ensures Value() == TranscriptValue(id, chrom, start, end, strand == "+", [], [])
    {
      this.id := id;
      this.chrom := chrom;
      this.start := start;
      this.end := end;
      this.isForward := strand == "+";
      this.exons := [];
      this.utrs := [];
    }

    function Value(): TranscriptValue
      reads this
    {
      TranscriptValue(id, chrom, start, end, isForward, exons, utrs)
    }

    /** `add_exon`: append on the forward strand, insert at the front otherwise. */
    method AddExon(start: int, end: int)
      modifies this
      ensures exons == InsertExon(isForward, old(exons), Span(start, end))
      ensures utrs == old(utrs)
    {
      if isForward {
        exons := exons + [Span(start, end)];
      } else {
        exons := [Span(start, end)] + exons;
      }
    }

    /** `add_utr`: always append, whatever the strand. */
    method AddUtr(start: int, end: int)
      modifies this
      ensures utrs == old(utrs) + [Span(start, end)]
      ensures exons == old(exons)
    {
      utrs := utrs + [Span(start, end)];
    }

    /** `get_exons`: the records of the stored exons. */
    function GetExons(): seq<BedRecord>
      reads this
    {
      ExonBeds(Value())
    }

    /** `get_utrs`: the records of the stored UTRs. */
    function GetUtrs(): seq<BedRecord>
      reads this
    {
      UtrBeds(Value())
    }

    /** `get_introns`: builds the intron records by a loop over the stored exons. */
    method GetIntrons() returns (introns: seq<BedRecord>)
      ensures introns == IntronBeds(Value())
    {
      introns := [];
      var exonId := 1;
      while exonId < |exons|
        invariant 1 <= exonId <= if |exons| == 0 then 1 else |exons|
        invariant introns == IntronBeds(Value())[..exonId - 1]
      {
        var prevExonEnd := exons[exonId - 1].end;
        var curExonStart := exons[exonId].start;
        introns := introns + [NewBed(chrom, prevExonEnd + 1, curExonStart - 1, None)];
        exonId := exonId + 1;
      }
    }
  }

  /** The values of the transcript objects in `m`, under the same keys and in the same order. */
  ghost function TranscriptValues(m: OrderedMap<String, Transcript>): (r: OrderedMap<String, TranscriptValue>)
    reads m.entries.Values
    ensures r.keys == m.keys && r.entries.Keys == m.entries.Keys
    ensures forall k :: k in m.entries ==> r.entries[k] == m.entries[k].Value()
  {
    OrderedMap(m.keys, map k | k in m.entries :: m.entries[k].Value())
  }

  /** Storing a transcript object stores its value. */
  lemma TranscriptValuesPut(m: OrderedMap<String, Transcript>, id: String, t: Transcript)
    ensures TranscriptValues(m.Put(id, t)) == TranscriptValues(m).Put(id, t.Value())
  {
    var a, b := TranscriptValues(m.Put(id, t)), TranscriptValues(m).Put(id, t.Value());
    assert a.entries == b.entries;
  }

  class Gene {
    const id: String
    const chrom: String
    const start: int
    const end: int
    const geneType: String
    var transcripts: OrderedMap<String, Transcript>

    ghost predicate Valid()
      reads this
    {
      transcripts.Valid()
    }

    /** `Gene(gene_id, chrom, start, end, gene_type)`, with no transcripts yet. */
    constructor (id: String, chrom: String, start: int, end: int, geneType: String)
      ensures Valid() && fresh(this)
      ensures this.id == id && this.chrom == chrom && this.start == start && this.end == end
      ensures this.geneType == geneType && transcripts == Empty()
    {
      this.id := id;
      this.chrom := chrom;
      this.start := start;
      this.end := end;
      this.geneType := geneType;
      this.transcripts := Empty();
    }

    /** The transcripts in insertion order. */
    function TranscriptList(): seq<Transcript>
      reads this
      requires Valid()
    {
      transcripts.Values()
    }

    ghost function Value(): GeneValue
      reads this, transcripts.entries.Values
    {
      GeneValue(id, chrom, start, end, geneType, TranscriptValues(transcripts))
    }

    /** `add_transcript`: `transcripts[t.transcript_id] = t`. */
    method AddTranscript(t: Transcript)
      requires Valid()
      modifies this
      ensures Valid()
      ensures transcripts == old(transcripts).Put(t.id, t)
      ensures Value() == old(Value()).(transcripts := old(Value()).transcripts.Put(t.id, t.Value()))
    {
      transcripts := transcripts.Put(t.id, t);
      TranscriptValuesPut(old(transcripts), t.id, t);
    }

    /** `get_exons`: the exon records of all transcripts, concatenated in insertion order. */
    method GetExons() returns (bedRecords: seq<BedRecord>)
      requires Valid()
      ensures Value().transcripts.Valid() && bedRecords == PerTranscript(Value(), ExonBeds)
    {
      ghost var v, lists := Value(), PerTranscriptLists(ExonBeds);
      assert v.transcripts.Valid() && Flatten(lists) == PerTranscript(v, ExonBeds);
      bedRecords := CollectExons(TranscriptList(), lists);
      assert Value() == v;
    }

    /** The loop of `GetExons`: `ts[i].GetExons()` for each transcript, concatenated. */
    static method CollectExons(ts: seq<Transcript>, ghost lists: seq<seq<BedRecord>>) returns (bedRecords: seq<BedRecord>)
      requires |lists| == |ts| && forall i :: 0 <= i < |ts| ==> lists[i] == ExonBeds(ts[i].Value())
      ensures bedRecords == Flatten(lists)
    {
      bedRecords := [];
      for i := 0 to |ts|
        invariant bedRecords == Flatten(lists[..i])
      {
        var exons := ts[i].GetExons();
        FlattenPrefix(lists, i);
        bedRecords := bedRecords + exons;
      }
      assert lists[..|ts|] == lists;
    }

    /** `get_introns`: the intron records of all transcripts, concatenated in insertion order. */
    method GetIntrons() returns (bedRecords: seq<BedRecord>)
      requires Valid()
      ensures Value().transcripts.Valid() && bedRecords == PerTranscript(Value(), IntronBeds)
    {
      ghost var v, lists := Value(), PerTranscriptLists(IntronBeds);
      assert v.transcripts.Valid() && Flatten(lists) == PerTranscript(v, IntronBeds);
      bedRecords := CollectIntrons(TranscriptList(), lists);
      assert Value() == v;
    }

    /** The loop of `GetIntrons`: `ts[i].GetIntrons()` for each transcript, concatenated. */
    static method CollectIntrons(ts: seq<Transcript>, ghost lists: seq<seq<BedRecord>>) returns (bedRecords: seq<BedRecord>)
      requires |lists| == |ts| && forall i :: 0 <= i < |ts| ==> lists[i] == IntronBeds(ts[i].Value())
      ensures bedRecords == Flatten(lists)
    {
      bedRecords := [];
      for i := 0 to |ts|
        invariant bedRecords == Flatten(lists[..i])
      {
        var introns := ts[i].GetIntrons();
        FlattenPrefix(lists, i);
        bedRecords := bedRecords + introns;
      }
      assert lists[..|ts|] == lists;
    }

    /** `get_utrs`: the UTR records of all transcripts, concatenated in insertion order. */
    method GetUtrs() returns (bedRecords: seq<BedRecord>)
      requires Valid()
      ensures Value().transcripts.Valid() && bedRecords == PerTranscript(Value(), UtrBeds)
    {
      ghost var v, lists := Value(), PerTranscriptLists(UtrBeds);
      assert v.transcripts.Valid() && Flatten(lists) == PerTranscript(v, UtrBeds);
      bedRecords := CollectUtrs(TranscriptList(), lists);
      assert Value() == v;
    }

    /** The loop of `GetUtrs`: `ts[i].GetUtrs()` for each transcript, concatenated. */
    static method CollectUtrs(ts: seq<Transcript>, ghost lists: seq<seq<BedRecord>>) returns (bedRecords: seq<BedRecord>)
      requires |lists| == |ts| && forall i :: 0 <= i < |ts| ==> lists[i] == UtrBeds(ts[i].Value())
      ensures bedRecords == Flatten(lists)
    {
      bedRecords := [];
      for i := 0 to |ts|
        invariant bedRecords == Flatten(lists[..i])
      {
        var utrs := ts[i].GetUtrs();
        FlattenPrefix(lists, i);
        bedRecords := bedRecords + utrs;
      }
      assert lists[..|ts|] == lists;
    }

    /**
     * The per-transcript lists `PerTranscript(Value(), f)` concatenates: entry `i` is `f`
     * of the value of the `i`-th transcript object.
     */
    ghost function PerTranscriptLists(f: TranscriptValue -> seq<BedRecord>): (r: seq<seq<BedRecord>>)
      reads this, transcripts.entries.Values
      requires Valid()
      ensures Value().transcripts.Valid() && |r| == |TranscriptList()|
      ensures forall i :: 0 <= i < |r| ==> r[i] == f(TranscriptList()[i].Value())
      ensures Flatten(r) == PerTranscript(Value(), f)
    {
      var vs := Value().transcripts.Values();
      assert forall i :: 0 <= i < |vs| ==> vs[i] == TranscriptList()[i].Value();
      seq(|vs|, i requires 0 <= i < |vs| => f(vs[i]))
    }

    /** `as_bed`: the gene body from the gene's own declared span, not from its transcripts. */
    function AsBed(): (r: BedRecord)
      ensures r.chrom == chrom && r.start == start - 1 && r.end == end && r.info.None?
    {
      NewBed(chrom, start, end, None)
    }
  }
}

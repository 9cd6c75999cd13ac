/** The mutable state of the METS builder: counters, metadata sections and file groups
    (worker/worker/clientScripts/create_mets_v2.py). */
module MetsBuilder {
  import opened Text
  import opened DirTree
  import opened Mets

  // ---------------------------------------------------------------- metadata sections

  datatype DmdKind = PremisObject | DublinCore | Custom

  /** The number is the counter value in the section's ID attribute. */
  datatype DmdSec = DmdSec(number: nat, kind: DmdKind, fields: seq<Field>)

  datatype AmdSec = AmdSec(number: nat, techMd: seq<nat>, rightsMd: seq<nat>, digiprovMd: seq<nat>)

  function DmdId(number: nat): string { "dmdSec_" + Str(number) }

  function AmdId(number: nat): string { "amdSec_" + Str(number) }

  // ---------------------------------------------------------------- metadata.csv sections

  function KindOf(key: string): DmdKind {
    if IsPrefix("dc.", key) || IsPrefix("dcterms.", key) then DublinCore else Custom
  }

  /** The one Dublin Core and the one custom section of a path, once a column asked for them. */
  datatype CsvSections = CsvSections(dc: Option<DmdSec>, other: Option<DmdSec>) {
    function Count(): nat {
      (if dc.Some? then 1 else 0) + if other.Some? then 1 else 0
    }

    predicate Has(kind: DmdKind) {
      if kind == DublinCore then dc.Some? else other.Some?
    }

    /** In the order they were made. */
    function InOrder(): seq<DmdSec> {
      if dc.Some? && other.Some? then
        if dc.value.number < other.value.number then [dc.value, other.value] else [other.value, dc.value]
      else if dc.Some? then [dc.value]
      else if other.Some? then [other.value]
      else []
    }

    /** The numbers continue the counter without a gap. */
    predicate Numbered(counter: nat) {
      && (dc.Some? && other.Some? ==> {dc.value.number, other.value.number} == {counter + 1, counter + 2})
      && (dc.Some? && other.None? ==> dc.value.number == counter + 1)
      && (dc.None? && other.Some? ==> other.value.number == counter + 1)
    }

    function Add(counter: nat, field: Field): CsvSections {
      match KindOf(field.key)
      case DublinCore => this.(dc := Some(Extended(dc, DublinCore, counter, field)))
      case _ => this.(other := Some(Extended(other, Custom, counter, field)))
    }

    function Extended(sec: Option<DmdSec>, kind: DmdKind, counter: nat, field: Field): DmdSec {
      match sec
      case None => DmdSec(counter + Count() + 1, kind, [field])
      case Some(s) => s.(fields := s.fields + [field])
    }
  }

  function SectionsOf(metadata: seq<Field>, counter: nat): CsvSections {
    if metadata == [] then CsvSections(None, None)
    else SectionsOf(metadata[..|metadata| - 1], counter).Add(counter, metadata[|metadata| - 1])
  }

  /** The columns of Dublin Core, or the others, in their order. */
  function Columns(metadata: seq<Field>, dublinCore: bool): seq<Field> {
    if metadata == [] then []
    else
      var key := metadata[|metadata| - 1].key;
      Columns(metadata[..|metadata| - 1], dublinCore)
      + if (IsPrefix("dc.", key) || IsPrefix("dcterms.", key)) == dublinCore then [metadata[|metadata| - 1]] else []
  }

  ghost predicate Holds(sec: Option<DmdSec>, kind: DmdKind, metadata: seq<Field>) {
    var columns := Columns(metadata, kind.DublinCore?);
    match sec
    case None => columns == []
    case Some(s) => s.kind == kind && s.fields == columns && s.fields != []
  }

  /** Nothing is lost or mixed up: a section for each kind that occurs, with exactly the columns of that
      kind in their order; the numbers continue the counter without a gap. */
  lemma {:induction false} SectionsHold(metadata: seq<Field>, counter: nat)
    ensures var secs := SectionsOf(metadata, counter);
            && Holds(secs.dc, DublinCore, metadata) && Holds(secs.other, Custom, metadata)
            && secs.Numbered(counter)
            && (metadata != [] ==> FirstFirst(secs, metadata[0]))
  {
    if metadata != [] {
      var front := metadata[..|metadata| - 1];
      SectionsHold(front, counter);
      if front != [] {
        assert front[0] == metadata[0];
      }
    }
  }

  /** The section that the first column asked for comes first, beginning with it. */
  predicate FirstFirst(secs: CsvSections, first: Field) {
    secs.InOrder() != [] && secs.InOrder()[0].fields != [] && secs.InOrder()[0].fields[0] == first
  }

  /** The sections made of the metadata of a path: Dublin Core columns in one, all others in another, each in their
      order; the one that the first column belongs to comes first, and the numbers follow the counter. */
  lemma CsvSectionsHold(metadata: seq<Field>, counter: nat)
    ensures var made := SectionsOf(metadata, counter).InOrder();
            var (simple, other) := (Columns(metadata, true), Columns(metadata, false));
            && |made| == (if simple == [] then 0 else 1) + (if other == [] then 0 else 1)
            && (forall i | 0 <= i < |made| ::
                  made[i].number == counter + 1 + i
                  && (|| made[i] == DmdSec(counter + 1 + i, DublinCore, simple)
                      || made[i] == DmdSec(counter + 1 + i, Custom, other)))
            && (|made| == 2 ==> made[0].kind != made[1].kind)
            && (metadata != [] ==> made != [] && made[0].fields != [] && made[0].fields[0] == metadata[0])
  {
    SectionsHold(metadata, counter);
    InOrderNumbers(SectionsOf(metadata, counter), counter);
  }

  lemma InOrderNumbers(secs: CsvSections, counter: nat)
    requires secs.Numbered(counter)
    ensures |secs.InOrder()| == secs.Count()
    ensures forall i | 0 <= i < secs.Count() :: secs.InOrder()[i].number == counter + i + 1
  {
    if secs.dc.Some? && secs.other.Some? {
      assert counter + 1 in {secs.dc.value.number, secs.other.value.number};
      assert counter + 2 in {secs.dc.value.number, secs.other.value.number};
    }
  }

  // ---------------------------------------------------------------- identifiers stay distinct

  /** The counter values in a list of sections: rising, and none beyond the counter. */
  predicate Rising(numbers: seq<nat>, counter: nat) {
    && (forall i, j | 0 <= i < j < |numbers| :: numbers[i] < numbers[j])
    && (forall i | 0 <= i < |numbers| :: numbers[i] <= counter)
  }

  lemma RisingConcat(a: seq<nat>, counter: nat, b: seq<nat>, counter': nat)
    requires Rising(a, counter) && Rising(b, counter') && counter <= counter'
    requires forall i | 0 <= i < |b| :: counter < b[i]
    ensures Rising(a + b, counter')
  {
  }

  function DmdNumbers(secs: seq<DmdSec>): seq<nat> {
    if secs == [] then [] else DmdNumbers(secs[..|secs| - 1]) + [secs[|secs| - 1].number]
  }

  function AmdNumbers(secs: seq<AmdSec>): seq<nat> {
    if secs == [] then [] else AmdNumbers(secs[..|secs| - 1]) + [secs[|secs| - 1].number]
  }

  function TechNumbers(secs: seq<AmdSec>): seq<nat> {
    if secs == [] then [] else TechNumbers(secs[..|secs| - 1]) + secs[|secs| - 1].techMd
  }

  function RightsNumbers(secs: seq<AmdSec>): seq<nat> {
    if secs == [] then [] else RightsNumbers(secs[..|secs| - 1]) + secs[|secs| - 1].rightsMd
  }

  function DigiprovNumbers(secs: seq<AmdSec>): seq<nat> {
    if secs == [] then [] else DigiprovNumbers(secs[..|secs| - 1]) + secs[|secs| - 1].digiprovMd
  }

  function Tagged(prefix: string, numbers: seq<nat>): (r: seq<string>)
    ensures |r| == |numbers| && forall i | 0 <= i < |numbers| :: r[i] == prefix + Str(numbers[i])
  {
    if numbers == [] then [] else [prefix + Str(numbers[0])] + Tagged(prefix, numbers[1..])
  }

  lemma TaggedDistinct(prefix: string, numbers: seq<nat>, counter: nat)
    requires Rising(numbers, counter)
    ensures Distinct(Tagged(prefix, numbers))
  {
    var ids := Tagged(prefix, numbers);
    forall i, j | 0 <= i < j < |ids| ensures ids[i] != ids[j] {
      assert Str(numbers[i]) == ids[i][|prefix|..] && Str(numbers[j]) == ids[j][|prefix|..];
      if ids[i] == ids[j] {
        StrInjective(numbers[i], numbers[j]);
        assert false;
      }
    }
  }

  function DmdIds(secs: seq<DmdSec>): seq<string> { Tagged("dmdSec_", DmdNumbers(secs)) }

  function AmdIds(secs: seq<AmdSec>): seq<string> { Tagged("amdSec_", AmdNumbers(secs)) }

  /** Everything the counters ever put into an ID attribute, of all five kinds at once. */
  function CounterIds(dmdSecs: seq<DmdSec>, amdSecs: seq<AmdSec>): seq<string> {
    DmdIds(dmdSecs) + AmdIds(amdSecs) + Tagged("techMD_", TechNumbers(amdSecs))
      + Tagged("rightsMD_", RightsNumbers(amdSecs))
    + Tagged("digiprovMD_", DigiprovNumbers(amdSecs))
  }

  /** Different prefixes, different identifiers. */
  lemma PrefixesDiffer(p: string, a: seq<nat>, q: string, b: seq<nat>)
    requires exists k :: 0 <= k < |p| && k < |q| && p[k] != q[k]
    ensures Apart(Tagged(p, a), Tagged(q, b))
  {
    var k :| 0 <= k < |p| && k < |q| && p[k] != q[k];
    forall i, j | 0 <= i < |a| && 0 <= j < |b| ensures Tagged(p, a)[i] != Tagged(q, b)[j] {
      assert (p + Str(a[i]))[k] == p[k] && (q + Str(b[j]))[k] == q[k];
    }
  }

  datatype Counters = Counters(dmd: nat, amd: nat, tech: nat, rights: nat, digiprov: nat)

  ghost predicate AllRising(dmdSecs: seq<DmdSec>, amdSecs: seq<AmdSec>, c: Counters) {
    && Rising(DmdNumbers(dmdSecs), c.dmd)
    && Rising(AmdNumbers(amdSecs), c.amd)
    && Rising(TechNumbers(amdSecs), c.tech)
    && Rising(RightsNumbers(amdSecs), c.rights)
    && Rising(DigiprovNumbers(amdSecs), c.digiprov)
  }

  /** While the counters only rise, no two ID attributes made from them are equal. */
  lemma CounterIdsDistinct(dmdSecs: seq<DmdSec>, amdSecs: seq<AmdSec>, counters: Counters)
    requires AllRising(dmdSecs, amdSecs, counters)
    ensures Distinct(CounterIds(dmdSecs, amdSecs))
  {
    var a, b, c := DmdNumbers(dmdSecs), AmdNumbers(amdSecs), TechNumbers(amdSecs);
    var d, e := RightsNumbers(amdSecs), DigiprovNumbers(amdSecs);
    TaggedDistinct("dmdSec_", a, counters.dmd);
    TaggedDistinct("amdSec_", b, counters.amd);
    TaggedDistinct("techMD_", c, counters.tech);
    TaggedDistinct("rightsMD_", d, counters.rights);
    TaggedDistinct("digiprovMD_", e, counters.digiprov);
    assert "dmdSec_"[0] != "amdSec_"[0];
    PrefixesDiffer("dmdSec_", a, "amdSec_", b);
    assert "dmdSec_"[0] != "techMD_"[0] && "amdSec_"[0] != "techMD_"[0];
    PrefixesDiffer("dmdSec_", a, "techMD_", c);
    PrefixesDiffer("amdSec_", b, "techMD_", c);
    assert "dmdSec_"[0] != "rightsMD_"[0] && "amdSec_"[0] != "rightsMD_"[0] && "techMD_"[0] != "rightsMD_"[0];
    PrefixesDiffer("dmdSec_", a, "rightsMD_", d);
    PrefixesDiffer("amdSec_", b, "rightsMD_", d);
    PrefixesDiffer("techMD_", c, "rightsMD_", d);
    assert "dmdSec_"[1] != "digiprovMD_"[1] && "amdSec_"[0] != "digiprovMD_"[0];
    assert "techMD_"[0] != "digiprovMD_"[0] && "rightsMD_"[0] != "digiprovMD_"[0];
    PrefixesDiffer("dmdSec_", a, "digiprovMD_", e);
    PrefixesDiffer("amdSec_", b, "digiprovMD_", e);
    PrefixesDiffer("techMD_", c, "digiprovMD_", e);
    PrefixesDiffer("rightsMD_", d, "digiprovMD_", e);
    FiveParts(
      Tagged("dmdSec_", a), Tagged("amdSec_", b), Tagged("techMD_", c), Tagged("rightsMD_", d),
      Tagged("digiprovMD_", e));
  }

  predicate Apart(a: seq<string>, b: seq<string>) {
    forall i, j | 0 <= i < |a| && 0 <= j < |b| :: a[i] != b[j]
  }

  lemma ApartConcat(a: seq<string>, b: seq<string>, c: seq<string>)
    requires Distinct(a) && Distinct(b) && Apart(a, b) && Apart(a, c) && Apart(b, c)
    ensures Distinct(a + b) && Apart(a + b, c)
  {
  }

  lemma FiveParts(a: seq<string>, b: seq<string>, c: seq<string>, d: seq<string>, e: seq<string>)
    requires Distinct(a) && Distinct(b) && Distinct(c) && Distinct(d) && Distinct(e)
    requires Apart(a, b) && Apart(a, c) && Apart(a, d) && Apart(a, e) && Apart(b, c) && Apart(b, d) && Apart(b, e)
    requires Apart(c, d) && Apart(c, e) && Apart(d, e)
    ensures Distinct(a + b + c + d + e)
  {
    ApartConcat(a, b, c);
    ApartConcat(a, b, d);
    ApartConcat(a, b, e);
    ApartConcat(a + b, c, d);
    ApartConcat(a + b, c, e);
    ApartConcat(a + b + c, d, e);
    ApartConcat(a + b + c + d, e, []);
  }

  // ---------------------------------------------------------------- growing lists of sections

  function Consecutive(counter: nat, n: nat): (r: seq<nat>)
    ensures |r| == n && forall i | 0 <= i < n :: r[i] == counter + 1 + i
  {
    if n == 0 then [] else Consecutive(counter, n - 1) + [counter + n]
  }

  lemma {:induction false} DmdNumbersConcat(a: seq<DmdSec>, b: seq<DmdSec>)
    ensures DmdNumbers(a + b) == DmdNumbers(a) + DmdNumbers(b)
  {
    if b == [] {
      assert a + b == a;
    } else {
      assert (a + b)[..|a + b| - 1] == a + b[..|b| - 1];
      DmdNumbersConcat(a, b[..|b| - 1]);
    }
  }

  lemma {:induction false} DmdNumbersAt(secs: seq<DmdSec>)
    ensures |DmdNumbers(secs)| == |secs| && forall i | 0 <= i < |secs| :: DmdNumbers(secs)[i] == secs[i].number
  {
    if secs != [] {
      DmdNumbersAt(secs[..|secs| - 1]);
    }
  }

  lemma {:induction false} TaggedConcat(prefix: string, a: seq<nat>, b: seq<nat>)
    ensures Tagged(prefix, a + b) == Tagged(prefix, a) + Tagged(prefix, b)
  {
  }

  /** References into a list of sections stay good as the list grows. */
  lemma DmdIdsGrow(a: seq<DmdSec>, b: seq<DmdSec>)
    ensures DmdIds(a + b) == DmdIds(a) + DmdIds(b)
  {
    DmdNumbersConcat(a, b);
    TaggedConcat("dmdSec_", DmdNumbers(a), DmdNumbers(b));
  }

  lemma AmdStep(secs: seq<AmdSec>, sec: AmdSec)
    ensures AmdNumbers(secs + [sec]) == AmdNumbers(secs) + [sec.number]
    ensures TechNumbers(secs + [sec]) == TechNumbers(secs) + sec.techMd
    ensures RightsNumbers(secs + [sec]) == RightsNumbers(secs) + sec.rightsMd
    ensures DigiprovNumbers(secs + [sec]) == DigiprovNumbers(secs) + sec.digiprovMd
    ensures AmdIds(secs + [sec]) == AmdIds(secs) + [AmdId(sec.number)]
  {
    assert (secs + [sec])[..|secs|] == secs;
    TaggedConcat("amdSec_", AmdNumbers(secs), [sec.number]);
  }

  lemma SectionsStep(metadata: seq<Field>, i: nat, counter: nat)
    requires i < |metadata|
    ensures var (secs, field) := (SectionsOf(metadata[..i], counter), metadata[i]);
            && SectionsOf(metadata[..i + 1], counter) == secs.Add(counter, field)
            && secs.Add(counter, field).Count() == secs.Count() + if secs.Has(KindOf(field.key)) then 0 else 1
  {
    assert metadata[..i + 1][..i] == metadata[..i];
  }

  lemma SectionsRise(before: seq<DmdSec>, counter: nat, metadata: seq<Field>)
    requires Rising(DmdNumbers(before), counter)
    ensures var secs := SectionsOf(metadata, counter);
            Rising(DmdNumbers(before + secs.InOrder()), counter + secs.Count())
  {
    var secs := SectionsOf(metadata, counter);
    SectionsHold(metadata, counter);
    InOrderRises(secs, counter);
    DmdNumbersConcat(before, secs.InOrder());
    RisingConcat(DmdNumbers(before), counter, DmdNumbers(secs.InOrder()), counter + secs.Count());
  }

  lemma InOrderRises(secs: CsvSections, counter: nat)
    requires secs.Numbered(counter)
    ensures Rising(DmdNumbers(secs.InOrder()), counter + secs.Count())
    ensures forall i | 0 <= i < |DmdNumbers(secs.InOrder())| :: counter < DmdNumbers(secs.InOrder())[i]
  {
    InOrderNumbers(secs, counter);
    DmdNumbersAt(secs.InOrder());
  }

  /** The amdSec of a file with the given numbers of rights statements and provenance entries. */
  function NextAmd(c: Counters, rights: nat, provenance: nat): AmdSec {
    AmdSec(c.amd + 1, [c.tech + 1], Consecutive(c.rights, rights), Consecutive(c.digiprov, provenance))
  }

  function Advanced(c: Counters, rights: nat, provenance: nat): Counters {
    Counters(c.dmd, c.amd + 1, c.tech + 1, c.rights + rights, c.digiprov + provenance)
  }

  /** A section numbered from the counters keeps every list rising. */
  lemma {:induction false} AppendedRises(
    dmdSecs: seq<DmdSec>, secs: seq<AmdSec>, c: Counters, rights: nat, provenance: nat)
    requires AllRising(dmdSecs, secs, c)
    ensures AllRising(dmdSecs, secs + [NextAmd(c, rights, provenance)], Advanced(c, rights, provenance))
    ensures AmdIds(secs + [NextAmd(c, rights, provenance)]) == AmdIds(secs) + [AmdId(c.amd + 1)]
  {
    AmdStep(secs, NextAmd(c, rights, provenance));
    OneRises(AmdNumbers(secs), c.amd);
    OneRises(TechNumbers(secs), c.tech);
    ConsecutiveRises(RightsNumbers(secs), c.rights, rights);
    ConsecutiveRises(DigiprovNumbers(secs), c.digiprov, provenance);
  }

  lemma OneRises(numbers: seq<nat>, counter: nat)
    requires Rising(numbers, counter)
    ensures Rising(numbers + [counter + 1], counter + 1)
  {
    RisingConcat(numbers, counter, [counter + 1], counter + 1);
  }

  lemma ConsecutiveRises(numbers: seq<nat>, counter: nat, n: nat)
    requires Rising(numbers, counter)
    ensures Rising(numbers + Consecutive(counter, n), counter + n)
  {
    RisingConcat(numbers, counter, Consecutive(counter, n), counter + n);
  }

  // ---------------------------------------------------------------- the state

  class MetsState {
    var dmdSecs: seq<DmdSec>
    var amdSecs: seq<AmdSec>
    var dmdCounter: nat
    var amdCounter: nat
    var techCounter: nat
    var rightsCounter: nat
    var digiprovCounter: nat
    var fileGrps: map<string, seq<FileElem>>
    var errorCount: nat

    ghost function Counts(): Counters
      reads this
    {
      Counters(dmdCounter, amdCounter, techCounter, rightsCounter, digiprovCounter)
    }

    /** No ID attribute is handed out twice. */
    ghost predicate Numbered()
      reads this
    {
      AllRising(dmdSecs, amdSecs, Counts())
    }

    constructor (amdCounter: nat, techCounter: nat, digiprovCounter: nat)
      ensures Numbered() && dmdSecs == [] && amdSecs == [] && errorCount == 0
      ensures Counts() == Counters(0, amdCounter, techCounter, 0, digiprovCounter)
      ensures fileGrps.Keys == set use | use in USES
      ensures forall use | use in USES :: fileGrps[use] == []
    {
      dmdSecs, amdSecs, fileGrps, errorCount := [], [], map use | use in USES :: [], 0;
      dmdCounter, rightsCounter := 0, 0;
      this.amdCounter, this.techCounter, this.digiprovCounter := amdCounter, techCounter, digiprovCounter;
    }

    /** The pattern that starts every section: advance the counter, take the identifier from it, append. */
    method NewDmdSec(kind: DmdKind) returns (id: string)
      requires Numbered()
      modifies `dmdCounter, `dmdSecs
      ensures Numbered() && dmdCounter == old(dmdCounter) + 1
      ensures dmdSecs == old(dmdSecs) + [DmdSec(dmdCounter, kind, [])] && id == DmdId(dmdCounter)
    {
      dmdCounter := dmdCounter + 1;
      id := DmdId(dmdCounter);
      dmdSecs := dmdSecs + [DmdSec(dmdCounter, kind, [])];
      assert dmdSecs[..|dmdSecs| - 1] == old(dmdSecs);
    }

    /** createDmdSecsFromCSVParsedMetadata. */
    method CreateDmdSecsFromCsv(metadata: seq<Field>) returns (ids: seq<string>)
      requires Numbered()
      modifies `dmdCounter, `dmdSecs
      ensures Numbered()
      ensures dmdSecs == old(dmdSecs) + SectionsOf(metadata, old(dmdCounter)).InOrder()
      ensures dmdCounter == old(dmdCounter) + SectionsOf(metadata, old(dmdCounter)).Count()
      ensures ids == DmdIds(SectionsOf(metadata, old(dmdCounter)).InOrder())
    {
      var before, counter, secs := dmdSecs, dmdCounter, CsvSections(None, None);
      for i := 0 to |metadata|
        invariant secs == SectionsOf(metadata[..i], counter)
        invariant dmdCounter == counter + secs.Count() && dmdSecs == before + secs.InOrder()
      {
        SectionsStep(metadata, i, counter);
        if !secs.Has(KindOf(metadata[i].key)) {
          dmdCounter := dmdCounter + 1;
        }
        secs := secs.Add(counter, metadata[i]);
        dmdSecs := before + secs.InOrder();
      }
      assert metadata[..|metadata|] == metadata;
      SectionsRise(before, counter, metadata);
      ids := DmdIds(secs.InOrder());
    }

    /** getAMDSec, outside DSpace and TRIM transfers; the caller appends the section. */
    method GetAmdSec(row: FileRow, use: string) returns (amd: AmdSec)
      modifies `amdCounter, `techCounter, `rightsCounter, `digiprovCounter
      ensures amd == NextAmd(old(Counts()), if use == "original" then row.rights else 0, row.provenance)
      ensures amd.number == old(amdCounter) + 1 && amd.techMd == [old(techCounter) + 1]
      ensures |amd.rightsMd| == (if use == "original" then row.rights else 0) && |amd.digiprovMd| == row.provenance
      ensures forall i | 0 <= i < |amd.rightsMd| :: amd.rightsMd[i] == old(rightsCounter) + 1 + i
      ensures forall i | 0 <= i < |amd.digiprovMd| :: amd.digiprovMd[i] == old(digiprovCounter) + 1 + i
      ensures amdCounter == old(amdCounter) + 1 && techCounter == old(techCounter) + 1
      ensures rightsCounter == old(rightsCounter) + |amd.rightsMd|
      ensures digiprovCounter == old(digiprovCounter) + |amd.digiprovMd|
      ensures Counts() == Advanced(old(Counts()), if use == "original" then row.rights else 0, row.provenance)
    {
      amdCounter := amdCounter + 1;
      techCounter := techCounter + 1;
      amd := AmdSec(amdCounter, [techCounter], [], []);
      if use == "original" {
        for i := 0 to row.rights
          invariant amdCounter == old(amdCounter) + 1 && techCounter == old(techCounter) + 1
          invariant digiprovCounter == old(digiprovCounter)
          invariant rightsCounter == old(rightsCounter) + i && amd.rightsMd == Consecutive(old(rightsCounter), i)
          invariant amd == AmdSec(amdCounter, [techCounter], amd.rightsMd, [])
        {
          rightsCounter := rightsCounter + 1;
          amd := amd.(rightsMd := amd.rightsMd + [rightsCounter]);
        }
      }
      ghost var rights := amd.rightsMd;
      for i := 0 to row.provenance
        invariant amdCounter == old(amdCounter) + 1 && techCounter == old(techCounter) + 1
        invariant rightsCounter == old(rightsCounter) + |rights|
        invariant digiprovCounter == old(digiprovCounter) + i && amd.digiprovMd == Consecutive(old(digiprovCounter), i)
        invariant amd == AmdSec(amdCounter, [techCounter], rights, amd.digiprovMd)
      {
        digiprovCounter := digiprovCounter + 1;
        amd := amd.(digiprovMd := amd.digiprovMd + [digiprovCounter]);
      }
    }
  }
}

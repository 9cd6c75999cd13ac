/** Which metadata sections the walk of createFileSec makes, and which file or div refers to which
    (worker/worker/clientScripts/create_mets_v2.py). */
module FileReferences {
  import opened Text
  import opened DirTree
  import opened Mets
  import opened MetsBuilder

  // ---------------------------------------------------------------- descriptive sections

  /** The divs of a walk with their references, and the sections made on the way, in order. */
  datatype Described = Described(divs: seq<Div>, secs: seq<DmdSec>)

  function CsvSecs(db: Database, path: string, n: nat): seq<DmdSec> {
    SectionsOf(if path in db.csv then db.csv[path] else [], n).InOrder()
  }

  predicate Recorded(db: Database, base: string, path: string) {
    Location(base, path) + "/" in db.directories || Location(base, path) in db.directories
  }

  function RecordSecs(db: Database, base: string, path: string, n: nat): seq<DmdSec> {
    if Recorded(db, base, path) then [DmdSec(n + 1, PremisObject, [])] else []
  }

  /** A directory gets the section of its record, if it has one, and those of its metadata.csv columns. */
  function DirectorySecs(db: Database, base: string, path: string, n: nat): seq<DmdSec> {
    var own := RecordSecs(db, base, path, n);
    own + CsvSecs(db, Relative(base, path), n + |own|)
  }

  /** A file gets those of its metadata.csv columns if it is an original. */
  function FileSecs(db: Database, row: FileRow, g: Grouping, n: nat): seq<DmdSec> {
    if g.described then CsvSecs(db, ReplaceFirst(row.originalLocation, "%transferDirectory%", ""), n) else []
  }

  /** The walk below one directory when the counter of descriptive sections is n. */
  function DescribedEntries(db: Database, base: string, entries: seq<Node>, at: string, n: nat): Described
    decreases entries, 0
  {
    if entries == [] then Described([], [])
    else
      var first := DescribedNode(db, base, entries[0], at, n);
      var rest := DescribedEntries(db, base, entries[1..], at, n + |first.secs|);
      Described(first.divs + rest.divs, first.secs + rest.secs)
  }

  function DescribedNode(db: Database, base: string, node: Node, at: string, n: nat): Described
    decreases node, 1
  {
    match node
    case File(name, _) => DescribedFile(db, base, name, Below(at, name), n)
    case Dir(name, entries) => DescribedDirectory(db, base, name, entries, Below(at, name), n)
  }

  function DescribedDirectory(
    db: Database, base: string, name: string, entries: seq<Node>, path: string, n: nat): Described
    decreases entries, 1
  {
    var own := DirectorySecs(db, base, path, n);
    var inner := DescribedEntries(db, base, entries, path, n + |own|);
    WithOwn(name, own, inner)
  }

  /** A directory with its own sections before those of its entries. */
  function WithOwn(name: string, own: seq<DmdSec>, inner: Described): Described {
    Described([Div(name, true, DmdIds(own), [], inner.divs)], own + inner.secs)
  }

  function DescribedFile(db: Database, base: string, name: string, path: string, n: nat): Described {
    if Location(base, path) !in db.files then Described([], [])
    else
      var row := db.files[Location(base, path)];
      match GroupingOf(row)
      case None => Described([], [])
      case Some(g) =>
        var secs := FileSecs(db, row, g, n);
        Described([Div(if row.title == "" then name else row.title, false, DmdIds(secs), [FileId(row)], [])], secs)
  }

  /** The sections made, and the counter moved on by as many. */
  predicate Made(before: seq<DmdSec>, n: nat, after: seq<DmdSec>, n': nat, secs: seq<DmdSec>) {
    after == before + secs && n' == n + |secs|
  }

  lemma MadeTwice(
    a: seq<DmdSec>, n: nat, b: seq<DmdSec>, m: nat, c: seq<DmdSec>, k: nat, x: seq<DmdSec>, y: seq<DmdSec>)
    requires Made(a, n, b, m, x) && Made(b, m, c, k, y)
    ensures Made(a, n, c, k, x + y) && DmdIds(x + y) == DmdIds(x) + DmdIds(y)
  {
    SeqAssoc(a, x, y);
    DmdIdsGrow(x, y);
  }

  lemma DirectoryMade(
    db: Database, base: string, path: string, a: seq<DmdSec>, k: nat, b: seq<DmdSec>, n: nat, c: seq<DmdSec>, m: nat)
    requires Made(a, k, b, n, RecordSecs(db, base, path, k)) && Made(b, n, c, m, CsvSecs(db, Relative(base, path), n))
    ensures Made(a, k, c, m, DirectorySecs(db, base, path, k))
    ensures DmdIds(DirectorySecs(db, base, path, k))
            == DmdIds(RecordSecs(db, base, path, k)) + DmdIds(CsvSecs(db, Relative(base, path), n))
  {
    var own, csv := RecordSecs(db, base, path, k), CsvSecs(db, Relative(base, path), n);
    assert DirectorySecs(db, base, path, k) == own + csv;
    MadeTwice(a, k, b, n, c, m, own, csv);
  }

  function After(done: Described, rest: Described): Described {
    Described(done.divs + rest.divs, done.secs + rest.secs)
  }

  lemma AfterNothing(rest: Described)
    ensures After(Described([], []), rest) == rest
  {
    assert [] + rest.divs == rest.divs && [] + rest.secs == rest.secs;
  }

  lemma AfterTwice(done: Described, one: Described, rest: Described)
    ensures After(done, After(one, rest)) == After(After(done, one), rest)
  {
    SeqAssoc(done.divs, one.divs, rest.divs);
    SeqAssoc(done.secs, one.secs, rest.secs);
  }

  lemma AfterDone(done: Described)
    ensures After(done, Described([], [])) == done
  {
    assert done.divs + [] == done.divs && done.secs + [] == done.secs;
  }

  // ---------------------------------------------------------------- administrative sections

  /** The ADMID attributes of the files of one group. */
  function AdmsOf(files: seq<FileElem>): multiset<Option<string>> {
    if files == [] then multiset{} else AdmsOf(files[..|files| - 1]) + multiset{files[|files| - 1].admId}
  }

  ghost function SomeUse(grps: map<string, seq<FileElem>>): (use: string)
    requires grps != map[]
    ensures use in grps
  {
    var use :| use in grps;
    use
  }

  /** Those of all groups. */
  ghost function AllAdms(grps: map<string, seq<FileElem>>): multiset<Option<string>>
    decreases |grps|
  {
    if grps == map[] then multiset{}
    else
      var use := SomeUse(grps);
      GroupLess(grps, use);
      AdmsOf(grps[use]) + AllAdms(grps - {use})
  }

  lemma GroupLess(grps: map<string, seq<FileElem>>, use: string)
    requires use in grps
    ensures |grps - {use}| < |grps|
  {
    assert (grps - {use}).Keys == grps.Keys - {use};
    assert |(grps - {use}).Keys| < |grps.Keys|;
  }

  lemma {:induction false} AdmsSplit(grps: map<string, seq<FileElem>>, use: string)
    requires use in grps
    ensures AllAdms(grps) == AdmsOf(grps[use]) + AllAdms(grps - {use})
    decreases |grps|
  {
    var first := SomeUse(grps);
    if first != use {
      var rest := grps - {first} - {use};
      GroupLess(grps, first);
      GroupLess(grps, use);
      AdmsSplit(grps - {first}, use);
      AdmsSplit(grps - {use}, first);
      assert grps - {use} - {first} == rest;
      Regroup(AdmsOf(grps[first]), AdmsOf(grps[use]), AllAdms(rest));
    }
  }

  lemma Regroup<T>(a: multiset<T>, b: multiset<T>, c: multiset<T>)
    ensures a + (b + c) == b + (a + c)
  {
  }

  function Refs(secs: seq<AmdSec>): multiset<Option<string>> {
    if secs == [] then multiset{} else Refs(secs[..|secs| - 1]) + multiset{Some(AmdId(secs[|secs| - 1].number))}
  }

  lemma {:induction false} RefsConcat(a: seq<AmdSec>, b: seq<AmdSec>)
    ensures Refs(a + b) == Refs(a) + Refs(b)
  {
    if b == [] {
      assert a + b == a;
    } else {
      assert (a + b)[..|a + b| - 1] == a + b[..|b| - 1];
      RefsConcat(a, b[..|b| - 1]);
    }
  }

  /** The second has the same references to sections as the first; files without any do not matter. */
  ghost predicate NoMoreRefs(a: multiset<Option<string>>, b: multiset<Option<string>>) {
    forall id :: b[Some(id)] == a[Some(id)]
  }

  /** No file element is lost or changed. */
  ghost predicate Continued(grps: map<string, seq<FileElem>>, grps': map<string, seq<FileElem>>) {
    forall use | use in grps :: use in grps' && grps[use] <= grps'[use]
  }

  /** The file refers to the section, which has its technical metadata, the rights statements of an original, and its
      provenance. */
  predicate Own(f: Filed, sec: AmdSec, grps: map<string, seq<FileElem>>) {
    f.use in grps && f.file.(admId := Some(AmdId(sec.number))) in grps[f.use] && Sized(sec, f)
  }

  predicate Owned(filed: seq<Filed>, secs: seq<AmdSec>, grps: map<string, seq<FileElem>>) {
    |secs| == |filed| && forall k | 0 <= k < |filed| :: Own(filed[k], secs[k], grps)
  }

  lemma OwnContinued(f: Filed, sec: AmdSec, grps: map<string, seq<FileElem>>, grps': map<string, seq<FileElem>>)
    requires Own(f, sec, grps) && Continued(grps, grps')
    ensures Own(f, sec, grps')
  {
  }

  lemma OwnedTwice(
    a: seq<Filed>, r: seq<AmdSec>, b: seq<Filed>, s: seq<AmdSec>, grps: map<string, seq<FileElem>>,
    grps': map<string, seq<FileElem>>)
    requires Owned(a, r, grps) && Continued(grps, grps') && Owned(b, s, grps')
    ensures Owned(a + b, r + s, grps')
  {
    forall k | 0 <= k < |a + b| ensures Own((a + b)[k], (r + s)[k], grps') {
      if k < |a| {
        OwnContinued(a[k], r[k], grps, grps');
      }
    }
  }

  lemma ContinuedTwice(a: map<string, seq<FileElem>>, b: map<string, seq<FileElem>>, c: map<string, seq<FileElem>>)
    requires Continued(a, b) && Continued(b, c)
    ensures Continued(a, c)
  {
  }

  /** The files added refer to the sections added, each to its own; without sections they refer to none. */
  ghost predicate Referring(
    grps: map<string, seq<FileElem>>, secs: seq<AmdSec>, grps': map<string, seq<FileElem>>, secs': seq<AmdSec>,
    filed: seq<Filed>, includeAmdSec: bool)
  {
    && secs <= secs' && Continued(grps, grps')
    && if includeAmdSec then
         Owned(filed, secs'[|secs|..], grps') && AllAdms(grps') == AllAdms(grps) + Refs(secs'[|secs|..])
       else
         secs' == secs && NoMoreRefs(AllAdms(grps), AllAdms(grps'))
  }

  lemma ReferringNone(grps: map<string, seq<FileElem>>, secs: seq<AmdSec>, includeAmdSec: bool)
    ensures Referring(grps, secs, grps, secs, [], includeAmdSec)
  {
    assert secs[|secs|..] == [];
  }

  lemma Stretches<T>(a: seq<T>, b: seq<T>, c: seq<T>)
    requires a <= b <= c
    ensures c[|a|..] == b[|a|..] + c[|b|..]
  {
  }

  lemma ReferringTwice(
    a: map<string, seq<FileElem>>, r: seq<AmdSec>, b: map<string, seq<FileElem>>, s: seq<AmdSec>,
    c: map<string, seq<FileElem>>, t: seq<AmdSec>, m: seq<Filed>, n: seq<Filed>, includeAmdSec: bool)
    requires Referring(a, r, b, s, m, includeAmdSec) && Referring(b, s, c, t, n, includeAmdSec)
    ensures Referring(a, r, c, t, m + n, includeAmdSec)
  {
    ContinuedTwice(a, b, c);
    if includeAmdSec {
      Stretches(r, s, t);
      OwnedTwice(m, s[|r|..], n, t[|s|..], b, c);
      RefsConcat(s[|r|..], t[|s|..]);
    }
  }

  lemma OneMoreAdm(grps: map<string, seq<FileElem>>, use: string, file: FileElem)
    requires use in grps
    ensures AllAdms(grps[use := grps[use] + [file]]) == AllAdms(grps) + multiset{file.admId}
  {
    var more := grps[use := grps[use] + [file]];
    AdmsSplit(grps, use);
    AdmsSplit(more, use);
    assert more - {use} == grps - {use};
    OneMoreFile(grps[use], file);
    MoveLast(AdmsOf(grps[use]), multiset{file.admId}, AllAdms(grps - {use}));
  }

  lemma MoveLast<T>(a: multiset<T>, b: multiset<T>, c: multiset<T>)
    ensures (a + b) + c == (a + c) + b
  {
  }

  lemma OneMoreFile(files: seq<FileElem>, file: FileElem)
    ensures AdmsOf(files + [file]) == AdmsOf(files) + multiset{file.admId}
  {
    assert (files + [file])[..|files|] == files;
  }

  /** The section of a file has what its record says. */
  predicate Sized(sec: AmdSec, f: Filed) {
    && |sec.techMd| == 1 && |sec.digiprovMd| == f.row.provenance
    && |sec.rightsMd| == if f.use == "original" then f.row.rights else 0
  }

  lemma OwnedOne(grps: map<string, seq<FileElem>>, f: Filed, sec: AmdSec)
    requires f.use in grps && Sized(sec, f)
    ensures var elem := f.file.(admId := Some(AmdId(sec.number)));
            Owned([f], [sec], grps[f.use := grps[f.use] + [elem]])
  {
    var elem := f.file.(admId := Some(AmdId(sec.number)));
    var grps' := grps[f.use := grps[f.use] + [elem]];
    assert grps'[f.use][|grps[f.use]|] == elem;
    assert Own(f, sec, grps');
  }

  /** One file with its own section, or none. */
  lemma ReferringOne(
    grps: map<string, seq<FileElem>>, secs: seq<AmdSec>, f: Filed, elem: FileElem, sec: Option<AmdSec>)
    requires f.use in grps && (sec.Some? ==> Sized(sec.value, f))
    requires elem == f.file.(admId := if sec.Some? then Some(AmdId(sec.value.number)) else None)
    ensures Referring(
              grps, secs, grps[f.use := grps[f.use] + [elem]], if sec.Some? then secs + [sec.value] else secs, [f],
              sec.Some?)
  {
    OneMoreAdm(grps, f.use, elem);
    if sec.Some? {
      assert (secs + [sec.value])[|secs|..] == [sec.value] && [sec.value][..0] == [];
      OwnedOne(grps, f, sec.value);
    }
  }
}
